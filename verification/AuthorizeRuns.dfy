/** Runs of the authorize endpoint: any sequence of authorize requests, sign-in and
    consent posts, other flows' pages and sessions, and changes to the clock, the
    applications and the directory in between. */
module AuthorizeRuns {
  import opened Strings
  import opened Authorize
  import Scopes

  datatype Step =
    | Get(params: Params, cookie: Option<string>)
    | SignIn(form: FormState, user: Option<string>, sid: string, inserted: bool)
    | Consent(form: FormState, cookie: Option<string>, approve: bool)
    | OtherForm(form: FormState)
    | OtherSession(sid: string, session: Session)
    | Tick(clock: int)
    | Administer(apps: map<string, App>, dir: Scopes.Directory, enabled: set<string>)

  // The deliveries so far, and every state that has passed validation with the
  // registration it was validated against.
  datatype State = State(world: World, deliveries: seq<Delivery>, validated: set<(FormState, App)>)

  ghost predicate Enabled(s: State, step: Step) {
    match step
    case SignIn(_, _, sid, _) => sid !in s.world.sessions
    case OtherForm(form) => form.kind != KIND
    case _ => true
  }

  function ReplyTo(cfg: Config, w: World, step: Step): Reply {
    match step
    case Get(params, cookie) => GetReply(cfg, w, params, cookie)
    case SignIn(form, user, _, inserted) => SignInReply(cfg, w, form, user, inserted)
    case Consent(form, cookie, approve) => ConsentReply(w, form, cookie, approve)
    case _ => ErrorPage
  }

  function Move(w: World, step: Step): World {
    match step
    case SignIn(form, user, sid, inserted) =>
      if SignsIn(w, form, user) && inserted
      then w.(sessions := w.sessions[sid := Session(user.value, "pwd", w.clock, w.clock + SESSION_LIFETIME)]) else w
    case OtherForm(form) => w.(signed := w.signed + {form})
    case OtherSession(sid, session) => w.(sessions := w.sessions[sid := session])
    case Tick(clock) => w.(clock := clock)
    case Administer(apps, dir, enabled) => w.(apps := apps, dir := dir, enabled := enabled)
    case _ => w
  }

  ghost function Apply(cfg: Config, s: State, step: Step): State {
    var reply := ReplyTo(cfg, s.world, step);
    var world := Move(s.world, step);
    State(world.(signed := Sign(world.signed, reply)),
          if reply.Delivered? then s.deliveries + [reply.delivery] else s.deliveries,
          if step.Get? && Validate(s.world, step.params).Valid?
          then s.validated + {(Validate(s.world, step.params).form, s.world.apps[step.params.clientId])}
          else s.validated)
  }

  ghost predicate Run(cfg: Config, s: State, steps: seq<Step>)
    decreases |steps|
  {
    steps == [] || (Enabled(s, steps[0]) && Run(cfg, Apply(cfg, s, steps[0]), steps[1..]))
  }

  ghost function After(cfg: Config, s: State, steps: seq<Step>): State
    requires Run(cfg, s, steps)
    decreases |steps|
  {
    if steps == [] then s else After(cfg, Apply(cfg, s, steps[0]), steps[1..])
  }

  function Initial(clock: int, dir: Scopes.Directory): State {
    State(World(clock, map[], dir, {}, map[], {}), [], {})
  }

  // ---- Validation happens once and holds to the end ----

  ghost predicate WasValidated(s: State, form: FormState) {
    exists app :: (form, app) in s.validated && Passed(form, app)
  }

  // A token is of the kinds the response type names, and its channel follows
  // from the response mode.
  ghost predicate Truthful(d: Delivery) {
    && (d.idToken <==> d.form.responseType == ID_TOKEN || d.form.responseType == HYBRID)
    && (d.code <==> d.form.responseType == CODE || d.form.responseType == HYBRID)
    && d.channel == ChannelOf(d.form.responseMode)
  }

  ghost predicate Kept(s: State) {
    && (forall form :: form in s.world.signed && form.kind == KIND ==> WasValidated(s, form))
    && (forall i :: 0 <= i < |s.deliveries| ==> WasValidated(s, s.deliveries[i].form) && Truthful(s.deliveries[i]))
  }

  ghost predicate AboutForm(reply: Reply, form: FormState) {
    && (reply.SignInPage? || reply.ConsentPage? ==> reply.form == form)
    && (reply.Delivered? ==> reply.delivery.form == form && Truthful(reply.delivery))
  }

  // What a handler signs or delivers is a form it has just validated, or one it
  // was handed back signed.
  lemma GetIsAbout(cfg: Config, w: World, p: Params, cookie: Option<string>)
    ensures var reply := GetReply(cfg, w, p, cookie);
            match Validate(w, p)
            case Valid(form) => AboutForm(reply, form)
            case Invalid(_) => reply.ErrorPage? || reply.ErrorRedirect?
  {
    hide Scopes.Resolution;
  }

  lemma PostIsAbout(cfg: Config, w: World, step: Step)
    requires step.SignIn? || step.Consent?
    ensures var reply := ReplyTo(cfg, w, step);
            AboutForm(reply, step.form)
            && (reply.SignInPage? || reply.ConsentPage? || reply.Delivered?
                ==> step.form in w.signed && step.form.kind == KIND)
  {
    hide Scopes.Resolution;
  }

  lemma ReplyIsAbout(cfg: Config, s: State, step: Step)
    requires Kept(s)
    ensures var reply, t := ReplyTo(cfg, s.world, step), Apply(cfg, s, step);
            && (reply.SignInPage? || reply.ConsentPage? ==> WasValidated(t, reply.form))
            && (reply.Delivered? ==> WasValidated(t, reply.delivery.form) && Truthful(reply.delivery))
  {
    var t := Apply(cfg, s, step);
    ValidatedGrows(cfg, s, step);
    match step
    case Get(p, cookie) =>
      GetIsAbout(cfg, s.world, p, cookie);
      if Validate(s.world, p).Valid? {
        ValidationPasses(s.world, p);
        hide Validate, GetReply, Passed;
        assert (Validate(s.world, p).form, s.world.apps[p.clientId]) in t.validated;
      }
    case SignIn(_, _, _, _) =>
      hide SignInReply;
      PostIsAbout(cfg, s.world, step);
    case Consent(_, _, _) =>
      hide ConsentReply;
      PostIsAbout(cfg, s.world, step);
    case _ =>
  }

  lemma ValidatedGrows(cfg: Config, s: State, step: Step)
    ensures var t := Apply(cfg, s, step);
            forall form :: WasValidated(s, form) ==> WasValidated(t, form)
  {
    hide ReplyTo, Move, Validate, Sign;
    var t := Apply(cfg, s, step);
    forall form | WasValidated(s, form)
      ensures WasValidated(t, form)
    {
      var app :| (form, app) in s.validated && Passed(form, app);
      assert (form, app) in t.validated;
    }
  }

  lemma StepKeeps(cfg: Config, s: State, step: Step)
    requires Kept(s) && Enabled(s, step)
    ensures Kept(Apply(cfg, s, step))
  {
    hide ReplyTo, Validate, WasValidated, Truthful;
    ReplyIsAbout(cfg, s, step);
    ValidatedGrows(cfg, s, step);
  }

  lemma {:induction false} RunKeeps(cfg: Config, s: State, steps: seq<Step>)
    requires Kept(s) && Run(cfg, s, steps)
    ensures Kept(After(cfg, s, steps))
    decreases |steps|
  {
    hide Apply, Kept, Enabled;
    if steps != [] {
      StepKeeps(cfg, s, steps[0]);
      RunKeeps(cfg, Apply(cfg, s, steps[0]), steps[1..]);
    }
  }

  // Every delivery, in every run, belongs to a state that passed every check
  // when it was first validated; a state of another kind never gets that far.
  lemma DeliveriesWereValidated(cfg: Config, clock: int, dir: Scopes.Directory, steps: seq<Step>)
    requires Run(cfg, Initial(clock, dir), steps)
    ensures var t := After(cfg, Initial(clock, dir), steps);
            forall i :: 0 <= i < |t.deliveries| ==>
              t.deliveries[i].form.kind == KIND && WasValidated(t, t.deliveries[i].form)
  {
    hide Run, After;
    RunKeeps(cfg, Initial(clock, dir), steps);
  }

  // An ID token goes out on the query string exactly when the request named a
  // response mode the server does not advertise.
  lemma IdTokenOnQueryIffUnadvertised(cfg: Config, clock: int, dir: Scopes.Directory, steps: seq<Step>, i: nat)
    requires Run(cfg, Initial(clock, dir), steps) && i < |After(cfg, Initial(clock, dir), steps).deliveries|
    ensures var d := After(cfg, Initial(clock, dir), steps).deliveries[i];
            d.idToken ==> (d.channel == Query <==> !Advertised(d.form.responseMode))
  {
    hide Run, After;
    RunKeeps(cfg, Initial(clock, dir), steps);
    var t := After(cfg, Initial(clock, dir), steps);
    assert WasValidated(t, t.deliveries[i].form);
  }

  // ---- Building runs ----

  lemma Prepend(cfg: Config, s: State, step: Step, rest: seq<Step>) returns (steps: seq<Step>)
    requires Enabled(s, step) && Run(cfg, Apply(cfg, s, step), rest)
    ensures steps == [step] + rest
    ensures Run(cfg, s, steps) && After(cfg, s, steps) == After(cfg, Apply(cfg, s, step), rest)
  {
    hide Apply, Enabled;
    steps := [step] + rest;
    assert steps[1..] == rest;
  }

  // A registered client and user, and a session the user got at the given time.
  function Ready(clock: int, dir: Scopes.Directory, since: int): State {
    State(World(clock, map["c" := App(true, {"r"})], dir, {"u"}, map["s" := SessionSince(since, clock)], {}), [], {})
  }

  function SessionSince(since: int, clock: int): Session {
    Session("u", "pwd", since, clock + SESSION_LIFETIME)
  }

  lemma ReachReady(cfg: Config, clock: int, dir: Scopes.Directory, since: int, rest: seq<Step>)
    returns (steps: seq<Step>)
    requires Run(cfg, Ready(clock, dir, since), rest)
    ensures Run(cfg, Initial(clock, dir), steps)
    ensures After(cfg, Initial(clock, dir), steps) == After(cfg, Ready(clock, dir, since), rest)
    ensures steps == [Administer(map["c" := App(true, {"r"})], dir, {"u"}),
                      OtherSession("s", SessionSince(since, clock))] + rest
  {
    hide Run, After;
    var s0 := Initial(clock, dir);
    var first := Administer(map["c" := App(true, {"r"})], dir, {"u"});
    var second := OtherSession("s", SessionSince(since, clock));
    var s1 := Apply(cfg, s0, first);
    assert Apply(cfg, s1, second) == Ready(clock, dir, since);
    var tail := Prepend(cfg, s1, second, rest);
    steps := Prepend(cfg, s0, first, tail);
  }

  function Request(responseType: ResponseType, responseMode: string, maxAge: MaxAgeParam): Params {
    Params("c", "r", ["openid"], "", "n", "", "", responseMode, responseType, "", maxAge, false)
  }

  function RequestForm(responseType: ResponseType, responseMode: string, maxAge: MaxAgeParam): FormState {
    var form := FormOf(Request(responseType, responseMode, maxAge));
    if maxAge.Seconds? then form.(maxAge := maxAge.seconds, hasMaxAge := true) else form
  }

  lemma RequestIsValid(w: World, responseType: ResponseType, responseMode: string, maxAge: MaxAgeParam)
    requires "c" in w.apps && w.apps["c"] == App(true, {"r"}) && !maxAge.Malformed?
    requires responseType == CODE || responseType == ID_TOKEN
    requires responseType == ID_TOKEN ==> responseMode != "" && responseMode != "query"
    ensures Validate(w, Request(responseType, responseMode, maxAge))
            == Valid(RequestForm(responseType, responseMode, maxAge))
    ensures Scopes.Resolution(w.dir, ["openid"]).Some?
  {
    assert ["openid"][1..] == [];
    assert Scopes.MeaningOf(w.dir, "openid") == Scopes.Plain("openid");
  }

  // The condition is met: an unadvertised mode does put an ID token there.
  lemma UnadvertisedModeReachesQuery(clock: int, dir: Scopes.Directory) returns (steps: seq<Step>)
    ensures Run(Config(false), Initial(clock, dir), steps)
    ensures var t := After(Config(false), Initial(clock, dir), steps);
            |t.deliveries| == 1 && t.deliveries[0].idToken && t.deliveries[0].channel == Query
  {
    var cfg := Config(false);
    var s := Ready(clock, dir, clock);
    var get := Get(Request(ID_TOKEN, "web_message", Absent), Some("s"));
    RequestIsValid(s.world, ID_TOKEN, "web_message", Absent);
    hide Validate, Scopes.Resolution;
    var t := Apply(cfg, s, get);
    assert |t.deliveries| == 1 && t.deliveries[0].idToken && t.deliveries[0].channel == Query;
    hide Apply;
    var rest := Prepend(cfg, s, get, []);
    steps := ReachReady(cfg, clock, dir, clock, rest);
  }

  // ---- max_age (section 3.1.2.1 of OpenID Connect Core 1.0) ----

  ghost predicate WithinMaxAge(d: Delivery) {
    d.form.hasMaxAge ==> d.at - d.authTime <= d.form.maxAge
  }

  // Which of the two unguarded ways to a token a run may take.
  datatype Policy = Policy(consentPosts: bool, failedInserts: bool)

  predicate Respects(policy: Policy, steps: seq<Step>) {
    forall i :: 0 <= i < |steps| ==>
      && (steps[i].Consent? ==> policy.consentPosts)
      && (steps[i].SignIn? && !steps[i].inserted ==> policy.failedInserts)
  }

  ghost predicate MaxAgeHonoured(cfg: Config, policy: Policy) {
    forall clock, dir, steps :: Run(cfg, Initial(clock, dir), steps) && Respects(policy, steps)
      ==> AllWithinMaxAge(After(cfg, Initial(clock, dir), steps))
  }

  ghost predicate AllWithinMaxAge(s: State) {
    forall i :: 0 <= i < |s.deliveries| ==> WithinMaxAge(s.deliveries[i])
  }

  lemma StepWithinMaxAge(cfg: Config, s: State, step: Step)
    requires AllWithinMaxAge(s) && !step.Consent?
    requires step.SignIn? && !step.inserted ==> cfg.requireConsent
    ensures AllWithinMaxAge(Apply(cfg, s, step))
  {
    hide Scopes.Resolution, Validate, Move, Sign;
    if step.Get? {
      GetIsAbout(cfg, s.world, step.params, step.cookie);
    }
    var reply := ReplyTo(cfg, s.world, step);
    if reply.Delivered? {
      assert WithinMaxAge(reply.delivery);
    }
  }

  lemma {:induction false} RunWithinMaxAge(cfg: Config, policy: Policy, s: State, steps: seq<Step>)
    requires !policy.consentPosts && (cfg.requireConsent || !policy.failedInserts)
    requires AllWithinMaxAge(s) && Run(cfg, s, steps) && Respects(policy, steps)
    ensures AllWithinMaxAge(After(cfg, s, steps))
    decreases |steps|
  {
    hide Apply, AllWithinMaxAge, Enabled;
    if steps != [] {
      StepWithinMaxAge(cfg, s, steps[0]);
      RunWithinMaxAge(cfg, policy, Apply(cfg, s, steps[0]), steps[1..]);
    }
  }

  // Whether the token a step delivers, if any, answers its max_age: one that
  // reuses a session on a GET always does; one that follows a sign-in does when
  // the session was stored; one that follows a consent post does when the live
  // session is young enough.
  ghost predicate StepAnswersMaxAge(cfg: Config, w: World, step: Step) {
    ReplyTo(cfg, w, step).Delivered? ==>
      match step
      case SignIn(form, _, _, inserted) => form.hasMaxAge ==> inserted || w.clock <= form.maxAge
      case Consent(form, cookie, _) =>
        var session := CurrentSession(w, cookie);
        form.hasMaxAge && session.Some? ==> w.clock - session.value.createdAt <= form.maxAge
      case _ => true
  }

  ghost predicate RunAnswersMaxAge(cfg: Config, s: State, steps: seq<Step>)
    decreases |steps|
  {
    steps == []
    || (StepAnswersMaxAge(cfg, s.world, steps[0]) && RunAnswersMaxAge(cfg, Apply(cfg, s, steps[0]), steps[1..]))
  }

  lemma DeliveryAnswersIff(cfg: Config, w: World, step: Step)
    ensures var reply := ReplyTo(cfg, w, step);
            reply.Delivered? ==> (WithinMaxAge(reply.delivery) <==> StepAnswersMaxAge(cfg, w, step))
  {
    hide Scopes.Resolution, Validate;
    if step.Get? {
      GetIsAbout(cfg, w, step.params, step.cookie);
    }
  }

  lemma StepAnswersIff(cfg: Config, s: State, step: Step)
    ensures AllWithinMaxAge(Apply(cfg, s, step)) <==> AllWithinMaxAge(s) && StepAnswersMaxAge(cfg, s.world, step)
  {
    DeliveryAnswersIff(cfg, s.world, step);
    var before, after := s.deliveries, Apply(cfg, s, step).deliveries;
    var reply := ReplyTo(cfg, s.world, step);
    assert after == if reply.Delivered? then before + [reply.delivery] else before;
    assert forall i :: 0 <= i < |before| ==> after[i] == before[i];
    assert reply.Delivered? ==> after[|before|] == reply.delivery;
    hide ReplyTo, Apply, WithinMaxAge;
  }

  lemma {:induction false} AnswersFrom(cfg: Config, s: State, steps: seq<Step>)
    requires Run(cfg, s, steps)
    ensures AllWithinMaxAge(After(cfg, s, steps)) <==> AllWithinMaxAge(s) && RunAnswersMaxAge(cfg, s, steps)
    decreases |steps|
  {
    hide Apply, AllWithinMaxAge, StepAnswersMaxAge, Enabled;
    if steps != [] {
      StepAnswersIff(cfg, s, steps[0]);
      AnswersFrom(cfg, Apply(cfg, s, steps[0]), steps[1..]);
    }
  }

  // For every run: all tokens answer their max_age exactly when each step that
  // delivers one meets its condition, which is known before the step is taken.
  lemma RunAnswersMaxAgeIff(cfg: Config, clock: int, dir: Scopes.Directory, steps: seq<Step>)
    requires Run(cfg, Initial(clock, dir), steps)
    ensures AllWithinMaxAge(After(cfg, Initial(clock, dir), steps))
            <==> RunAnswersMaxAge(cfg, Initial(clock, dir), steps)
  {
    hide Run, After, RunAnswersMaxAge;
    NothingDeliveredYet(clock, dir);
    AnswersFrom(cfg, Initial(clock, dir), steps);
  }

  function AgedRequest(): Params { Request(CODE, "", Seconds(10)) }

  function AgedForm(): FormState { RequestForm(CODE, "", Seconds(10)) }

  // A request for a sign-in at most ten seconds old is shown the sign-in page,
  // whose signed state can come back at once.
  lemma PageIsShown(cfg: Config, dir: Scopes.Directory, cookie: Option<string>)
    requires cookie == None || cookie == Some("s")
    ensures var s := Ready(100, dir, 0);
            var s1 := Apply(cfg, s, Get(AgedRequest(), cookie));
            s1.world == s.world.(signed := {AgedForm()}) && s1.deliveries == []
            && Scopes.Resolution(dir, ["openid"]).Some?
  {
    RequestIsValid(Ready(100, dir, 0).world, CODE, "", Seconds(10));
    hide Validate, Scopes.Resolution;
  }

  // A consent post issues from whatever session is live. The state it carries
  // may come from a sign-in page, so turning consent off does not prevent it.
  lemma ConsentPostExceedsMaxAge(cfg: Config, dir: Scopes.Directory) returns (steps: seq<Step>)
    ensures Run(cfg, Initial(100, dir), steps) && Respects(Policy(true, false), steps)
    ensures !AllWithinMaxAge(After(cfg, Initial(100, dir), steps))
  {
    var s := Ready(100, dir, 0);
    var get, consent := Get(AgedRequest(), Some("s")), Consent(AgedForm(), Some("s"), true);
    PageIsShown(cfg, dir, Some("s"));
    var s1 := Apply(cfg, s, get);
    LateConsent(cfg, s1);
    hide Apply, AllWithinMaxAge;
    var tail := Prepend(cfg, s1, consent, []);
    var rest := Prepend(cfg, s, get, tail);
    steps := ReachReady(cfg, 100, dir, 0, rest);
  }

  lemma LateConsent(cfg: Config, s: State)
    requires s.world == Ready(100, s.world.dir, 0).world.(signed := {AgedForm()}) && s.deliveries == []
    requires Scopes.Resolution(s.world.dir, ["openid"]).Some?
    ensures !AllWithinMaxAge(Apply(cfg, s, Consent(AgedForm(), Some("s"), true)))
  {
    hide Validate, Scopes.Resolution;
    var t := Apply(cfg, s, Consent(AgedForm(), Some("s"), true));
    assert |t.deliveries| == 1 && !WithinMaxAge(t.deliveries[0]);
  }

  // With consent off, a sign-in whose session was not stored reports no
  // authentication time at all.
  lemma FailedInsertExceedsMaxAge(dir: Scopes.Directory) returns (steps: seq<Step>)
    ensures Run(Config(false), Initial(100, dir), steps) && Respects(Policy(false, true), steps)
    ensures !AllWithinMaxAge(After(Config(false), Initial(100, dir), steps))
  {
    var cfg := Config(false);
    var s := Ready(100, dir, 0);
    var get, signIn := Get(AgedRequest(), None), SignIn(AgedForm(), Some("u"), "t", false);
    PageIsShown(cfg, dir, None);
    var s1 := Apply(cfg, s, get);
    LostSignIn(s1);
    hide Apply, AllWithinMaxAge;
    var tail := Prepend(cfg, s1, signIn, []);
    var rest := Prepend(cfg, s, get, tail);
    steps := ReachReady(cfg, 100, dir, 0, rest);
  }

  lemma LostSignIn(s: State)
    requires s.world == Ready(100, s.world.dir, 0).world.(signed := {AgedForm()}) && s.deliveries == []
    requires Scopes.Resolution(s.world.dir, ["openid"]).Some?
    ensures !AllWithinMaxAge(Apply(Config(false), s, SignIn(AgedForm(), Some("u"), "t", false)))
  {
    hide Validate, Scopes.Resolution;
    var t := Apply(Config(false), s, SignIn(AgedForm(), Some("u"), "t", false));
    assert |t.deliveries| == 1 && !WithinMaxAge(t.deliveries[0]);
  }

  // Every token answers its max_age exactly when runs take no consent post, and
  // no failed session insert unless sign-in stops at the consent page anyway.
  lemma MaxAgeHonouredIff(cfg: Config, policy: Policy)
    ensures MaxAgeHonoured(cfg, policy) <==> !policy.consentPosts && (cfg.requireConsent || !policy.failedInserts)
  {
    hide Run, After, AllWithinMaxAge, Apply;
    var dir := Scopes.Directory([], "g");
    if policy.consentPosts {
      var steps := ConsentPostExceedsMaxAge(cfg, dir);
      assert Respects(policy, steps);
    } else if !cfg.requireConsent && policy.failedInserts {
      var steps := FailedInsertExceedsMaxAge(dir);
      assert Respects(policy, steps);
    } else {
      forall clock, dir, steps | Run(cfg, Initial(clock, dir), steps) && Respects(policy, steps)
        ensures AllWithinMaxAge(After(cfg, Initial(clock, dir), steps))
      {
        NothingDeliveredYet(clock, dir);
        RunWithinMaxAge(cfg, policy, Initial(clock, dir), steps);
      }
    }
  }

  lemma NothingDeliveredYet(clock: int, dir: Scopes.Directory)
    ensures AllWithinMaxAge(Initial(clock, dir))
  {}
}
