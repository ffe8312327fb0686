/** What the authorize handlers answer, told from the request, the signed form and
    the live session alone: when a token goes out and for whom, which page is
    shown otherwise, and by which name a request is refused. */
module AuthorizeReplies {
  import opened Strings
  import opened Authorize
  import opened AuthorizeRuns
  import Scopes

  // ---- Validation ----

  predicate RegisteredRedirect(w: World, p: Params) {
    p.clientId in w.apps && p.redirectUri in w.apps[p.clientId].redirectUris
  }

  predicate AsksForToken(p: Params) {
    "id_token" in p.responseType
  }

  predicate KnownResponseType(p: Params) {
    || p.responseType == multiset{"code"} || p.responseType == multiset{"id_token"}
    || p.responseType == multiset{"code", "id_token"}
  }

  // A token needs a nonce and stays off the query string; a code for a public
  // client needs a challenge, and a challenge a known method.
  predicate WellFormed(w: World, p: Params)
    requires RegisteredRedirect(w, p)
  {
    && (AsksForToken(p) ==> p.nonce != "" && p.responseMode != "query")
    && ("code" in p.responseType && !w.apps[p.clientId].confidential ==> p.challenge != "")
    && !p.maxAge.Malformed?
    && (p.transform == "" || p.transform == "S256" || p.transform == "plain")
  }

  predicate ScopesAreGood(w: World, p: Params) {
    "openid" in p.scope && Scopes.Resolution(w.dir, p.scope).Some?
  }

  // Where the mode sends an answer.
  predicate SentBy(channel: Channel, responseMode: string) {
    match channel
    case FormPost => responseMode == "form_post"
    case Fragment => responseMode == "fragment"
    case Query => responseMode != "form_post" && responseMode != "fragment"
  }

  lemma ChannelIs(responseMode: string)
    ensures SentBy(ChannelOf(responseMode), responseMode)
  {}

  // A request is let through exactly when all of this holds.
  lemma ValidIff(w: World, p: Params)
    ensures Validate(w, p).Valid? <==>
              RegisteredRedirect(w, p) && !p.inlineRequest && KnownResponseType(p) && WellFormed(w, p)
              && ScopesAreGood(w, p)
  {
    hide Scopes.Resolution;
  }

  // The state that is signed says what the request said, with the defaults
  // filled in.
  lemma ValidatedForm(w: World, p: Params)
    requires Validate(w, p).Valid?
    ensures Validate(w, p).form
            == FormState(
                 "authorize", p.clientId, p.redirectUri, p.scope, p.state, p.nonce, p.challenge,
                 if p.challenge != "" && p.transform == "" then "plain" else p.transform,
                 if AsksForToken(p) && p.responseMode == "" then "fragment" else p.responseMode,
                 p.responseType, if p.maxAge.Seconds? then p.maxAge.seconds else 0, p.maxAge.Seconds?)
  {
    hide Scopes.Resolution;
  }

  // Without a registered redirect there is an error page and no redirect;
  // otherwise the refusal is redirected under a name that says what is wrong.
  lemma RefusedRequest(w: World, p: Params)
    requires Validate(w, p).Invalid?
    ensures var reply := Validate(w, p).reply;
            if !RegisteredRedirect(w, p) then reply == ErrorPage
            else
              && reply.ErrorRedirect?
              && (SentBy(reply.channel, p.responseMode)
                  || (AsksForToken(p) && p.responseMode == "" && reply.channel == Fragment))
              && (reply.error == "request_not_supported" <==> p.inlineRequest)
              && (reply.error == "unsupported_response_type" <==> !p.inlineRequest && !KnownResponseType(p))
              && (reply.error == "invalid_scope" ==> !ScopesAreGood(w, p))
              && (reply.error == "invalid_request" ==> !WellFormed(w, p))
              && reply.error
                 in {"request_not_supported", "unsupported_response_type", "invalid_scope", "invalid_request"}
  {
    ChannelIs(p.responseMode);
    ChannelIs("fragment");
    assert ChannelOf("fragment") == Fragment;
    hide Scopes.Resolution, SentBy, ChannelOf;
  }

  // ---- Sessions ----

  // The cookie names a stored session of this enabled user that has not expired.
  predicate LiveSession(w: World, cookie: Option<string>, userId: string, since: int) {
    && cookie.Some? && cookie.value != "" && cookie.value in w.sessions
    && w.sessions[cookie.value].userId == userId && w.sessions[cookie.value].createdAt == since
    && w.clock < w.sessions[cookie.value].expiresAt
    && userId in w.enabled
  }

  ghost predicate HasSession(w: World, cookie: Option<string>, p: Params) {
    exists userId, since :: LiveSession(w, cookie, userId, since) && YoungEnough(w, p, since)
  }

  predicate YoungEnough(w: World, p: Params, since: int) {
    p.maxAge.Seconds? ==> w.clock - since <= p.maxAge.seconds
  }

  predicate AsksAgain(p: Params) {
    p.prompt == "login" || p.prompt == "select_account"
  }

  predicate Signed(w: World, form: FormState) {
    form in w.signed && form.kind == "authorize" && form.clientId in w.apps
  }

  lemma CurrentIsLive(w: World, cookie: Option<string>)
    ensures CurrentSession(w, cookie).None? ==> forall u, t :: !LiveSession(w, cookie, u, t)
    ensures var s := CurrentSession(w, cookie);
            s.Some? ==> forall u, t :: LiveSession(w, cookie, u, t) <==> u == s.value.userId && t == s.value.createdAt
  {}

  // What a step leaves behind: a session exactly after a sign-in on a signed
  // page by a user who may, and a signed state exactly for the page it shows.
  lemma StepStores(cfg: Config, s: State, step: Step)
    requires step.Get? || step.SignIn? || step.Consent?
    ensures var w, t, reply := s.world, Apply(cfg, s, step).world, ReplyTo(cfg, s.world, step);
            && t.sessions == (if step.SignIn? && step.inserted && Signed(w, step.form) && step.user.Some?
                                 && step.user.value in w.enabled
                              then w.sessions[step.sid := Session(step.user.value, "pwd", w.clock, w.clock + 28800)]
                              else w.sessions)
            && t.signed == (if reply.SignInPage? || reply.ConsentPage? then w.signed + {reply.form} else w.signed)
            && t.clock == w.clock && t.apps == w.apps && t.dir == w.dir && t.enabled == w.enabled
  {
    hide ReplyTo, Validate;
  }

  // A sign-in at clock c lasts eight hours, for as long as the user is enabled.
  lemma SignInLasts(cfg: Config, s: State, form: FormState, userId: string, sid: string, later: World)
    requires Signed(s.world, form) && userId in s.world.enabled && sid != ""
    requires var t := Apply(cfg, s, SignIn(form, Some(userId), sid, true)).world; later.sessions == t.sessions
    ensures LiveSession(later, Some(sid), userId, s.world.clock)
            <==> later.clock < s.world.clock + 28800 && userId in later.enabled
  {
    hide ReplyTo, Validate;
  }

  // ---- When a token goes out, and for whom ----

  ghost predicate Entitled(cfg: Config, w: World, step: Step, form: FormState, userId: string, since: int) {
    Scopes.Resolution(w.dir, form.scope).Some? &&
    match step
    case Get(p, cookie) =>
      && Validate(w, p) == Valid(form) && LiveSession(w, cookie, userId, since) && YoungEnough(w, p, since)
      && !AsksAgain(p) && (cfg.requireConsent ==> p.prompt == "none")
    case SignIn(f, user, _, inserted) =>
      && f == form && Signed(w, form) && user == Some(userId) && userId in w.enabled && !cfg.requireConsent
      && since == if inserted then w.clock else 0
    case Consent(f, cookie, approve) =>
      f == form && Signed(w, form) && LiveSession(w, cookie, userId, since) && approve
    case _ => false
  }

  ghost predicate Carries(w: World, d: Delivery, form: FormState, userId: string, since: int) {
    && d.form == form && d.userId == userId && d.authTime == since && d.at == w.clock
    && (d.code <==> "code" in form.responseType) && (d.idToken <==> "id_token" in form.responseType)
    && SentBy(d.channel, form.responseMode)
  }

  predicate TypeIsKnown(form: FormState) {
    || form.responseType == multiset{"code"} || form.responseType == multiset{"id_token"}
    || form.responseType == multiset{"code", "id_token"}
  }

  lemma IssueCarries(w: World, form: FormState, userId: string, since: int)
    requires TypeIsKnown(form)
    ensures var reply := Issue(w, form, userId, since);
            if Scopes.Resolution(w.dir, form.scope).Some? then
              reply.Delivered? && Carries(w, reply.delivery, form, userId, since)
            else reply.ErrorRedirect? && reply.error == "invalid_scope" && SentBy(reply.channel, form.responseMode)
  {
    hide Scopes.Resolution;
  }

  lemma UsableIs(w: World, p: Params, form: FormState, cookie: Option<string>)
    requires Validate(w, p) == Valid(form)
    ensures var session := UsableSession(w, form, cookie);
            && (session.Some? <==> HasSession(w, cookie, p))
            && (session.Some? ==> forall u, t :: LiveSession(w, cookie, u, t) && YoungEnough(w, p, t)
                                    <==> u == session.value.userId && t == session.value.createdAt)
            && (session.None? ==> forall u, t :: !(LiveSession(w, cookie, u, t) && YoungEnough(w, p, t)))
  {
    ValidatedForm(w, p);
    CurrentIsLive(w, cookie);
    hide Validate, CurrentSession;
    var current := CurrentSession(w, cookie);
    if current.Some? && YoungEnough(w, p, current.value.createdAt) {
      assert LiveSession(w, cookie, current.value.userId, current.value.createdAt);
    }
    hide LiveSession;
  }

  lemma GetDelivers(cfg: Config, w: World, p: Params, cookie: Option<string>, form: FormState)
    requires Validate(w, p) == Valid(form)
    ensures var step, reply := Get(p, cookie), GetReply(cfg, w, p, cookie);
            && (reply.Delivered? ==>
                  var d := reply.delivery;
                  Entitled(cfg, w, step, form, d.userId, d.authTime) && Carries(w, d, form, d.userId, d.authTime))
            && (forall u, t :: Entitled(cfg, w, step, form, u, t)
                  ==> reply.Delivered? && Carries(w, reply.delivery, form, u, t))
  {
    ValidatedForm(w, p);
    ValidIff(w, p);
    UsableIs(w, p, form, cookie);
    hide Validate, Scopes.Resolution, Issue, UsableSession, LiveSession, YoungEnough, HasSession, Carries;
    var session := UsableSession(w, form, cookie);
    if session.Some? {
      IssueCarries(w, form, session.value.userId, session.value.createdAt);
    }
  }

  // What an authorize request is answered with when no token goes out.
  lemma GetShows(cfg: Config, w: World, p: Params, cookie: Option<string>, form: FormState)
    requires Validate(w, p) == Valid(form)
    ensures var reply := GetReply(cfg, w, p, cookie);
            && (reply.SignInPage? <==> p.prompt != "none" && (AsksAgain(p) || !HasSession(w, cookie, p)))
            && (reply.ConsentPage?
                <==> cfg.requireConsent && p.prompt != "none" && !AsksAgain(p) && HasSession(w, cookie, p))
            && (reply.SignInPage? || reply.ConsentPage? ==> reply.form == form)
            && (reply.ErrorRedirect? ==>
                  SentBy(reply.channel, form.responseMode) && p.prompt == "none" && !HasSession(w, cookie, p)
                  && reply.error == "login_required")
            && !reply.ErrorPage?
  {
    ValidatedForm(w, p);
    ValidIff(w, p);
    UsableIs(w, p, form, cookie);
    hide Validate, Scopes.Resolution, UsableSession, LiveSession, YoungEnough, HasSession, Carries;
    var session := UsableSession(w, form, cookie);
    if session.Some? {
      IssueCarries(w, form, session.value.userId, session.value.createdAt);
    }
  }

  lemma SignInAnswers(
      cfg: Config, w: World, form: FormState, user: Option<string>, sid: string, inserted: bool)
    requires Signed(w, form) ==> TypeIsKnown(form)
    ensures var step := SignIn(form, user, sid, inserted);
            var reply := ReplyTo(cfg, w, step);
            && (reply.Delivered? ==>
                  var d := reply.delivery;
                  Entitled(cfg, w, step, form, d.userId, d.authTime) && Carries(w, d, form, d.userId, d.authTime))
            && (forall u, t :: Entitled(cfg, w, step, form, u, t)
                  ==> reply.Delivered? && Carries(w, reply.delivery, form, u, t))
            && (reply.ErrorPage? <==> !Signed(w, form))
            && (reply.SignInPage? <==> Signed(w, form) && (user.None? || user.value !in w.enabled))
            && (reply.ConsentPage? <==> Signed(w, form) && user.Some? && user.value in w.enabled && cfg.requireConsent)
            && (reply.SignInPage? || reply.ConsentPage? ==> reply.form == form)
            && (reply.ErrorRedirect? ==> SentBy(reply.channel, form.responseMode) && reply.error == "invalid_scope")
  {
    hide Scopes.Resolution, Issue, SentBy;
    if Signed(w, form) && user.Some? {
      IssueCarries(w, form, user.value, if inserted then w.clock else 0);
    }
  }

  // A consent form issues exactly when it is approved with a live session, and
  // to nobody else; a refusal is told to the client as access_denied.
  lemma ConsentAnswers(cfg: Config, w: World, form: FormState, cookie: Option<string>, approve: bool)
    requires Signed(w, form) ==> TypeIsKnown(form)
    ensures var step := Consent(form, cookie, approve);
            var reply := ReplyTo(cfg, w, step);
            && (reply.Delivered? ==>
                  var d := reply.delivery;
                  Entitled(cfg, w, step, form, d.userId, d.authTime) && Carries(w, d, form, d.userId, d.authTime))
            && (forall u, t :: Entitled(cfg, w, step, form, u, t)
                  ==> reply.Delivered? && Carries(w, reply.delivery, form, u, t))
            && (reply.ErrorPage? <==> !Signed(w, form) || forall u, t :: !LiveSession(w, cookie, u, t))
            && (reply.ErrorRedirect? ==>
                  reply.error == (if approve then "invalid_scope" else "access_denied")
                  && SentBy(reply.channel, form.responseMode))
            && !reply.SignInPage? && !reply.ConsentPage?
  {
    CurrentIsLive(w, cookie);
    hide Scopes.Resolution, Issue, SentBy, CurrentSession, LiveSession;
    var session := CurrentSession(w, cookie);
    ChannelIs(form.responseMode);
    if session.Some? {
      assert LiveSession(w, cookie, session.value.userId, session.value.createdAt);
    }
    if session.Some? && Signed(w, form) {
      IssueCarries(w, form, session.value.userId, session.value.createdAt);
    }
  }

  // ---- Over runs ----

  lemma {:induction false} UpToStep(cfg: Config, s: State, steps: seq<Step>, n: nat)
    requires Run(cfg, s, steps) && n < |steps|
    ensures Run(cfg, s, steps[..n]) && Run(cfg, s, steps[..n + 1])
    ensures var before := After(cfg, s, steps[..n]);
            Enabled(before, steps[n]) && After(cfg, s, steps[..n + 1]) == Apply(cfg, before, steps[n])
    decreases n
  {
    hide Apply, Enabled;
    if n == 0 {
      assert steps[..1][0] == steps[0] && steps[..1][1..] == [];
    } else {
      UpToStep(cfg, Apply(cfg, s, steps[0]), steps[1..], n - 1);
      assert steps[..n][1..] == steps[1..][..n - 1] && steps[..n + 1][1..] == steps[1..][..n];
    }
  }

  // Every state the server has signed for this flow has a known response type.
  lemma SignedIsKnown(s: State, form: FormState)
    requires Kept(s) && form in s.world.signed && form.kind == KIND
    ensures TypeIsKnown(form)
  {
    assert WasValidated(s, form);
  }

  lemma StepDelivers(cfg: Config, s: State, step: Step)
    requires Kept(s)
    ensures var reply := ReplyTo(cfg, s.world, step);
            && (reply.Delivered? ==>
                  var d := reply.delivery;
                  Entitled(cfg, s.world, step, d.form, d.userId, d.authTime)
                  && Carries(s.world, d, d.form, d.userId, d.authTime))
            && (forall form, u, t :: Entitled(cfg, s.world, step, form, u, t)
                  ==> reply.Delivered? && Carries(s.world, reply.delivery, form, u, t))
  {
    match step
    case Get(p, cookie) =>
      GetIsAbout(cfg, s.world, p, cookie);
      if Validate(s.world, p).Valid? {
        GetDelivers(cfg, s.world, p, cookie, Validate(s.world, p).form);
      }
      hide GetReply, Validate, Carries;
    case SignIn(form, user, sid, inserted) =>
      if Signed(s.world, form) {
        SignedIsKnown(s, form);
      }
      SignInAnswers(cfg, s.world, form, user, sid, inserted);
      hide SignInReply;
    case Consent(form, cookie, approve) =>
      if Signed(s.world, form) {
        SignedIsKnown(s, form);
      }
      ConsentAnswers(cfg, s.world, form, cookie, approve);
      hide ConsentReply;
    case _ =>
  }

  // In every run a step delivers exactly when somebody is entitled by it, and
  // then to that user, with the authentication time of the session it used; a
  // consent form that is not approved delivers nothing.
  lemma DeliveriesAreOwed(cfg: Config, clock: int, dir: Scopes.Directory, steps: seq<Step>, n: nat)
    requires Run(cfg, Initial(clock, dir), steps) && n < |steps|
    ensures Run(cfg, Initial(clock, dir), steps[..n]) && Run(cfg, Initial(clock, dir), steps[..n + 1])
    ensures var before := After(cfg, Initial(clock, dir), steps[..n]);
            var w, got := before.world, before.deliveries;
            var now := After(cfg, Initial(clock, dir), steps[..n + 1]).deliveries;
            && (now == got || (|now| == |got| + 1 && now[..|got|] == got))
            && (now != got ==>
                  var d := now[|got|];
                  Entitled(cfg, w, steps[n], d.form, d.userId, d.authTime)
                  && Carries(w, d, d.form, d.userId, d.authTime))
            && (forall form, u, t :: Entitled(cfg, w, steps[n], form, u, t)
                  ==> now != got && Carries(w, now[|got|], form, u, t))
            && (steps[n].Consent? && !steps[n].approve ==> now == got)
  {
    var s := Initial(clock, dir);
    UpToStep(cfg, s, steps, n);
    RunKeeps(cfg, s, steps[..n]);
    var before := After(cfg, s, steps[..n]);
    hide Run, After, Kept;
    StepDelivers(cfg, before, steps[n]);
    hide ReplyTo, Validate, Move, Sign, Carries, LiveSession;
  }
}
