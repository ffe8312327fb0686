/** prompt=login and prompt=select_account demand that the user be asked again,
    whatever session is live (section 3.1.2.1 of OpenID Connect Core 1.0). The
    signed state does not carry the prompt, so what the first request demanded has
    to survive from page to page. This module says in which runs it does. */
module AuthorizePrompt {
  import opened Strings
  import opened Authorize
  import opened AuthorizeRuns
  import Scopes

  predicate Forces(p: Params) {
    p.prompt == "login" || p.prompt == "select_account"
  }

  // The states nobody needs to be asked about: somebody has just signed in on
  // the state's page, or a request that came to this state made no demand.
  function Released(w: World, step: Step, released: set<FormState>): set<FormState> {
    match step
    case Get(p, _) => if Validate(w, p).Valid? && !Forces(p) then released + {Validate(w, p).form} else released
    case SignIn(form, user, _, _) => if SignsIn(w, form, user) then released + {form} else released
    case _ => released
  }

  // No token goes out for a state before it is released.
  ghost predicate PromptHonoured(cfg: Config, s: State, steps: seq<Step>, released: set<FormState>)
    decreases |steps|
  {
    steps == [] ||
    var reply, now := ReplyTo(cfg, s.world, steps[0]), Released(s.world, steps[0], released);
    (reply.Delivered? ==> reply.delivery.form in now)
    && PromptHonoured(cfg, Apply(cfg, s, steps[0]), steps[1..], now)
  }

  // Every consent form that is accepted carries a state that has been released.
  ghost predicate ConsentsReleased(cfg: Config, s: State, steps: seq<Step>, released: set<FormState>)
    decreases |steps|
  {
    steps == [] ||
    ((steps[0].Consent? && ReplyTo(cfg, s.world, steps[0]).Delivered? ==> steps[0].form in released)
     && ConsentsReleased(cfg, Apply(cfg, s, steps[0]), steps[1..], Released(s.world, steps[0], released)))
  }

  // Authorize requests and sign-in posts keep to the prompt by themselves.
  lemma StepHonoursIff(cfg: Config, w: World, step: Step, released: set<FormState>)
    ensures var reply := ReplyTo(cfg, w, step);
            (reply.Delivered? ==> reply.delivery.form in Released(w, step, released))
            <==> (step.Consent? && reply.Delivered? ==> step.form in released)
  {
    hide Scopes.Resolution, Validate;
    if step.Get? {
      GetIsAbout(cfg, w, step.params, step.cookie);
    }
  }

  // In every run no token ignores the prompt if and only if no consent form
  // brings back a state before somebody has signed in on it.
  lemma {:induction false} PromptHonouredIff(cfg: Config, s: State, steps: seq<Step>, released: set<FormState>)
    ensures PromptHonoured(cfg, s, steps, released) <==> ConsentsReleased(cfg, s, steps, released)
    decreases |steps|
  {
    if steps != [] {
      StepHonoursIff(cfg, s.world, steps[0], released);
      PromptHonouredIff(cfg, Apply(cfg, s, steps[0]), steps[1..], Released(s.world, steps[0], released));
      hide Apply, Released, ReplyTo;
    }
  }

  function LoginRequest(): Params { Request(CODE, "", Absent).(prompt := "login") }

  function LoginForm(): FormState { RequestForm(CODE, "", Absent) }

  // A user with a live session is shown the sign-in page, as demanded, posts its
  // state as a consent form instead, and is issued a code without signing in.
  lemma ConsentPostSkipsPrompt(cfg: Config, dir: Scopes.Directory) returns (steps: seq<Step>)
    ensures Run(cfg, Initial(100, dir), steps) && |After(cfg, Initial(100, dir), steps).deliveries| == 1
    ensures forall i :: 0 <= i < |steps| ==> !steps[i].SignIn? && (steps[i].Get? ==> Forces(steps[i].params))
    ensures !PromptHonoured(cfg, Initial(100, dir), steps, {})
  {
    var s := Ready(100, dir, 0);
    var get, consent := Get(LoginRequest(), Some("s")), Consent(LoginForm(), Some("s"), true);
    PageIsSigned(cfg, dir);
    var s1 := Apply(cfg, s, get);
    ConsentDelivers(cfg, s1);
    hide Apply;
    var tail := Prepend(cfg, s1, consent, []);
    var rest := Prepend(cfg, s, get, tail);
    steps := ReachReady(cfg, 100, dir, 0, rest);
    NothingReleased(cfg, Initial(100, dir), steps);
  }

  lemma PageIsSigned(cfg: Config, dir: Scopes.Directory)
    ensures var s := Ready(100, dir, 0);
            var s1 := Apply(cfg, s, Get(LoginRequest(), Some("s")));
            s1.world == s.world.(signed := {LoginForm()}) && s1.deliveries == []
            && Scopes.Resolution(dir, ["openid"]).Some?
  {
    var w := Ready(100, dir, 0).world;
    RequestIsValid(w, CODE, "", Absent);
    assert Validate(w, LoginRequest()) == Validate(w, Request(CODE, "", Absent)) by {
      hide Scopes.Resolution;
    }
    hide Validate, Scopes.Resolution;
  }

  lemma ConsentDelivers(cfg: Config, s: State)
    requires s.world == Ready(100, s.world.dir, 0).world.(signed := {LoginForm()}) && s.deliveries == []
    requires Scopes.Resolution(s.world.dir, ["openid"]).Some?
    ensures |Apply(cfg, s, Consent(LoginForm(), Some("s"), true)).deliveries| == 1
  {
    hide Validate, Scopes.Resolution;
  }

  // With nobody signing in and every request demanding it, no state is released
  // and any token ignores the demand.
  lemma {:induction false} NothingReleased(cfg: Config, s: State, steps: seq<Step>)
    requires Run(cfg, s, steps)
    requires forall i :: 0 <= i < |steps| ==> !steps[i].SignIn? && (steps[i].Get? ==> Forces(steps[i].params))
    ensures PromptHonoured(cfg, s, steps, {}) ==> After(cfg, s, steps).deliveries == s.deliveries
    decreases |steps|
  {
    hide ReplyTo, Move, Validate, Sign;
    if steps != [] {
      assert Released(s.world, steps[0], {}) == {};
      NothingReleased(cfg, Apply(cfg, s, steps[0]), steps[1..]);
    }
  }
}
