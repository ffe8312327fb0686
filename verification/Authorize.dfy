/** The authorize endpoint: a request is validated once, and then travels through
    sign-in and consent pages as a signed state. A state's signature is an
    unforgeable tag: the server accepts exactly the states it has signed. */
module Authorize {
  import opened Strings
  import Scopes

  datatype App = App(confidential: bool, redirectUris: set<string>)

  // The values of response_type in any order; repetitions count.
  type ResponseType = multiset<string>

  const CODE: ResponseType := multiset{"code"}
  const ID_TOKEN: ResponseType := multiset{"id_token"}
  const HYBRID: ResponseType := multiset{"code", "id_token"}

  datatype MaxAgeParam = Absent | Malformed | Seconds(seconds: nat)

  datatype Params = Params(clientId: string, redirectUri: string, scope: seq<string>, state: string, nonce: string,
                           challenge: string, transform: string, responseMode: string, responseType: ResponseType,
                           prompt: string, maxAge: MaxAgeParam, inlineRequest: bool)

  // The state that is signed into forms. Other flows sign theirs under another
  // kind.
  datatype FormState = FormState(kind: string, clientId: string, redirectUri: string, scope: seq<string>, state: string,
                                 nonce: string, challenge: string, transform: string, responseMode: string,
                                 responseType: ResponseType, maxAge: nat, hasMaxAge: bool)

  const KIND := "authorize"

  datatype Session = Session(userId: string, amr: string, createdAt: int, expiresAt: int)

  datatype Channel = Query | Fragment | FormPost

  function ChannelOf(responseMode: string): Channel {
    if responseMode == "form_post" then FormPost
    else if responseMode == "fragment" then Fragment
    else Query
  }

  predicate Advertised(responseMode: string) {
    responseMode == "query" || responseMode == "fragment" || responseMode == "form_post"
  }

  datatype Delivery = Delivery(form: FormState, userId: string, code: bool, idToken: bool, channel: Channel,
                               authTime: int, at: int)

  datatype Reply =
    | ErrorPage
    | ErrorRedirect(error: string, channel: Channel)
    | SignInPage(form: FormState)
    | ConsentPage(form: FormState)
    | Delivered(delivery: Delivery)

  datatype Config = Config(requireConsent: bool)

  datatype World = World(clock: int, apps: map<string, App>, dir: Scopes.Directory, enabled: set<string>,
                         sessions: map<string, Session>, signed: set<FormState>)

  const SESSION_LIFETIME := 8 * 60 * 60

  // ---- Validation, in the order the handler checks ----

  datatype Validation = Valid(form: FormState) | Invalid(reply: Reply)

  function FormOf(p: Params): FormState {
    FormState(KIND, p.clientId, p.redirectUri, p.scope, p.state, p.nonce, p.challenge, p.transform,
              p.responseMode, p.responseType, 0, false)
  }

  function Fail(form: FormState, error: string): Validation {
    Invalid(ErrorRedirect(error, ChannelOf(form.responseMode)))
  }

  function Validate(w: World, p: Params): Validation {
    var form := FormOf(p);
    if p.clientId !in w.apps || p.redirectUri !in w.apps[p.clientId].redirectUris then Invalid(ErrorPage)
    else if p.inlineRequest then Fail(form, "request_not_supported")
    else if form.responseType != CODE && form.responseType != ID_TOKEN && form.responseType != HYBRID then
      Fail(form, "unsupported_response_type")
    else if form.responseType != CODE && form.nonce == "" then Fail(form, "invalid_request")
    else
      var form :=
        if form.responseType != CODE && form.responseMode == "" then form.(responseMode := "fragment") else form;
      if form.responseType != CODE && form.responseMode == "query" then Fail(form, "invalid_request")
      else if "openid" !in form.scope then Fail(form, "invalid_scope")
      else if Scopes.Resolution(w.dir, form.scope).None? then Fail(form, "invalid_scope")
      else if form.responseType != ID_TOKEN && !w.apps[p.clientId].confidential && form.challenge == "" then
        Fail(form, "invalid_request")
      else if p.maxAge.Malformed? then Fail(form, "invalid_request")
      else
        var form := if p.maxAge.Seconds? then form.(maxAge := p.maxAge.seconds, hasMaxAge := true) else form;
        var form := if form.challenge != "" && form.transform == "" then form.(transform := "plain") else form;
        if form.transform != "" && form.transform != "S256" && form.transform != "plain" then
          Fail(form, "invalid_request")
        else Valid(form)
  }

  // What a validated state promises about the client as it was registered then.
  ghost predicate Passed(form: FormState, app: App) {
    && form.kind == KIND
    && form.redirectUri in app.redirectUris
    && (form.responseType == CODE || form.responseType == ID_TOKEN || form.responseType == HYBRID)
    && (form.responseType != CODE ==> form.nonce != "" && form.responseMode != "" && form.responseMode != "query")
    && "openid" in form.scope
    && (form.responseType != ID_TOKEN && !app.confidential ==> form.challenge != "")
    && (form.challenge != "" ==> form.transform != "")
    && (form.transform == "" || form.transform == "S256" || form.transform == "plain")
  }

  lemma ValidationPasses(w: World, p: Params)
    requires Validate(w, p).Valid?
    ensures p.clientId in w.apps && Passed(Validate(w, p).form, w.apps[p.clientId])
    ensures Validate(w, p).form.hasMaxAge <==> p.maxAge.Seconds?
  {
    hide Scopes.Resolution;
  }

  // ---- Sessions and issuance ----

  function CurrentSession(w: World, cookie: Option<string>): Option<Session> {
    if cookie.Some? && cookie.value != "" && cookie.value in w.sessions
       && w.sessions[cookie.value].expiresAt > w.clock && w.sessions[cookie.value].userId in w.enabled
    then Some(w.sessions[cookie.value]) else None
  }

  function Issue(w: World, form: FormState, userId: string, authTime: int): Reply {
    if Scopes.Resolution(w.dir, form.scope).None? then ErrorRedirect("invalid_scope", ChannelOf(form.responseMode))
    else Delivered(Delivery(form, userId, form.responseType == CODE || form.responseType == HYBRID,
                            form.responseType == ID_TOKEN || form.responseType == HYBRID,
                            ChannelOf(form.responseMode), authTime, w.clock))
  }

  function UsableSession(w: World, form: FormState, cookie: Option<string>): Option<Session> {
    var session := CurrentSession(w, cookie);
    if session.Some? && form.hasMaxAge && w.clock - session.value.createdAt > form.maxAge then None else session
  }

  function GetReply(cfg: Config, w: World, p: Params, cookie: Option<string>): Reply {
    match Validate(w, p)
    case Invalid(reply) => reply
    case Valid(form) =>
      var session := UsableSession(w, form, cookie);
      if p.prompt == "none" && session.None? then ErrorRedirect("login_required", ChannelOf(form.responseMode))
      else if session.None? || p.prompt == "login" || p.prompt == "select_account" then SignInPage(form)
      else if cfg.requireConsent && p.prompt != "none" then ConsentPage(form)
      else Issue(w, form, session.value.userId, session.value.createdAt)
  }

  // The user is whom the picker or the password form identified, if anyone.
  function SignInReply(cfg: Config, w: World, form: FormState, user: Option<string>, inserted: bool): Reply {
    if form !in w.signed || form.kind != KIND then ErrorPage
    else if form.clientId !in w.apps then ErrorPage
    else if user.None? || user.value !in w.enabled then SignInPage(form)
    else if cfg.requireConsent then ConsentPage(form)
    else Issue(w, form, user.value, if inserted then w.clock else 0)
  }

  predicate SignsIn(w: World, form: FormState, user: Option<string>) {
    form in w.signed && form.kind == KIND && form.clientId in w.apps && user.Some? && user.value in w.enabled
  }

  function ConsentReply(w: World, form: FormState, cookie: Option<string>, approve: bool): Reply {
    var session := CurrentSession(w, cookie);
    if form !in w.signed || form.kind != KIND then ErrorPage
    else if form.clientId !in w.apps || session.None? then ErrorPage
    else if !approve then ErrorRedirect("access_denied", ChannelOf(form.responseMode))
    else Issue(w, form, session.value.userId, session.value.createdAt)
  }

  // A page carries its state out signed.
  function Sign(signed: set<FormState>, reply: Reply): set<FormState> {
    match reply
    case SignInPage(form) => signed + {form}
    case ConsentPage(form) => signed + {form}
    case _ => signed
  }

  // ---- The handlers ----

  class Identity {
    const cfg: Config
    var clock: int
    var apps: map<string, App>
    var dir: Scopes.Directory
    var enabled: set<string>
    var sessions: map<string, Session>
    var signed: set<FormState>

    constructor (cfg: Config, clock: int, dir: Scopes.Directory)
      ensures this.cfg == cfg && Abs() == World(clock, map[], dir, {}, map[], {})
    {
      this.cfg := cfg;
      this.clock := clock;
      this.dir := dir;
      apps, enabled, sessions, signed := map[], {}, map[], {};
    }

    ghost function Abs(): World
      reads this
    {
      World(clock, apps, dir, enabled, sessions, signed)
    }

    method FindSession(cookie: Option<string>) returns (session: Option<Session>)
      ensures session == CurrentSession(Abs(), cookie)
    {
      if cookie.None? || cookie.value == "" || cookie.value !in sessions {
        return None;
      }
      var row := sessions[cookie.value];
      if row.expiresAt <= clock || row.userId !in enabled {
        return None;
      }
      session := Some(row);
    }

    method IssueAndDeliver(form: FormState, userId: string, authTime: int) returns (reply: Reply)
      ensures reply == Issue(Abs(), form, userId, authTime)
    {
      var resolved := Scopes.ResolveDelegatedScopes(dir, form.scope);
      if resolved.None? {
        return ErrorRedirect("invalid_scope", ChannelOf(form.responseMode));
      }
      var code, idToken := false, false;
      if form.responseType == CODE || form.responseType == HYBRID {
        code := true;
      }
      if form.responseType == ID_TOKEN || form.responseType == HYBRID {
        idToken := true;
      }
      reply := Delivered(Delivery(form, userId, code, idToken, ChannelOf(form.responseMode), authTime, clock));
    }

    // The checks before any session is looked at. The state is filled in as they
    // go.
    method CheckRequest(p: Params) returns (v: Validation)
      ensures v == Validate(Abs(), p)
    {
      var st := FormOf(p);
      if st.clientId !in apps {
        return Invalid(ErrorPage);
      }
      var app := apps[st.clientId];
      if st.redirectUri !in app.redirectUris {
        return Invalid(ErrorPage);
      }
      if p.inlineRequest {
        return Fail(st, "request_not_supported");
      }
      if st.responseType != CODE && st.responseType != ID_TOKEN && st.responseType != HYBRID {
        return Fail(st, "unsupported_response_type");
      }
      if st.responseType != CODE {
        if st.nonce == "" {
          return Fail(st, "invalid_request");
        }
        if st.responseMode == "" {
          st := st.(responseMode := "fragment");
        }
        if st.responseMode == "query" {
          return Fail(st, "invalid_request");
        }
      }
      if "openid" !in st.scope {
        return Fail(st, "invalid_scope");
      }
      var resolved := Scopes.ResolveDelegatedScopes(dir, st.scope);
      if resolved.None? {
        return Fail(st, "invalid_scope");
      }
      var issuesCode := st.responseType == CODE || st.responseType == HYBRID;
      if issuesCode && !app.confidential && st.challenge == "" {
        return Fail(st, "invalid_request");
      }
      if p.maxAge.Malformed? {
        return Fail(st, "invalid_request");
      }
      if p.maxAge.Seconds? {
        st := st.(maxAge := p.maxAge.seconds, hasMaxAge := true);
      }
      if st.challenge != "" && st.transform == "" {
        st := st.(transform := "plain");
      }
      if st.transform != "" && st.transform != "S256" && st.transform != "plain" {
        return Fail(st, "invalid_request");
      }
      v := Valid(st);
    }

    method HandleAuthorize(p: Params, cookie: Option<string>) returns (reply: Reply)
      modifies this`signed
      ensures reply == GetReply(cfg, old(Abs()), p, cookie)
      ensures signed == Sign(old(signed), reply)
    {
      var v := CheckRequest(p);
      if v.Invalid? {
        return v.reply;
      }
      var st := v.form;
      var session := FindSession(cookie);
      if st.hasMaxAge && session.Some? && clock - session.value.createdAt > st.maxAge {
        session := None;
      }
      var user := if session.Some? then Some(session.value.userId) else None;
      if p.prompt == "none" {
        if user.None? {
          return ErrorRedirect("login_required", ChannelOf(st.responseMode));
        }
      } else if p.prompt == "login" || p.prompt == "select_account" {
        user := None;
      }
      if user.Some? {
        if cfg.requireConsent && p.prompt != "none" {
          signed := signed + {st};
          return ConsentPage(st);
        }
        reply := IssueAndDeliver(st, user.value, session.value.createdAt);
        return;
      }
      signed := signed + {st};
      reply := SignInPage(st);
    }

    // The insert of the new session may fail; the sign-in goes on without it.
    method HandleSignInSubmit(form: FormState, user: Option<string>, sid: string, inserted: bool) returns (reply: Reply)
      requires sid !in sessions
      modifies this`signed, this`sessions
      ensures reply == SignInReply(cfg, old(Abs()), form, user, inserted)
      ensures signed == Sign(old(signed), reply)
      ensures sessions == if SignsIn(old(Abs()), form, user) && inserted
                          then old(sessions)[sid := Session(user.value, "pwd", clock, clock + SESSION_LIFETIME)]
                          else old(sessions)
    {
      if form !in signed || form.kind != KIND {
        return ErrorPage;
      }
      if form.clientId !in apps {
        return ErrorPage;
      }
      if user.None? || user.value !in enabled {
        signed := signed + {form};
        return SignInPage(form);
      }
      var authTime := 0;
      if inserted {
        sessions := sessions[sid := Session(user.value, "pwd", clock, clock + SESSION_LIFETIME)];
        authTime := clock;
      }
      if cfg.requireConsent {
        signed := signed + {form};
        return ConsentPage(form);
      }
      reply := IssueAndDeliver(form, user.value, authTime);
    }

    method HandleConsentDecision(form: FormState, cookie: Option<string>, approve: bool) returns (reply: Reply)
      ensures reply == ConsentReply(Abs(), form, cookie, approve)
    {
      if form !in signed || form.kind != KIND {
        return ErrorPage;
      }
      if form.clientId !in apps {
        return ErrorPage;
      }
      var session := FindSession(cookie);
      if session.None? {
        return ErrorPage;
      }
      if !approve {
        return ErrorRedirect("access_denied", ChannelOf(form.responseMode));
      }
      reply := IssueAndDeliver(form, session.value.userId, session.value.createdAt);
    }
  }
}
