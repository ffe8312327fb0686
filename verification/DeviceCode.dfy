/** The device authorization grant (sections 3.4 and 3.5 of RFC 8628): pollers,
    approvers, expiry and lazy deletes on one table, first as the store and the
    polling handler run alone, then in every interleaving. */
module DeviceCode {
  import opened Strings

  datatype Status = Pending | Approved | Denied

  datatype Row = Row(userCode: string, appId: string, userId: string, status: Status, expiresAt: int)

  // Rows by the hash of their device code. User codes are unique in the table.
  type Table = map<string, Row>

  ghost predicate UserCodesUnique(rows: Table) {
    forall g, h :: g in rows && h in rows && rows[g].userCode == rows[h].userCode ==> g == h
  }

  // ---- The store's atomic statements ----

  predicate Decidable(rows: Table, userCode: string) {
    exists h :: h in rows && rows[h].userCode == userCode && rows[h].status.Pending?
  }

  function DecideRows(rows: Table, userCode: string, status: Status, userId: string): (r: Table)
    ensures r.Keys == rows.Keys
  {
    map h | h in rows ::
      if rows[h].userCode == userCode && rows[h].status.Pending? then rows[h].(status := status, userId := userId)
      else rows[h]
  }

  predicate Consumable(rows: Table, hash: string, appId: string, now: int) {
    hash in rows && rows[hash].appId == appId && rows[hash].status.Approved? && rows[hash].expiresAt > now
  }

  // The signed state of the approval page, and the browser's live session.
  datatype ApprovalState = ApprovalState(kind: string, userCode: string, sid: string)

  datatype Session = Session(id: string, userId: string)

  datatype Reply = TokenFor(userId: string) | Refused(error: string)

  // What an uninterrupted poll answers, by the state of the row alone.
  function Answer(rows: Table, hash: string, appId: string, now: int, enabled: set<string>, scopesResolve: bool): Reply
  {
    if hash !in rows || rows[hash].appId != appId then Refused("bad_verification_code")
    else if rows[hash].expiresAt <= now then Refused("expired_token")
    else match rows[hash].status
      case Denied => Refused("authorization_declined")
      case Pending => Refused("authorization_pending")
      case Approved =>
        if rows[hash].userId in enabled && scopesResolve then TokenFor(rows[hash].userId) else Refused("invalid_grant")
  }

  // A poll by the right client spends every row but a pending one.
  function Remaining(rows: Table, hash: string, appId: string, now: int): Table {
    if hash in rows && rows[hash].appId == appId && (rows[hash].expiresAt <= now || !rows[hash].status.Pending?)
    then rows - {hash} else rows
  }

  class DeviceStore {
    var rows: Table

    constructor ()
      ensures rows == map[]
    {
      rows := map[];
    }

    // Refused when the device code or the user code is taken.
    method Insert(hash: string, row: Row) returns (ok: bool)
      requires UserCodesUnique(rows)
      modifies this
      ensures UserCodesUnique(rows)
      ensures ok <==> hash !in old(rows) && forall h :: h in old(rows) ==> old(rows)[h].userCode != row.userCode
      ensures rows == if ok then old(rows)[hash := row] else old(rows)
    {
      ok := hash !in rows && forall h :: h in rows ==> rows[h].userCode != row.userCode;
      if ok {
        rows := rows[hash := row];
      }
    }

    // Only a pending row takes a decision.
    method SetDecision(userCode: string, status: Status, userId: string) returns (ok: bool)
      modifies this
      ensures ok <==> Decidable(old(rows), userCode)
      ensures rows == DecideRows(old(rows), userCode, status, userId)
      ensures !ok ==> rows == old(rows)
    {
      ok := Decidable(rows, userCode);
      rows := DecideRows(rows, userCode, status, userId);
    }

    // One statement deletes the row and returns it, or does neither.
    method ConsumeApproved(hash: string, appId: string, now: int) returns (r: Option<Row>)
      modifies this
      ensures r == if Consumable(old(rows), hash, appId, now) then Some(old(rows)[hash]) else None
      ensures rows == if r.Some? then old(rows) - {hash} else old(rows)
    {
      if hash in rows && rows[hash].appId == appId && rows[hash].status.Approved? && rows[hash].expiresAt > now {
        r := Some(rows[hash]);
        rows := rows - {hash};
      } else {
        r := None;
      }
    }

    method Delete(hash: string)
      modifies this
      ensures rows == old(rows) - {hash}
    {
      rows := rows - {hash};
    }

    // Re-validates a code the approval page names: the row is read by its user
    // code and must be pending and unexpired.
    method LoadPending(userCode: string, now: int) returns (row: Option<Row>)
      requires UserCodesUnique(rows)
      ensures row.Some? <==> exists h :: h in rows && rows[h].userCode == userCode && rows[h].status.Pending?
                                         && now < rows[h].expiresAt
      ensures row.Some? ==> exists h :: h in rows && rows[h] == row.value && row.value.userCode == userCode
    {
      if exists h :: h in rows && rows[h].userCode == userCode {
        var h :| h in rows && rows[h].userCode == userCode;
        if rows[h].expiresAt <= now || !rows[h].status.Pending? {
          return None;
        }
        row := Some(rows[h]);
      } else {
        row := None;
      }
    }

    // The decide step of the approval page: the signed session id must be the
    // live session's, and the decision is recorded for that session's user.
    method DecideStep(signed: Option<ApprovalState>, session: Option<Session>, choice: string, now: int)
      returns (decided: bool)
      requires UserCodesUnique(rows)
      modifies this
      ensures decided <==>
                && signed.Some? && signed.value.kind == "device" && signed.value.sid != ""
                && session.Some? && session.value.id == signed.value.sid && (choice == "approve" || choice == "deny")
                && exists h :: h in old(rows) && old(rows)[h].userCode == signed.value.userCode
                               && old(rows)[h].status.Pending? && now < old(rows)[h].expiresAt
      ensures rows == if !decided then old(rows)
                      else if choice == "approve" then
                        DecideRows(old(rows), signed.value.userCode, Approved, session.value.userId)
                      else DecideRows(old(rows), signed.value.userCode, Denied, "")
    {
      if signed.None? || signed.value.kind != "device" || signed.value.sid == "" {
        return false;
      }
      if session.None? || session.value.id != signed.value.sid {
        return false;
      }
      var row := LoadPending(signed.value.userCode, now);
      if row.None? {
        return false;
      }
      if choice == "approve" {
        decided := SetDecision(signed.value.userCode, Approved, session.value.userId);
      } else if choice == "deny" {
        decided := SetDecision(signed.value.userCode, Denied, "");
      } else {
        decided := false;
      }
    }

    // The polling handler, after the client has authenticated as appId.
    method Grant(hash: string, appId: string, now: int, enabled: set<string>, scopesResolve: bool)
      returns (reply: Reply)
      modifies this
      ensures reply == Answer(old(rows), hash, appId, now, enabled, scopesResolve)
      ensures rows == Remaining(old(rows), hash, appId, now)
    {
      if hash !in rows {
        return Refused("bad_verification_code");
      }
      var row := rows[hash];
      if row.appId != appId {
        return Refused("bad_verification_code");
      }
      if row.expiresAt <= now {
        Delete(hash);
        return Refused("expired_token");
      }
      if row.status.Denied? {
        Delete(hash);
        return Refused("authorization_declined");
      }
      if row.status.Pending? {
        return Refused("authorization_pending");
      }
      var consumed := ConsumeApproved(hash, appId, now);
      if consumed.None? {
        return Refused("bad_verification_code");
      }
      if consumed.value.userId !in enabled {
        return Refused("invalid_grant");
      }
      if !scopesResolve {
        return Refused("invalid_grant");
      }
      reply := TokenFor(consumed.value.userId);
    }
  }

  // ---- Every interleaving ----

  datatype Issue = Issue(appId: string, expiresAt: int)

  datatype Decision = Decision(hash: string, approved: bool, userId: string)

  datatype Response = Response(hash: string, appId: string, userId: string, readAt: int)

  // How far one poll has come.
  datatype Poll =
    | HasRead(hash: string, appId: string, row: Row)
    | Deleting(hash: string)
    | Consuming(hash: string, appId: string, now: int)
    | Consumed(hash: string, appId: string, row: Row, now: int)

  datatype State = State(clock: int, rows: Table, enabled: set<string>, polls: map<nat, Poll>,
                         issued: map<string, Issue>, decisions: seq<Decision>, responses: seq<Response>)

  datatype Step =
    | Tick(clock: int)
    | Initiate(hash: string, userCode: string, appId: string, lifetime: int)
    | Decide(userCode: string, approve: bool, userId: string)
    | PollRead(poll: nat, hash: string, appId: string)
    | PollCheck(poll: nat)
    | PollDelete(poll: nat)
    | PollConsume(poll: nat)
    | PollMint(poll: nat, scopesResolve: bool)
    | SetEnabled(enabled: set<string>)
    | ForgetUser(userId: string)
    | DropRows(hashes: set<string>)

  // A device code is drawn afresh; a user code is one the table does not hold;
  // no user has an empty id.
  ghost predicate Enabled(s: State, step: Step) {
    match step
    case Initiate(hash, userCode, _, _) =>
      hash !in s.issued && forall h :: h in s.rows ==> s.rows[h].userCode != userCode
    case Decide(_, approve, userId) => if approve then userId != "" else userId == ""
    case PollRead(k, hash, appId) => k !in s.polls && hash in s.rows && s.rows[hash].appId == appId
    case PollCheck(k) => k in s.polls && s.polls[k].HasRead?
    case PollDelete(k) => k in s.polls && s.polls[k].Deleting?
    case PollConsume(k) => k in s.polls && s.polls[k].Consuming?
    case PollMint(k, _) => k in s.polls && s.polls[k].Consumed?
    case SetEnabled(enabled) => "" !in enabled
    case _ => true
  }

  ghost function DecidedHash(rows: Table, userCode: string): string
    requires Decidable(rows, userCode)
  {
    var h :| h in rows && rows[h].userCode == userCode && rows[h].status.Pending?; h
  }

  ghost function Apply(s: State, step: Step): State
    requires Enabled(s, step)
  {
    match step
    case Tick(clock) => s.(clock := clock)
    case Initiate(hash, userCode, appId, lifetime) =>
      s.(rows := s.rows[hash := Row(userCode, appId, "", Pending, s.clock + lifetime)],
         issued := s.issued[hash := Issue(appId, s.clock + lifetime)])
    case Decide(userCode, approve, userId) =>
      s.(rows := DecideRows(s.rows, userCode, if approve then Approved else Denied, userId),
         decisions := if Decidable(s.rows, userCode)
                      then s.decisions + [Decision(DecidedHash(s.rows, userCode), approve, userId)] else s.decisions)
    case PollRead(k, hash, appId) => s.(polls := s.polls[k := HasRead(hash, appId, s.rows[hash])])
    case PollCheck(k) =>
      var p := s.polls[k];
      if p.row.expiresAt <= s.clock || p.row.status.Denied? then s.(polls := s.polls[k := Deleting(p.hash)])
      else if p.row.status.Pending? then s.(polls := s.polls - {k})
      else s.(polls := s.polls[k := Consuming(p.hash, p.appId, s.clock)])
    case PollDelete(k) => s.(rows := s.rows - {s.polls[k].hash}, polls := s.polls - {k})
    case PollConsume(k) =>
      var p := s.polls[k];
      if Consumable(s.rows, p.hash, p.appId, p.now) then
        s.(rows := s.rows - {p.hash}, polls := s.polls[k := Consumed(p.hash, p.appId, s.rows[p.hash], p.now)])
      else s.(polls := s.polls - {k})
    case PollMint(k, scopesResolve) =>
      var p := s.polls[k];
      s.(polls := s.polls - {k},
         responses := if p.row.userId in s.enabled && scopesResolve
                      then s.responses + [Response(p.hash, p.appId, p.row.userId, p.now)] else s.responses)
    case SetEnabled(enabled) => s.(enabled := enabled)
    case ForgetUser(userId) =>
      s.(enabled := s.enabled - {userId},
         rows := map h | h in s.rows :: if s.rows[h].userId == userId then s.rows[h].(userId := "") else s.rows[h])
    case DropRows(hashes) => s.(rows := s.rows - hashes)
  }

  ghost predicate Run(s: State, steps: seq<Step>)
    decreases |steps|
  {
    steps == [] || (Enabled(s, steps[0]) && Run(Apply(s, steps[0]), steps[1..]))
  }

  ghost function After(s: State, steps: seq<Step>): State
    requires Run(s, steps)
    decreases |steps|
  {
    if steps == [] then s else After(Apply(s, steps[0]), steps[1..])
  }

  function Initial(clock: int, enabled: set<string>): State {
    State(clock, map[], enabled, map[], map[], [], [])
  }

  // ---- What every step keeps ----

  // A row agrees with what was issued and with the decision taken on it; a user
  // deleted since then leaves an empty id.
  ghost predicate Faithful(s: State, hash: string, row: Row) {
    && hash in s.issued && row.appId == s.issued[hash].appId && row.expiresAt == s.issued[hash].expiresAt
    && (row.status.Approved? ==> ApprovedBySomebody(s.decisions, hash))
    && (row.status.Approved? && row.userId != "" ==> Decision(hash, true, row.userId) in s.decisions)
    && (row.status.Denied? ==> Decision(hash, false, "") in s.decisions)
  }

  ghost predicate ApprovedBySomebody(decisions: seq<Decision>, hash: string) {
    exists u :: Decision(hash, true, u) in decisions
  }

  ghost predicate RowsKept(s: State) {
    && UserCodesUnique(s.rows)
    && (forall h :: h in s.rows ==> Faithful(s, h, s.rows[h]))
    && (forall h, d :: h in s.rows && s.rows[h].status.Pending? && d in s.decisions ==> d.hash != h)
  }

  ghost predicate DecisionsKept(s: State) {
    && (forall d :: d in s.decisions ==> d.hash in s.issued)
    && (forall i, j :: 0 <= i < j < |s.decisions| ==> s.decisions[i].hash != s.decisions[j].hash)
  }

  ghost predicate IsConsumed(s: State, k: nat) {
    k in s.polls && s.polls[k].Consumed?
  }

  ghost predicate PollsKept(s: State) {
    && (forall k :: IsConsumed(s, k) ==>
          var p := s.polls[k];
          && Faithful(s, p.hash, p.row) && p.row.status.Approved?
          && p.row.appId == p.appId && p.now < p.row.expiresAt && p.hash !in s.rows)
    && (forall k, l :: IsConsumed(s, k) && IsConsumed(s, l) && s.polls[k].hash == s.polls[l].hash ==> k == l)
    && (forall k, i :: IsConsumed(s, k) && 0 <= i < |s.responses| ==> s.polls[k].hash != s.responses[i].hash)
  }

  // A token response is for the app that initiated the code and the user who
  // approved it, and was read before the code expired.
  ghost predicate Backed(s: State, r: Response) {
    && r.hash in s.issued && s.issued[r.hash].appId == r.appId && r.readAt < s.issued[r.hash].expiresAt
    && Decision(r.hash, true, r.userId) in s.decisions
  }

  ghost predicate ResponsesKept(s: State) {
    && "" !in s.enabled
    && (forall i :: 0 <= i < |s.responses| ==> Backed(s, s.responses[i]) && s.responses[i].hash !in s.rows)
    && (forall i, j :: 0 <= i < j < |s.responses| ==> s.responses[i].hash != s.responses[j].hash)
  }

  ghost predicate Inv(s: State) {
    RowsKept(s) && DecisionsKept(s) && PollsKept(s) && ResponsesKept(s)
  }

  // The facts about a code only grow.
  ghost predicate Extends(t: State, s: State) {
    && (forall h :: h in s.issued ==> h in t.issued && t.issued[h] == s.issued[h])
    && (forall d :: d in s.decisions ==> d in t.decisions)
  }

  ghost predicate SameConsumed(t: State, s: State) {
    forall k :: IsConsumed(t, k) ==> IsConsumed(s, k) && t.polls[k] == s.polls[k]
  }

  lemma PollsStayKept(s: State, t: State)
    requires PollsKept(s) && Extends(t, s) && SameConsumed(t, s) && t.responses == s.responses
    requires forall k :: IsConsumed(s, k) ==> s.polls[k].hash !in t.rows
    ensures PollsKept(t)
  {}

  lemma ResponsesStayKept(s: State, t: State)
    requires ResponsesKept(s) && Extends(t, s) && "" !in t.enabled && t.responses == s.responses
    requires forall i :: 0 <= i < |s.responses| ==> s.responses[i].hash !in t.rows
    ensures ResponsesKept(t)
  {
    assert forall i :: 0 <= i < |s.responses| ==> Backed(s, s.responses[i]);
  }

  lemma DecideKeepsInv(s: State, userCode: string, approve: bool, userId: string)
    requires Inv(s) && Enabled(s, Decide(userCode, approve, userId))
    ensures Inv(Apply(s, Decide(userCode, approve, userId)))
  {
    var t := Apply(s, Decide(userCode, approve, userId));
    PollsStayKept(s, t);
    ResponsesStayKept(s, t);
    if Decidable(s.rows, userCode) {
      DecidedRows(s, t, userCode, approve, userId);
      DecidedOnce(s, t, DecidedHash(s.rows, userCode), Decision(DecidedHash(s.rows, userCode), approve, userId));
    } else {
      assert t.rows == s.rows;
    }
  }

  lemma DecidedOnce(s: State, t: State, hash: string, d: Decision)
    requires RowsKept(s) && DecisionsKept(s) && hash in s.rows && s.rows[hash].status.Pending? && d.hash == hash
    requires t.issued == s.issued && t.decisions == s.decisions + [d]
    ensures DecisionsKept(t)
  {
    assert Faithful(s, hash, s.rows[hash]);
    forall i | 0 <= i < |s.decisions|
      ensures s.decisions[i].hash != hash
    {
      assert s.decisions[i] in s.decisions;
    }
  }

  lemma DecidedRows(s: State, t: State, userCode: string, approve: bool, userId: string)
    requires RowsKept(s) && Decidable(s.rows, userCode) && (!approve ==> userId == "")
    requires t.rows == DecideRows(s.rows, userCode, if approve then Approved else Denied, userId)
    requires t.issued == s.issued
    requires t.decisions == s.decisions + [Decision(DecidedHash(s.rows, userCode), approve, userId)]
    ensures RowsKept(t)
  {
    var hash := DecidedHash(s.rows, userCode);
    forall h | h in t.rows
      ensures Faithful(t, h, t.rows[h]) && t.rows[h].userCode == s.rows[h].userCode
      ensures h != hash ==> t.rows[h] == s.rows[h]
    {
      assert Faithful(s, h, s.rows[h]);
    }
    assert !t.rows[hash].status.Pending?;
  }

  lemma ConsumeKeepsInv(s: State, k: nat)
    requires Inv(s) && Enabled(s, PollConsume(k))
    ensures Inv(Apply(s, PollConsume(k)))
  {
    hide ApprovedBySomebody;
    var t := Apply(s, PollConsume(k));
    var p := s.polls[k];
    assert forall l :: IsConsumed(t, l) && l != k ==> IsConsumed(s, l) && t.polls[l] == s.polls[l];
    if Consumable(s.rows, p.hash, p.appId, p.now) {
      assert Faithful(s, p.hash, s.rows[p.hash]);
    }
  }

  lemma MintKeepsInv(s: State, k: nat, scopesResolve: bool)
    requires Inv(s) && Enabled(s, PollMint(k, scopesResolve))
    ensures Inv(Apply(s, PollMint(k, scopesResolve)))
  {
    hide ApprovedBySomebody;
    var t := Apply(s, PollMint(k, scopesResolve));
    assert IsConsumed(s, k);
    assert forall l :: IsConsumed(t, l) ==> IsConsumed(s, l) && t.polls[l] == s.polls[l];
  }

  lemma InitiateKeepsInv(s: State, step: Step)
    requires Inv(s) && Enabled(s, step) && step.Initiate?
    ensures Inv(Apply(s, step))
  {
    var t := Apply(s, step);
    assert forall k :: IsConsumed(s, k) ==> s.polls[k].hash in s.issued;
    assert forall i :: 0 <= i < |s.responses| ==> Backed(s, s.responses[i]);
    PollsStayKept(s, t);
    ResponsesStayKept(s, t);
    assert forall h :: h in s.rows ==> Faithful(s, h, s.rows[h]) && Faithful(t, h, s.rows[h]);
  }

  // Steps that only drop rows, clear user ids, move the clock or move polls
  // short of consuming.
  lemma QuietStepKeepsInv(s: State, t: State)
    requires Inv(s) && t.issued == s.issued && t.decisions == s.decisions && t.responses == s.responses
    requires "" !in t.enabled && SameConsumed(t, s)
    requires forall h :: h in t.rows ==>
               h in s.rows && (t.rows[h] == s.rows[h] || t.rows[h] == s.rows[h].(userId := ""))
    ensures Inv(t)
  {
    PollsStayKept(s, t);
    ResponsesStayKept(s, t);
    forall h | h in t.rows
      ensures Faithful(t, h, t.rows[h]) && t.rows[h].userCode == s.rows[h].userCode
    {
      assert Faithful(s, h, s.rows[h]);
    }
  }

  lemma StepKeepsInv(s: State, step: Step)
    requires Inv(s) && Enabled(s, step)
    ensures Inv(Apply(s, step))
  {
    match step
    case Decide(userCode, approve, userId) => DecideKeepsInv(s, userCode, approve, userId);
    case PollConsume(k) => ConsumeKeepsInv(s, k);
    case PollMint(k, scopesResolve) => MintKeepsInv(s, k, scopesResolve);
    case Initiate(_, _, _, _) => InitiateKeepsInv(s, step);
    case _ => QuietStepKeepsInv(s, Apply(s, step));
  }

  lemma {:induction false} RunKeepsInv(s: State, steps: seq<Step>)
    requires Inv(s) && Run(s, steps)
    ensures Inv(After(s, steps))
    decreases |steps|
  {
    if steps != [] {
      StepKeepsInv(s, steps[0]);
      RunKeepsInv(Apply(s, steps[0]), steps[1..]);
    }
  }

  // In every interleaving a device code yields at most one token response, and
  // that response is for the initiating app and the approving user, read before
  // expiry; a denied code yields none; and a code takes at most one decision.
  lemma OneTokenPerApproval(clock: int, enabled: set<string>, steps: seq<Step>)
    requires "" !in enabled && Run(Initial(clock, enabled), steps)
    ensures var s := After(Initial(clock, enabled), steps);
            && (forall i, j :: 0 <= i < j < |s.responses| ==> s.responses[i].hash != s.responses[j].hash)
            && (forall i :: 0 <= i < |s.responses| ==> Backed(s, s.responses[i]))
            && (forall i, d :: 0 <= i < |s.responses| && d in s.decisions && d.hash == s.responses[i].hash ==>
                  d == Decision(s.responses[i].hash, true, s.responses[i].userId))
            && (forall i, j :: 0 <= i < j < |s.decisions| ==> s.decisions[i].hash != s.decisions[j].hash)
  {
    RunKeepsInv(Initial(clock, enabled), steps);
    var s := After(Initial(clock, enabled), steps);
    forall i, d | 0 <= i < |s.responses| && d in s.decisions && d.hash == s.responses[i].hash
      ensures d == Decision(s.responses[i].hash, true, s.responses[i].userId)
    {
      assert Backed(s, s.responses[i]);
      var a :| 0 <= a < |s.decisions| && s.decisions[a] == d;
      var b :| 0 <= b < |s.decisions| && s.decisions[b] == Decision(s.responses[i].hash, true, s.responses[i].userId);
    }
  }

  // What was decided and what was answered is never taken back.
  lemma {:induction false} HistoryGrows(s: State, steps: seq<Step>)
    requires Run(s, steps)
    ensures s.decisions <= After(s, steps).decisions && s.responses <= After(s, steps).responses
    decreases |steps|
  {
    if steps != [] {
      HistoryGrows(Apply(s, steps[0]), steps[1..]);
    }
  }

  // ---- What a poll is told ----

  ghost predicate Undecided(s: State, hash: string) {
    forall d :: d in s.decisions ==> d.hash != hash
  }

  ghost predicate Declined(s: State, hash: string) {
    Decision(hash, false, "") in s.decisions
  }

  // A row's status is what the history says was decided on its code.
  lemma StatusIsDecision(s: State, hash: string)
    requires Inv(s) && hash in s.rows
    ensures s.rows[hash].status.Pending? <==> Undecided(s, hash)
    ensures s.rows[hash].status.Denied? <==> Declined(s, hash)
    ensures forall u :: Decision(hash, true, u) in s.decisions ==>
              s.rows[hash].status.Approved? && (s.rows[hash].userId == u || s.rows[hash].userId == "")
  {
    assert Faithful(s, hash, s.rows[hash]);
    forall d, e | d in s.decisions && e in s.decisions && d.hash == e.hash == hash
      ensures d == e
    {
      var a :| 0 <= a < |s.decisions| && s.decisions[a] == d;
      var b :| 0 <= b < |s.decisions| && s.decisions[b] == e;
    }
  }

  // In every reachable state a poll is told what was issued and decided: a code
  // the table does not hold, or another client's, is bad; past the issued
  // expiry it has expired; before it the poll is told to go on exactly while
  // nothing is decided, that the user declined exactly after a denial, and gets
  // a token exactly for the approving user, if that user can still sign in.  A
  // code is spent by every answer but the first two.
  lemma PollIsTold(clock: int, enabled: set<string>, steps: seq<Step>, hash: string, appId: string, resolves: bool)
    requires "" !in enabled && Run(Initial(clock, enabled), steps)
    ensures var s := After(Initial(clock, enabled), steps);
            var told := Answer(s.rows, hash, appId, s.clock, s.enabled, resolves);
            var left := Remaining(s.rows, hash, appId, s.clock);
            && (hash in s.rows ==> hash in s.issued)
            && (told == Refused("bad_verification_code") <==> hash !in s.rows || s.issued[hash].appId != appId)
            && (told == Refused("bad_verification_code") ==> left == s.rows)
            && (hash in s.rows && s.issued[hash].appId == appId ==>
                  && (told == Refused("expired_token") <==> s.issued[hash].expiresAt <= s.clock)
                  && (s.clock < s.issued[hash].expiresAt ==>
                        && (told == Refused("authorization_pending") <==> Undecided(s, hash))
                        && (told == Refused("authorization_declined") <==> Declined(s, hash))
                        && (forall u :: told == TokenFor(u) <==>
                              Decision(hash, true, u) in s.decisions && s.rows[hash].userId == u
                              && u in s.enabled && resolves)
                        && (told == Refused("invalid_grant") <==>
                              ApprovedBySomebody(s.decisions, hash)
                              && !(s.rows[hash].userId in s.enabled && resolves)))
                  && left == if s.clock < s.issued[hash].expiresAt && Undecided(s, hash) then s.rows
                             else s.rows - {hash})
  {
    RunKeepsInv(Initial(clock, enabled), steps);
    var s := After(Initial(clock, enabled), steps);
    hide Run, After;
    if hash in s.rows {
      assert Faithful(s, hash, s.rows[hash]);
      StatusIsDecision(s, hash);
      hide Undecided, RowsKept, DecisionsKept, PollsKept;
    }
  }

  // A poll nobody interrupts is the handler run alone: same answer, same table.
  lemma UninterruptedPoll(s: State, k: nat, hash: string, appId: string, scopesResolve: bool)
    returns (steps: seq<Step>)
    requires k !in s.polls && hash in s.rows && s.rows[hash].appId == appId
    ensures Run(s, steps)
    ensures var t := After(s, steps);
            && t.rows == Remaining(s.rows, hash, appId, s.clock)
            && t.polls == s.polls && t.decisions == s.decisions
            && t.responses == s.responses +
                 match Answer(s.rows, hash, appId, s.clock, s.enabled, scopesResolve)
                 case TokenFor(userId) => [Response(hash, appId, userId, s.clock)]
                 case Refused(_) => []
  {
    var s1 := Apply(s, PollRead(k, hash, appId));
    var s2 := Apply(s1, PollCheck(k));
    var row := s.rows[hash];
    var tail: seq<Step>;
    if row.expiresAt <= s.clock || row.status.Denied? {
      tail := Prepend(s2, PollDelete(k), []);
    } else if row.status.Pending? {
      tail := [];
    } else {
      var s3 := Apply(s2, PollConsume(k));
      var last := Prepend(s3, PollMint(k, scopesResolve), []);
      tail := Prepend(s2, PollConsume(k), last);
    }
    var rest := Prepend(s1, PollCheck(k), tail);
    steps := Prepend(s, PollRead(k, hash, appId), rest);
    assert After(s, steps).polls == s.polls;
  }

  lemma Prepend(s: State, step: Step, rest: seq<Step>) returns (steps: seq<Step>)
    requires Enabled(s, step) && Run(Apply(s, step), rest)
    ensures Run(s, steps) && After(s, steps) == After(Apply(s, step), rest)
  {
    steps := [step] + rest;
    assert steps[1..] == rest;
  }

  // Racing pollers: whoever consumes first wins, whatever the others hold.
  lemma FirstConsumerWins(s: State, k: nat)
    requires Inv(s) && IsConsuming(s, k)
    requires Consumable(s.rows, s.polls[k].hash, s.polls[k].appId, s.polls[k].now)
    ensures var t := Apply(s, PollConsume(k));
            && IsConsumed(t, k)
            && forall l :: IsConsuming(t, l) && t.polls[l].hash == s.polls[k].hash ==>
                 !Consumable(t.rows, t.polls[l].hash, t.polls[l].appId, t.polls[l].now)
                 && !IsConsumed(Apply(t, PollConsume(l)), l)
  {}

  ghost predicate IsConsuming(s: State, k: nat) {
    k in s.polls && s.polls[k].Consuming?
  }
}
