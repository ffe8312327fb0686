/** What a second presentation of an authorization code comes to, and runs that
    reach the cases the laws of RefreshLaws single out. */
module RefreshOutcomes {
  import opened RefreshFamily
  import opened RefreshRuns
  import opened RefreshLaws

  // ---- A redemption nobody interrupts ----

  // What the step that follows the read is, given what the read found.
  function Follow(s: Sys, id: nat, next: string, expires: int): seq<Step> {
    if id !in s.pending then []
    else if s.pending[id].Rotating? then [Rotate(id, next, expires)]
    else [RevokeFamily(id)]
  }

  lemma FollowRuns(s: Sys, id: nat, next: string, expires: int)
    requires Linked(s.rows)
    ensures Run(s, Follow(s, id, next, expires))
            == if id !in s.pending then s
               else if s.pending[id].Rotating? then After(s, Rotate(id, next, expires)) else After(s, RevokeFamily(id))
  {
    hide After, Linked;
    var follow := Follow(s, id, next, expires);
    if follow != [] {
      assert follow[..|follow| - 1] == [];
      assert Run(s, []) == s;
    }
  }

  lemma ReadWaits(s: Sys, id: nat, hash: string, app: string, requested: seq<string>, now: int)
    requires Linked(s.rows) && id !in s.pending
    ensures var read := After(s, ReadToken(id, hash, app, requested, now));
            && read.rows == s.rows && read.codes == s.codes && read.log == s.log
            && read.pending == var at := Find(s.rows, hash);
                               if at.None? then s.pending
                               else match Check(s.rows[at.value], app, requested, now)
                                    case None => s.pending[id := Rotating(s.rows[at.value], app, requested, now)]
                                    case Some(answer) =>
                                      if answer.Reused? then s.pending[id := Reusing(hash)] else s.pending
  {
    hide Linked, Find, Check;
  }

  lemma RevocationAnswers(s: Sys, id: nat, hash: string)
    requires Linked(s.rows) && id in s.pending && s.pending[id] == Reusing(hash)
    ensures var t := After(s, RevokeFamily(id));
            && t.rows == FamilyRevoked(s.rows, hash) && t.codes == s.codes && t.pending == s.pending - {id}
            && t.log == s.log + [ReuseSeen(hash)]
  {
    hide Linked, Related;
  }

  lemma RotationAnswers(
      s: Sys, id: nat, hash: string, app: string, requested: seq<string>, now: int, lifetime: int, next: string)
    requires Linked(s.rows) && next != "" && id in s.pending && Find(s.rows, hash).Some?
    requires var row := s.rows[Find(s.rows, hash).value];
             s.pending[id] == Rotating(row, app, requested, now) && Check(row, app, requested, now).None?
    ensures var t := After(s, Rotate(id, next, now + lifetime));
            var (answer, rows) := Redemption(s.rows, hash, app, requested, now, lifetime, next);
            && t.rows == rows && t.codes == s.codes && t.pending == s.pending - {id}
            && (answer.Broken? || answer.Granted?)
            && t.log == s.log + if answer.Granted? then [GrantedTo(hash, app, answer.out, now)] else []
  {
    var row := s.rows[Find(s.rows, hash).value];
    assert !row.revoked && row.hash == hash;
    hide Linked, Find, FirstOutside, Check, Rotated;
  }

  // The two steps of a redemption, run together, are the service's redemption:
  // same table, and the log gains what was answered.
  lemma UninterruptedRedemption(
      s: Sys, id: nat, hash: string, app: string, requested: seq<string>, now: int, lifetime: int, next: string)
    requires Linked(s.rows) && id !in s.pending && next != ""
    ensures var read := After(s, ReadToken(id, hash, app, requested, now));
            var t := Run(read, Follow(read, id, next, now + lifetime));
            var (answer, rows) := Redemption(s.rows, hash, app, requested, now, lifetime, next);
            && t.rows == rows && t.codes == s.codes && t.pending == s.pending
            && t.log == s.log + match answer
                                case Granted(out) => [GrantedTo(hash, app, out, now)]
                                case Reused => [ReuseSeen(hash)]
                                case _ => []
  {
    hide After, Linked, Later, SameLinks, Find, Check, Run, Follow, FamilyRevoked;
    var read := After(s, ReadToken(id, hash, app, requested, now));
    FollowRuns(read, id, next, now + lifetime);
    ReadWaits(s, id, hash, app, requested, now);
    assert id in read.pending ==> read.pending - {id} == s.pending;
    var at := Find(s.rows, hash);
    if at.Some? {
      var checked := Check(s.rows[at.value], app, requested, now);
      if checked.None? {
        RotationAnswers(read, id, hash, app, requested, now, lifetime, next);
      } else if checked.value.Reused? {
        RevocationAnswers(read, id, hash);
      }
    }
  }

  // ---- What an exchange stores ----

  // The first token of a chain is the code's: for the app and the sign-in the
  // code was issued for, with the scopes of the exchange.
  lemma MintedFromCode(s: Sys, id: nat, hash: string, scopes: seq<string>, expires: int)
    requires Linked(s.rows) && id in s.pending && s.pending[id].Minting? && s.pending[id].code in s.codes
    requires hash != "" && Find(s.rows, hash).None?
    ensures var t, c := After(s, Mint(id, hash, scopes, expires)), s.codes[s.pending[id].code];
            && t.rows == s.rows + [Row(hash, c.app, Grant(c.grant.user, scopes, c.grant.resource, c.grant.amr,
                                                          c.grant.authTime, s.pending[id].code),
                                       expires, "", false)]
            && t.codes == s.codes && t.pending == s.pending - {id} && t.log == s.log
  {
    hide Linked, Later, SameLinks, Find;
  }

  // ---- A code presented again ----

  // A step of the request with this id.
  predicate StepOf(st: Step, id: nat) {
    match st
    case ReadToken(i, _, _, _, _) => i == id
    case Rotate(i, _, _) => i == id
    case RevokeFamily(i) => i == id
    case ReadCode(i, _, _) => i == id
    case Consume(i) => i == id
    case Mint(i, _, _, _) => i == id
    case RevokeCode(i) => i == id
    case GiveUp(i) => i == id
    case _ => false
  }

  lemma WaitsAlone(s: Sys, st: Step, id: nat)
    requires id in s.pending && !StepOf(st, id)
    ensures id in PendingAfter(s, st) && PendingAfter(s, st)[id] == s.pending[id]
  {
    hide RotateOutcome, Check;
  }

  lemma {:induction false} Waits(s: Sys, id: nat, between: seq<Step>)
    requires Linked(s.rows) && id in s.pending && forall i :: 0 <= i < |between| ==> !StepOf(between[i], id)
    ensures id in Run(s, between).pending && Run(s, between).pending[id] == s.pending[id]
  {
    hide Linked, PendingAfter, StepOf;
    if between != [] {
      var init := between[..|between| - 1];
      Waits(s, id, init);
      WaitsAlone(Run(s, init), between[|between| - 1], id);
    }
  }

  // The log says which codes are consumed.
  ghost predicate Logged(s: Sys) {
    forall c :: c in s.codes && s.codes[c].consumed ==> Exchanged(c) in s.log
  }

  lemma LoggedKept(s: Sys, st: Step)
    requires Linked(s.rows) && Logged(s)
    ensures Logged(After(s, st))
  {
    hide RowsAfter, PendingAfter, Linked, RotateOutcome;
    StepGrows(s, st);
    forall c | c in CodesAfter(s, st) && CodesAfter(s, st)[c].consumed
      ensures Exchanged(c) in LogAfter(s, st)
    {
      if c in s.codes && s.codes[c].consumed {
        assert Exchanged(c) in s.log;
      }
    }
  }

  lemma {:induction false} RunLogged(s: Sys, steps: seq<Step>)
    requires Linked(s.rows) && Logged(s)
    ensures Logged(Run(s, steps))
  {
    hide After, Logged, Linked;
    if steps != [] {
      RunLogged(s, steps[..|steps| - 1]);
      LoggedKept(Run(s, steps[..|steps| - 1]), steps[|steps| - 1]);
    }
  }

  lemma CodesStay(s: Sys, st: Step, code: string)
    requires code in s.codes
    ensures code in CodesAfter(s, st) && (s.codes[code].consumed ==> CodesAfter(s, st)[code].consumed)
  {
  }

  lemma {:induction false} CodesStayInRun(s: Sys, steps: seq<Step>, code: string)
    requires Linked(s.rows) && code in s.codes
    ensures code in Run(s, steps).codes
  {
    hide Linked, CodesAfter;
    if steps != [] {
      CodesStayInRun(s, steps[..|steps| - 1], code);
      CodesStay(Run(s, steps[..|steps| - 1]), steps[|steps| - 1], code);
    }
  }

  lemma ConsumedIffLogged(s: Sys, code: string)
    requires Inv(s) && Logged(s) && code in s.codes
    ensures s.codes[code].consumed <==> Exchanged(code) in s.log
  {
    if Exchanged(code) in s.log {
      var i :| 0 <= i < |s.log| && s.log[i] == Exchanged(code);
      assert EventOk(s, s.log[i]);
    }
  }

  // How the request ends: it revokes when it saw the code consumed, and tries to
  // consume it otherwise.
  function Ending(s: Sys, id: nat): Step
    requires id in s.pending
  {
    if s.pending[id].Replaying? then RevokeCode(id) else Consume(id)
  }

  // A presentation of a code that passes its checks, with anything in between
  // its read and its end.  It counts as a replay, and leaves the code's tokens
  // dead, exactly when it was read after the exchange; it loses the race, and
  // changes no token, exactly when the exchange fell in between; and it is the
  // exchange exactly when there was none.
  lemma PresentationEnds(before: seq<Step>, id: nat, code: string, between: seq<Step>)
    requires code in Run(EMPTY, before).codes && id !in Run(EMPTY, before).pending
    requires forall i :: 0 <= i < |between| ==> !StepOf(between[i], id)
    ensures var s := Run(EMPTY, before);
            var u := Run(After(s, ReadCode(id, code, true)), between);
            && id in u.pending
            && var t := After(u, Ending(u, id));
               && |t.log| == |u.log| + 1
               && (t.log[|u.log|] == ReplaySeen(code) <==> Exchanged(code) in s.log)
               && (t.log[|u.log|] == RaceLost(code) <==> Exchanged(code) !in s.log && Exchanged(code) in u.log)
               && (t.log[|u.log|] == Exchanged(code) <==> Exchanged(code) !in u.log)
               && (t.log[|u.log|] == ReplaySeen(code) ==> CodeDead(t.rows, code))
               && (t.log[|u.log|] == RaceLost(code) ==> t.rows == u.rows)
  {
    var s, read := Run(EMPTY, before), ReadCode(id, code, true);
    RunKeepsInv(EMPTY, before);
    RunLogged(EMPTY, before);
    ConsumedIffLogged(s, code);
    StepKeepsInv(s, read);
    LoggedKept(s, read);
    var r := After(s, read);
    assert r.codes == s.codes && r.log == s.log;
    assert r.pending[id] == if s.codes[code].consumed then Replaying(code) else Exchanging(code);
    hide After, Inv, Logged, Run;
    RunKeepsInv(r, between);
    RunLogged(r, between);
    Waits(r, id, between);
    CodesStayInRun(r, between, code);
    LogGrows(r, between);
    var u := Run(r, between);
    ConsumedIffLogged(u, code);
    assert Exchanged(code) in s.log ==> Exchanged(code) in u.log;
    EndOfPresentation(u, id, code);
  }

  lemma EndOfPresentation(u: Sys, id: nat, code: string)
    requires Inv(u) && id in u.pending && code in u.codes
    requires u.pending[id] == Replaying(code) || u.pending[id] == Exchanging(code)
    ensures var t := After(u, Ending(u, id));
            t.log == u.log + [if u.pending[id].Replaying? then ReplaySeen(code)
                              else if u.codes[code].consumed then RaceLost(code) else Exchanged(code)]
            && (u.pending[id].Replaying? ==> CodeDead(t.rows, code))
            && (u.pending[id].Exchanging? ==> t.rows == u.rows)
  {
    hide Linked, Later, SameLinks, RotateOutcome, Check, Find, FamilyRevoked, CodeDead;
    PendingIsOk(u, id);
    hide Inv;
    if u.pending[id].Replaying? {
      CodeRowsRevoked(u, id, code);
    }
  }

  // ---- Reaching the cases ----

  const SOMEONE := Grant("u", ["openid", "offline_access"], "", "pwd", 0, "")

  lemma ExtendRun(steps: seq<Step>, st: Step)
    ensures Run(EMPTY, steps + [st]) == After(Run(EMPTY, steps), st)
  {
    assert (steps + [st])[..|steps|] == steps;
  }

  // One request has consumed the code and not stored its token yet when another
  // reads it as consumed: the replay revokes, and then the token is stored.
  lemma ReplayBeforeMint() returns (steps: seq<Step>)
    ensures var s := Run(EMPTY, steps);
            && 1 in s.pending && s.pending[1] == Minting("c") && 2 in s.pending && s.pending[2] == Replaying("c")
            && !CodeDead(Run(s, [RevokeCode(2), Mint(1, "t", [], 100)]).rows, "c")
  {
    var a, b, c, d := IssueCode("c", "app", SOMEONE), ReadCode(1, "c", true), Consume(1), ReadCode(2, "c", true);
    steps := [];
    ExtendRun(steps, a);
    ExtendRun(steps + [a], b);
    ExtendRun(steps + [a] + [b], c);
    ExtendRun(steps + [a] + [b] + [c], d);
    steps := steps + [a] + [b] + [c] + [d];
    var s := Run(EMPTY, steps);
    assert s.rows == [] && s.codes == map["c" := CodeRow("app", SOMEONE, true)];
    assert s.pending == map[1 := Minting("c"), 2 := Replaying("c")];
    MintAfterReplay(s);
  }

  lemma MintAfterReplay(s: Sys)
    requires s.rows == [] && s.codes == map["c" := CodeRow("app", SOMEONE, true)]
    requires s.pending == map[1 := Minting("c"), 2 := Replaying("c")]
    ensures !CodeDead(Run(s, [RevokeCode(2), Mint(1, "t", [], 100)]).rows, "c")
  {
    var revoke, mint := RevokeCode(2), Mint(1, "t", [], 100);
    TwoSteps(s, revoke, mint);
    var r := After(s, revoke);
    assert r.rows == [] && r.codes == s.codes && r.pending == map[1 := Minting("c")];
    hide Run, PendingAfter, CodesAfter, LogAfter;
    MintsOne(r);
  }

  lemma MintsOne(s: Sys)
    requires Linked(s.rows) && s.rows == [] && s.codes == map["c" := CodeRow("app", SOMEONE, true)]
    requires s.pending == map[1 := Minting("c")]
    ensures !CodeDead(RowsAfter(s, Mint(1, "t", [], 100)), "c")
  {
    var row := FirstRow("c", s.codes["c"], "t", [], 100);
    assert RowsAfter(s, Mint(1, "t", [], 100))[0] == row;
  }

  // A client refreshes for openid alone and is handed nothing.
  lemma NarrowingIsReached() returns (steps: seq<Step>)
    ensures var s := Run(EMPTY, steps);
            |s.log| == 1 && s.log[0].GrantedTo? && !HandsLiveToken(s.rows, "t", s.log[0].out)
  {
    var a, b, c := Start("t", "app", SOMEONE, 100), ReadToken(1, "t", "app", ["openid"], 0), Rotate(1, "n", 100);
    ExtendRun([], a);
    ExtendRun([a], b);
    ExtendRun([a, b], c);
    assert [] + [a] == [a] && [a] + [b] == [a, b];
    steps := [a, b] + [c];
    var s := Run(EMPTY, [a]);
    StartForNarrowing();
    hide Run, After, HandsLiveToken;
    ReadForNarrowing(s);
    RotateForNarrowing(After(s, b));
  }

  const FIRST := Row("t", "app", SOMEONE, 100, "", false)

  lemma StartForNarrowing()
    ensures var s := Run(EMPTY, [Start("t", "app", SOMEONE, 100)]);
            s.rows == [FIRST] && s.log == [] && s.pending == map[]
  {
    var st := Start("t", "app", SOMEONE, 100);
    ExtendRun([], st);
    assert [] + [st] == [st];
    assert RowsAfter(EMPTY, st) == [FIRST];
  }

  lemma ReadForNarrowing(s: Sys)
    requires Linked(s.rows) && s.rows == [FIRST] && s.log == [] && s.pending == map[]
    ensures var t := After(s, ReadToken(1, "t", "app", ["openid"], 0));
            t.rows == [FIRST] && t.log == [] && t.pending == map[1 := Rotating(FIRST, "app", ["openid"], 0)]
  {
    FindUnique(s.rows, 0);
    assert FirstOutside(FIRST.grant.scopes, ["openid"]).None?;
    hide FirstOutside, Find, Linked;
  }

  lemma RotateForNarrowing(s: Sys)
    requires Linked(s.rows) && s.rows == [FIRST] && s.log == []
    requires s.pending == map[1 := Rotating(FIRST, "app", ["openid"], 0)]
    ensures var t := After(s, Rotate(1, "n", 100));
            |t.log| == 1 && t.log[0].GrantedTo? && !HandsLiveToken(t.rows, "t", t.log[0].out)
  {
    FindUnique(s.rows, 0);
    assert Find(s.rows, "n").None?;
    hide Find, Linked, RowsAfter, PendingAfter, CodesAfter;
    assert LogAfter(s, Rotate(1, "n", 100)) == [GrantedTo("t", "app", Handed(FIRST, ["openid"], "n"), 0)];
  }
}
