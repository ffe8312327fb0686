/** Runs of refresh-token and authorization-code redemptions interleaving on one
    store: a redemption reads its row first and acts in a later step. */
module RefreshRuns {
  import opened Strings
  import opened RefreshFamily

  datatype CodeRow = CodeRow(app: string, grant: Grant, consumed: bool)

  // A redemption between its read and its write.
  datatype Pending =
    | Rotating(row: Row, app: string, requested: seq<string>, readAt: int)
    | Reusing(hash: string)
    | Exchanging(code: string)
    | Minting(code: string)
    | Replaying(code: string)

  datatype Event =
    | GrantedTo(hash: string, app: string, out: Redeemed, readAt: int)
    | ReuseSeen(hash: string)
    | Exchanged(code: string)
    | ReplaySeen(code: string)
    | RaceLost(code: string)

  datatype Sys = Sys(rows: seq<Row>, codes: map<string, CodeRow>, pending: map<nat, Pending>, log: seq<Event>)

  datatype Step =
    | IssueCode(code: string, app: string, grant: Grant)
    | ReadToken(id: nat, hash: string, app: string, requested: seq<string>, now: int)
    | Rotate(id: nat, next: string, expires: int)
    | RevokeFamily(id: nat)
    | ReadCode(id: nat, code: string, passes: bool)
    | Consume(id: nat)
    | Mint(id: nat, hash: string, scopes: seq<string>, expires: int)
    | RevokeCode(id: nat)
    | Start(hash: string, app: string, grant: Grant, expires: int)
    | GiveUp(id: nat)

  const EMPTY := Sys([], map[], map[], [])

  function FirstRow(code: string, c: CodeRow, hash: string, scopes: seq<string>, expires: int): Row {
    Row(hash, c.app, c.grant.(scopes := scopes, code := code), expires, "", false)
  }

  // A chain no authorization code is behind, as the device grant starts one.
  function BareRow(hash: string, app: string, grant: Grant, expires: int): Row {
    Row(hash, app, grant.(code := ""), expires, "", false)
  }

  // ---- Links under the ways the table changes ----

  ghost predicate SameLinks(a: seq<Row>, b: seq<Row>) {
    |a| <= |b| && forall i :: 0 <= i < |a| ==>
      b[i].(revoked := false) == a[i].(revoked := false)
  }

  ghost predicate Later(a: seq<Row>, b: seq<Row>) {
    SameLinks(a, b) && forall i :: 0 <= i < |a| && a[i].revoked ==> b[i].revoked
  }

  lemma KeepsLinked(a: seq<Row>, b: seq<Row>)
    requires Linked(a) && SameLinks(a, b) && |b| == |a|
    ensures Linked(b)
  {
    forall i | 0 <= i < |b| && b[i].parent != ""
      ensures exists j: nat :: ParentAt(b, i, j)
    {
      assert ParentAt(b, i, Parent(a, i));
    }
  }

  lemma AppendLinked(rows: seq<Row>, row: Row)
    requires Linked(rows) && row.hash != "" && Find(rows, row.hash).None?
    requires row.parent == "" || Find(rows, row.parent).Some?
    ensures Linked(rows + [row])
  {
    var more := rows + [row];
    forall i | 0 <= i < |more| && more[i].parent != ""
      ensures exists j: nat :: ParentAt(more, i, j)
    {
      if i < |rows| {
        assert ParentAt(more, i, Parent(rows, i));
      } else {
        assert ParentAt(more, i, Find(rows, row.parent).value);
      }
    }
  }

  lemma {:induction false} SameRoots(a: seq<Row>, b: seq<Row>, i: nat)
    requires Linked(a) && Linked(b) && SameLinks(a, b) && i < |a|
    ensures Root(b, i) == Root(a, i)
    decreases i
  {
    if a[i].parent != "" {
      var j := Parent(a, i);
      RootOfChild(b, i, j);
      SameRoots(a, b, j);
    }
  }

  lemma FindUnique(rows: seq<Row>, i: nat)
    requires Unique(rows) && i < |rows|
    ensures Find(rows, rows[i].hash) == Some(i)
  {
    var f := Find(rows, rows[i].hash);
    assert f.Some?;
  }

  lemma SpentLinked(rows: seq<Row>, i: nat, hash: string)
    requires Linked(rows) && i < |rows|
    ensures var spent := rows[i := rows[i].(revoked := true)];
            Linked(spent) && SameLinks(rows, spent) && Find(spent, hash) == Find(rows, hash)
  {
    var spent := rows[i := rows[i].(revoked := true)];
    KeepsLinked(rows, spent);
    SameHashes(rows, spent, hash);
  }

  lemma RotatedLinks(rows: seq<Row>, i: nat, next: Row)
    requires Linked(rows) && i < |rows| && next.parent == rows[i].hash
    requires next.hash != "" && Find(rows, next.hash).None?
    ensures Linked(Rotated(rows, i, next)) && Later(rows, Rotated(rows, i, next))
    ensures Root(Rotated(rows, i, next), |rows|) == Root(rows, i)
  {
    var spent := rows[i := rows[i].(revoked := true)];
    SpentLinked(rows, i, next.hash);
    SpentLinked(rows, i, next.parent);
    FindUnique(rows, i);
    AppendLinked(spent, next);
    hide Linked, ParentAt;
    NotEmpty(rows, i);
    RootOfChild(Rotated(rows, i, next), |rows|, i);
    SameRoots(rows, Rotated(rows, i, next), i);
  }

  lemma NotEmpty(rows: seq<Row>, i: nat)
    requires Linked(rows) && i < |rows|
    ensures rows[i].hash != ""
  {
  }

  // ---- Steps ----

  function RowsRotated(s: Sys, id: nat, next: string, expires: int): seq<Row>
    requires id in s.pending && s.pending[id].Rotating?
  {
    var row := s.pending[id].row;
    var at := Find(s.rows, row.hash);
    if RotateOutcome(s.rows, row.hash, Successor(row, s.pending[id].app, next, expires)).Won?
    then Rotated(s.rows, at.value, Successor(row, s.pending[id].app, next, expires))
    else s.rows
  }

  ghost function RowsAfter(s: Sys, st: Step): (r: seq<Row>)
    requires Linked(s.rows)
    ensures Linked(r) && Later(s.rows, r)
  {
    match st
    case Rotate(id, next, expires) =>
      if id in s.pending && s.pending[id].Rotating? && next != "" then
        var row := s.pending[id].row;
        var at := Find(s.rows, row.hash);
        if RotateOutcome(s.rows, row.hash, Successor(row, s.pending[id].app, next, expires)).Won? then
          RotatedLinks(s.rows, at.value, Successor(row, s.pending[id].app, next, expires));
          RowsRotated(s, id, next, expires)
        else s.rows
      else s.rows
    case RevokeFamily(id) =>
      if id in s.pending && s.pending[id].Reusing? then
        KeepsLinked(s.rows, FamilyRevoked(s.rows, s.pending[id].hash));
        FamilyRevoked(s.rows, s.pending[id].hash)
      else s.rows
    case Mint(id, hash, scopes, expires) =>
      if id in s.pending && s.pending[id].Minting? && s.pending[id].code in s.codes
         && hash != "" && Find(s.rows, hash).None? then
        var row := FirstRow(s.pending[id].code, s.codes[s.pending[id].code], hash, scopes, expires);
        AppendLinked(s.rows, row);
        s.rows + [row]
      else s.rows
    case Start(hash, app, grant, expires) =>
      if hash != "" && Find(s.rows, hash).None? then
        AppendLinked(s.rows, BareRow(hash, app, grant, expires));
        s.rows + [BareRow(hash, app, grant, expires)]
      else s.rows
    case RevokeCode(id) =>
      if id in s.pending && s.pending[id].Replaying? then
        KeepsLinked(s.rows, CodeRevoked(s.rows, s.pending[id].code));
        CodeRevoked(s.rows, s.pending[id].code)
      else s.rows
    case _ => s.rows
  }

  // Who waits for what after the step.
  function PendingAfter(s: Sys, st: Step): map<nat, Pending> {
    match st
    case IssueCode(_, _, _) => s.pending
    case Start(_, _, _, _) => s.pending
    case ReadToken(id, hash, app, requested, now) =>
      var at := Find(s.rows, hash);
      if id in s.pending || at.None? then s.pending
      else
        var row := s.rows[at.value];
        var answer := Check(row, app, requested, now);
        if answer.None? then s.pending[id := Rotating(row, app, requested, now)]
        else if answer.value.Reused? then s.pending[id := Reusing(hash)]
        else s.pending
    case Rotate(id, next, expires) =>
      if id in s.pending && s.pending[id].Rotating? && next != "" then
        var row := s.pending[id].row;
        if RotateOutcome(s.rows, row.hash, Successor(row, s.pending[id].app, next, expires)).Lost?
        then s.pending[id := Reusing(row.hash)]
        else s.pending - {id}
      else s.pending
    case RevokeFamily(id) => if id in s.pending && s.pending[id].Reusing? then s.pending - {id} else s.pending
    case ReadCode(id, code, passes) =>
      if id in s.pending || code !in s.codes then s.pending
      else if s.codes[code].consumed then s.pending[id := Replaying(code)]
      else if passes then s.pending[id := Exchanging(code)]
      else s.pending
    case Consume(id) =>
      if id in s.pending && s.pending[id].Exchanging? then
        var code := s.pending[id].code;
        if code in s.codes && !s.codes[code].consumed then s.pending[id := Minting(code)] else s.pending - {id}
      else s.pending
    case Mint(id, _, _, _) => if id in s.pending && s.pending[id].Minting? then s.pending - {id} else s.pending
    case RevokeCode(id) => if id in s.pending && s.pending[id].Replaying? then s.pending - {id} else s.pending
    case GiveUp(id) => s.pending - {id}
  }

  function CodesAfter(s: Sys, st: Step): map<string, CodeRow> {
    match st
    case IssueCode(code, app, grant) =>
      if code == "" || code in s.codes then s.codes else s.codes[code := CodeRow(app, grant, false)]
    case Consume(id) =>
      if id in s.pending && s.pending[id].Exchanging? && s.pending[id].code in s.codes
      then s.codes[s.pending[id].code := s.codes[s.pending[id].code].(consumed := true)]
      else s.codes
    case _ => s.codes
  }

  function LogAfter(s: Sys, st: Step): seq<Event> {
    match st
    case Rotate(id, next, expires) =>
      if id in s.pending && s.pending[id].Rotating? && next != ""
         && var p := s.pending[id];
            RotateOutcome(s.rows, p.row.hash, Successor(p.row, p.app, next, expires)).Won?
      then
        var p := s.pending[id];
        s.log + [GrantedTo(p.row.hash, p.app, Handed(p.row, p.requested, next), p.readAt)]
      else s.log
    case RevokeFamily(id) =>
      if id in s.pending && s.pending[id].Reusing? then s.log + [ReuseSeen(s.pending[id].hash)] else s.log
    case Consume(id) =>
      if id in s.pending && s.pending[id].Exchanging? then
        var code := s.pending[id].code;
        s.log + [if code in s.codes && !s.codes[code].consumed then Exchanged(code) else RaceLost(code)]
      else s.log
    case RevokeCode(id) =>
      if id in s.pending && s.pending[id].Replaying? then s.log + [ReplaySeen(s.pending[id].code)] else s.log
    case _ => s.log
  }

  ghost function After(s: Sys, st: Step): (r: Sys)
    requires Linked(s.rows)
    ensures Linked(r.rows) && Later(s.rows, r.rows)
  {
    Sys(RowsAfter(s, st), CodesAfter(s, st), PendingAfter(s, st), LogAfter(s, st))
  }

  ghost function Run(s: Sys, steps: seq<Step>): (r: Sys)
    requires Linked(s.rows)
    ensures Linked(r.rows)
  {
    if steps == [] then s else After(Run(s, steps[..|steps| - 1]), steps[|steps| - 1])
  }
}
