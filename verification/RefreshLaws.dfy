/** What every run of refresh-token redemptions keeps. */
module RefreshLaws {
  import opened Strings
  import opened RefreshFamily
  import opened RefreshRuns

  // ---- The invariant of the table ----

  // A chain has at most one token that still works.
  ghost predicate OneLive(rows: seq<Row>)
    requires Linked(rows)
  {
    forall i: nat, j: nat :: Live(rows, i) && Live(rows, j) && Root(rows, i) == Root(rows, j) ==> i == j
  }

  predicate Live(rows: seq<Row>, i: nat) { i < |rows| && !rows[i].revoked }

  // A token with a successor is spent, and the successor inherits everything.
  ghost predicate Inherited(rows: seq<Row>) {
    forall i: nat, j: nat :: i < |rows| && rows[i].parent != "" && ParentAt(rows, i, j) ==>
      rows[j].revoked && rows[i].app == rows[j].app && rows[i].grant == rows[j].grant
  }

  // No token related to hash works any more.
  ghost predicate Dead(rows: seq<Row>, hash: string)
    requires Linked(rows)
  {
    Find(rows, hash).Some? && forall i :: 0 <= i < |rows| && Related(rows, hash, i) ==> rows[i].revoked
  }

  ghost predicate CodeDead(rows: seq<Row>, code: string) {
    forall i :: 0 <= i < |rows| && rows[i].grant.code == code ==> rows[i].revoked
  }

  // -- Rows marked --

  lemma MarkedKeeps(a: seq<Row>, b: seq<Row>)
    requires Linked(a) && Linked(b) && Later(a, b) && |a| == |b| && OneLive(a) && Inherited(a)
    ensures OneLive(b) && Inherited(b)
  {
    forall i: nat, j: nat | Live(b, i) && Live(b, j) && Root(b, i) == Root(b, j)
      ensures i == j
    {
      SameRoots(a, b, i);
      SameRoots(a, b, j);
    }
    forall i: nat, j: nat | i < |b| && b[i].parent != "" && ParentAt(b, i, j)
      ensures b[j].revoked && b[i].app == b[j].app && b[i].grant == b[j].grant
    {
      assert ParentAt(a, i, j);
    }
  }

  // -- A first row added --

  lemma StartedKeeps(a: seq<Row>, row: Row)
    requires Linked(a) && Linked(a + [row]) && row.parent == "" && OneLive(a) && Inherited(a)
    ensures OneLive(a + [row]) && Inherited(a + [row])
  {
    var b := a + [row];
    forall i: nat, j: nat | Live(b, i) && Live(b, j) && Root(b, i) == Root(b, j)
      ensures i == j
    {
      if i < |a| {
        SameRoots(a, b, i);
      }
      if j < |a| {
        SameRoots(a, b, j);
      }
    }
    forall i: nat, j: nat | i < |b| && b[i].parent != "" && ParentAt(b, i, j)
      ensures b[j].revoked && b[i].app == b[j].app && b[i].grant == b[j].grant
    {
      assert ParentAt(a, i, j);
    }
  }

  // -- A token rotated --

  ghost predicate Rotates(a: seq<Row>, i: nat, next: Row) {
    && Linked(a) && i < |a| && !a[i].revoked
    && next.hash != "" && Find(a, next.hash).None?
    && next.parent == a[i].hash && next.app == a[i].app && next.grant == a[i].grant && !next.revoked
  }

  lemma RotatedLive(a: seq<Row>, i: nat, next: Row)
    requires Rotates(a, i, next) && OneLive(a)
    ensures Linked(Rotated(a, i, next)) && OneLive(Rotated(a, i, next))
  {
    var b := Rotated(a, i, next);
    RotatedLinks(a, i, next);
    hide Linked, ParentAt;
    forall k: nat, l: nat | Live(b, k) && Live(b, l) && Root(b, k) == Root(b, l)
      ensures k == l
    {
      if k < |a| {
        SameRoots(a, b, k);
        assert Live(a, k) && k != i;
      }
      if l < |a| {
        SameRoots(a, b, l);
        assert Live(a, l) && l != i;
      }
      assert Live(a, i);
    }
  }

  lemma RotatedInherits(a: seq<Row>, i: nat, next: Row)
    requires Rotates(a, i, next) && Inherited(a)
    ensures Inherited(Rotated(a, i, next))
  {
    var b := Rotated(a, i, next);
    hide Root;
    forall k: nat, l: nat | k < |b| && b[k].parent != "" && ParentAt(b, k, l)
      ensures b[l].revoked && b[k].app == b[l].app && b[k].grant == b[l].grant
    {
      if k < |a| {
        assert ParentAt(a, k, l);
      } else {
        assert l < |a| && a[l].hash == a[i].hash;
        assert l == i;
      }
    }
  }

  // ---- The whole invariant ----

  // The row a redemption holds is the stored one, up to a revocation since.
  ghost predicate Holds(rows: seq<Row>, row: Row) {
    exists i :: 0 <= i < |rows| && rows[i].(revoked := false) == row
  }

  ghost predicate PendingOk(s: Sys, p: Pending) {
    match p
    case Rotating(row, app, requested, readAt) =>
      Holds(s.rows, row) && app == row.app && readAt < row.expires && FirstOutside(row.grant.scopes, requested).None?
    case Reusing(hash) => Find(s.rows, hash).Some?
    case Exchanging(code) => code in s.codes
    case Minting(code) => code in s.codes && s.codes[code].consumed
    case Replaying(code) => code in s.codes && s.codes[code].consumed
  }

  ghost predicate EventOk(s: Sys, e: Event)
    requires Linked(s.rows)
  {
    match e
    case GrantedTo(hash, app, out, readAt) => SpentBy(s.rows, hash, app, out, readAt)
    case ReuseSeen(hash) => Dead(s.rows, hash)
    case Exchanged(code) => code in s.codes && s.codes[code].consumed
    case _ => true
  }

  // The redeemed token is spent, it was unexpired when read, and the answer
  // speaks for its app and sign-in.
  ghost predicate SpentBy(rows: seq<Row>, hash: string, app: string, out: Redeemed, readAt: int) {
    var at := Find(rows, hash);
    && at.Some? && rows[at.value].revoked && rows[at.value].app == app && readAt < rows[at.value].expires
    && out.user == rows[at.value].grant.user && out.resource == rows[at.value].grant.resource
    && out.amr == rows[at.value].grant.amr && out.authTime == rows[at.value].grant.authTime
    && forall i :: 0 <= i < |out.scopes| ==> out.scopes[i] in rows[at.value].grant.scopes
  }

  // No token and no code is redeemed twice.
  ghost predicate OncePer(log: seq<Event>) {
    forall i, j :: 0 <= i < j < |log| ==> Different(log[i], log[j])
  }

  predicate Different(a: Event, b: Event) {
    && (a.GrantedTo? && b.GrantedTo? ==> a.hash != b.hash)
    && (a.Exchanged? && b.Exchanged? ==> a.code != b.code)
  }

  predicate CodeUsed(codes: map<string, CodeRow>, code: string) {
    code == "" || (code in codes && codes[code].consumed)
  }

  ghost predicate CodesOk(s: Sys) {
    && "" !in s.codes
    && (forall i :: 0 <= i < |s.rows| ==> CodeUsed(s.codes, s.rows[i].grant.code))
    && (forall i, j :: i in s.pending && j in s.pending && s.pending[i].Minting? && s.pending[i] == s.pending[j]
          ==> i == j)
  }

  ghost predicate Inv(s: Sys) {
    && Linked(s.rows) && OneLive(s.rows) && Inherited(s.rows)
    && (forall id :: id in s.pending ==> PendingOk(s, s.pending[id]))
    && (forall i :: 0 <= i < |s.log| ==> EventOk(s, s.log[i]))
    && OncePer(s.log) && CodesOk(s)
  }

  lemma StartsOk()
    ensures Inv(EMPTY)
  {
  }

  // How a step can change the table.
  lemma RowsShape(s: Sys, st: Step)
    requires Inv(s)
    ensures var r := RowsAfter(s, st);
            || (|r| == |s.rows| && Later(s.rows, r))
            || (exists row: Row :: r == s.rows + [row] && row.parent == "")
            || (st.Rotate? && st.id in s.pending && s.pending[st.id].Rotating?
                && var row := s.pending[st.id].row;
                   var i := Find(s.rows, row.hash);
                   i.Some? && Rotates(s.rows, i.value, Successor(row, s.pending[st.id].app, st.next, st.expires))
                   && r == Rotated(s.rows, i.value, Successor(row, s.pending[st.id].app, st.next, st.expires)))
  {
    match st
    case Rotate(id, next, expires) =>
      if id in s.pending && s.pending[id].Rotating? && next != "" {
        var row := s.pending[id].row;
        assert PendingOk(s, s.pending[id]);
        HeldAt(s.rows, row);
      }
    case Mint(id, hash, scopes, expires) =>
      if RowsAfter(s, st) != s.rows {
        var row := FirstRow(s.pending[id].code, s.codes[s.pending[id].code], hash, scopes, expires);
        assert RowsAfter(s, st) == s.rows + [row] && row.parent == "";
      }
    case Start(hash, app, grant, expires) =>
      if RowsAfter(s, st) != s.rows {
        assert RowsAfter(s, st) == s.rows + [BareRow(hash, app, grant, expires)];
      }
    case _ =>
  }

  lemma HeldAt(rows: seq<Row>, row: Row)
    requires Linked(rows) && Holds(rows, row)
    ensures var at := Find(rows, row.hash);
            at.Some? && rows[at.value].(revoked := false) == row
  {
    var i :| 0 <= i < |rows| && rows[i].(revoked := false) == row;
    FindUnique(rows, i);
  }

  lemma RowsKept(s: Sys, st: Step)
    requires Inv(s)
    ensures var r := RowsAfter(s, st); OneLive(r) && Inherited(r)
  {
    var r := RowsAfter(s, st);
    RowsShape(s, st);
    if |r| == |s.rows| {
      MarkedKeeps(s.rows, r);
    } else if row: Row :| r == s.rows + [row] && row.parent == "" {
      StartedKeeps(s.rows, row);
    } else {
      var row := s.pending[st.id].row;
      RotatedLive(s.rows, Find(s.rows, row.hash).value, Successor(row, s.pending[st.id].app, st.next, st.expires));
      RotatedInherits(s.rows, Find(s.rows, row.hash).value, Successor(row, s.pending[st.id].app, st.next, st.expires));
    }
  }

  lemma FindLater(a: seq<Row>, b: seq<Row>, hash: string)
    requires SameLinks(a, b) && Unique(b) && Find(a, hash).Some?
    ensures Find(b, hash) == Find(a, hash)
  {
    FindUnique(b, Find(a, hash).value);
  }

  // Being related to a token does not change for the tokens that were there.
  lemma RelatedLater(a: seq<Row>, b: seq<Row>, hash: string, i: nat)
    requires Linked(a) && Linked(b) && SameLinks(a, b) && Find(a, hash).Some? && i < |b| && Related(b, hash, i)
    ensures i < |a| ==> Related(a, hash, i)
    ensures Root(b, i) == Root(a, Find(a, hash).value)
  {
    var j :| 0 <= j < |b| && b[j].hash == hash && Root(b, j) == Root(b, i);
    var k := Find(a, hash).value;
    assert j == k by {
      FindLater(a, b, hash);
      FindUnique(b, j);
    }
    SameRoots(a, b, k);
    if i < |a| {
      SameRoots(a, b, i);
    }
  }

  lemma UnrelatedLater(a: seq<Row>, b: seq<Row>, hash: string, i: nat)
    requires Linked(a) && Linked(b) && SameLinks(a, b) && Find(a, hash).Some? && i < |b|
    requires Root(b, i) != Root(a, Find(a, hash).value)
    ensures !Related(b, hash, i)
  {
    if Related(b, hash, i) {
      RelatedLater(a, b, hash, i);
    }
  }

  lemma MarkedDead(a: seq<Row>, b: seq<Row>, hash: string)
    requires Linked(a) && Linked(b) && Later(a, b) && |a| == |b| && Dead(a, hash)
    ensures Dead(b, hash)
  {
    FindLater(a, b, hash);
    forall i | 0 <= i < |b| && Related(b, hash, i)
      ensures b[i].revoked
    {
      RelatedLater(a, b, hash, i);
    }
  }

  lemma StartedDead(a: seq<Row>, row: Row, hash: string)
    requires Linked(a) && Linked(a + [row]) && row.parent == "" && Dead(a, hash)
    ensures Dead(a + [row], hash)
  {
    var b := a + [row];
    FindLater(a, b, hash);
    assert Root(b, |a|) == |a|;
    UnrelatedLater(a, b, hash, |a|);
    forall i | 0 <= i < |a| && Related(b, hash, i)
      ensures b[i].revoked
    {
      RelatedLater(a, b, hash, i);
    }
  }

  lemma RotatedDead(a: seq<Row>, i: nat, next: Row, hash: string)
    requires Rotates(a, i, next) && Dead(a, hash)
    ensures Linked(Rotated(a, i, next)) && Dead(Rotated(a, i, next), hash)
  {
    var b := Rotated(a, i, next);
    RotatedLinks(a, i, next);
    FindLater(a, b, hash);
    hide Linked, ParentAt, Later, SameLinks;
    assert !Related(a, hash, i);
    assert Root(a, Find(a, hash).value) != Root(a, i);
    RotatedLater(a, i, next);
    UnrelatedLater(a, b, hash, |a|);
    forall k | 0 <= k < |a| && Related(b, hash, k)
      ensures b[k].revoked
    {
      RelatedLater(a, b, hash, k);
    }
  }

  lemma RotatedLater(a: seq<Row>, i: nat, next: Row)
    requires Rotates(a, i, next)
    ensures Linked(Rotated(a, i, next)) && Later(a, Rotated(a, i, next)) && SameLinks(a, Rotated(a, i, next))
  {
    RotatedLinks(a, i, next);
  }

  // A chain once dead stays dead: only a live token gets a successor.
  lemma DeadStays(s: Sys, st: Step, hash: string)
    requires Inv(s) && Dead(s.rows, hash)
    ensures Dead(RowsAfter(s, st), hash)
  {
    var r := RowsAfter(s, st);
    RowsShape(s, st);
    hide Dead;
    if |r| == |s.rows| {
      MarkedDead(s.rows, r, hash);
    } else if row: Row :| r == s.rows + [row] && row.parent == "" {
      StartedDead(s.rows, row, hash);
    } else {
      var row := s.pending[st.id].row;
      var next := Successor(row, s.pending[st.id].app, st.next, st.expires);
      RotatedDead(s.rows, Find(s.rows, row.hash).value, next, hash);
    }
  }

  lemma HeldLater(a: seq<Row>, b: seq<Row>, row: Row)
    requires Later(a, b) && Holds(a, row)
    ensures Holds(b, row)
  {
    var i :| 0 <= i < |a| && a[i].(revoked := false) == row;
    assert b[i].(revoked := false) == row;
  }

  lemma PendingKept(s: Sys, st: Step)
    requires Inv(s)
    ensures var t := After(s, st); forall id :: id in t.pending ==> PendingOk(t, t.pending[id])
  {
    var t := After(s, st);
    forall id | id in t.pending
      ensures PendingOk(t, t.pending[id])
    {
      if id in s.pending && t.pending[id] == s.pending[id] {
        PendingStays(s, st, s.pending[id]);
      } else {
        PendingNew(s, st, id);
      }
    }
  }

  lemma PendingStays(s: Sys, st: Step, p: Pending)
    requires Inv(s) && PendingOk(s, p)
    ensures PendingOk(After(s, st), p)
  {
    var t := After(s, st);
    hide RowsAfter, PendingAfter, LogAfter, Inv;
    match p
    case Rotating(row, _, _, _) => HeldLater(s.rows, t.rows, row);
    case Reusing(hash) => FindLater(s.rows, t.rows, hash);
    case _ =>
  }

  lemma PendingNew(s: Sys, st: Step, id: nat)
    requires Inv(s) && id in PendingAfter(s, st)
    requires !(id in s.pending && PendingAfter(s, st)[id] == s.pending[id])
    ensures PendingOk(After(s, st), PendingAfter(s, st)[id])
  {
    if st.ReadToken? {
      ReadIsOk(s, st, id);
    } else if st.Rotate? {
      LoserIsOk(s, st, id);
    } else {
      CodeReadIsOk(s, st, id);
    }
  }

  lemma LoserIsOk(s: Sys, st: Step, id: nat)
    requires Inv(s) && id in PendingAfter(s, st) && st.Rotate?
    requires !(id in s.pending && PendingAfter(s, st)[id] == s.pending[id])
    ensures PendingOk(After(s, st), PendingAfter(s, st)[id])
  {
    var t := After(s, st);
    assert PendingOk(s, s.pending[id]);
    HeldAt(s.rows, s.pending[id].row);
    FindLater(s.rows, t.rows, s.pending[id].row.hash);
    hide Inv, Linked, RowsAfter, LogAfter, CodesAfter;
  }

  lemma CodeReadIsOk(s: Sys, st: Step, id: nat)
    requires Inv(s) && id in PendingAfter(s, st) && !st.ReadToken? && !st.Rotate?
    requires !(id in s.pending && PendingAfter(s, st)[id] == s.pending[id])
    ensures PendingOk(After(s, st), PendingAfter(s, st)[id])
  {
    if st.Consume? {
      assert PendingOk(s, s.pending[id]);
    }
    hide Inv, Linked, RowsAfter, LogAfter;
  }

  lemma ReadIsOk(s: Sys, st: Step, id: nat)
    requires Inv(s) && id in PendingAfter(s, st) && st.ReadToken?
    requires !(id in s.pending && PendingAfter(s, st)[id] == s.pending[id])
    ensures PendingOk(After(s, st), PendingAfter(s, st)[id])
  {
    hide Linked, Inherited, OneLive, OncePer, CodesOk, EventOk;
    var at := Find(s.rows, st.hash);
    assert RowsAfter(s, st) == s.rows;
    if PendingAfter(s, st)[id].Rotating? {
      assert s.rows[at.value].(revoked := false) == s.rows[at.value];
    }
  }

  // -- The log --

  lemma EventStays(s: Sys, st: Step, e: Event)
    requires Inv(s) && EventOk(s, e)
    ensures EventOk(After(s, st), e)
  {
    var t := After(s, st);
    hide RowsAfter, PendingAfter, LogAfter, Inv, Dead;
    match e
    case GrantedTo(hash, _, _, _) => FindLater(s.rows, t.rows, hash);
    case ReuseSeen(hash) => DeadStays(s, st, hash);
    case _ =>
  }

  lemma GrantIsOk(s: Sys, st: Step)
    requires Inv(s) && st.Rotate? && LogAfter(s, st) != s.log
    ensures var p := s.pending[st.id];
            && EventOk(After(s, st), GrantedTo(p.row.hash, p.app, Handed(p.row, p.requested, st.next), p.readAt))
            && Find(s.rows, p.row.hash).Some? && !s.rows[Find(s.rows, p.row.hash).value].revoked
  {
    var p := s.pending[st.id];
    var t := After(s, st);
    assert PendingOk(s, p);
    HeldAt(s.rows, p.row);
    FindLater(s.rows, t.rows, p.row.hash);
    hide Inv, Linked, PendingAfter, CodesAfter;
  }

  lemma ReuseIsOk(s: Sys, st: Step)
    requires Inv(s) && st.RevokeFamily? && LogAfter(s, st) != s.log
    ensures Dead(After(s, st).rows, s.pending[st.id].hash)
  {
    var hash, t := s.pending[st.id].hash, After(s, st);
    assert PendingOk(s, s.pending[st.id]);
    FindLater(s.rows, t.rows, hash);
    forall i | 0 <= i < |t.rows| && Related(t.rows, hash, i)
      ensures t.rows[i].revoked
    {
      RelatedLater(s.rows, t.rows, hash, i);
    }
  }

  lemma LogKept(s: Sys, st: Step)
    requires Inv(s)
    ensures var t := After(s, st); forall i :: 0 <= i < |t.log| ==> EventOk(t, t.log[i])
  {
    var t := After(s, st);
    forall i | 0 <= i < |t.log|
      ensures EventOk(t, t.log[i])
    {
      if i < |s.log| {
        assert t.log[i] == s.log[i];
        EventStays(s, st, s.log[i]);
      } else {
        NewEventIsOk(s, st);
      }
    }
  }

  lemma NewEventIsOk(s: Sys, st: Step)
    requires Inv(s) && LogAfter(s, st) != s.log
    ensures |LogAfter(s, st)| == |s.log| + 1 && EventOk(After(s, st), LogAfter(s, st)[|s.log|])
  {
    if st.Rotate? {
      GrantIsOk(s, st);
    } else if st.RevokeFamily? {
      ReuseIsOk(s, st);
    }
    hide Inv, RowsAfter, PendingAfter, SpentBy, Dead;
  }

  lemma GrantIsNew(s: Sys, st: Step, e: Event)
    requires Inv(s) && EventOk(s, e) && st.Rotate? && LogAfter(s, st) != s.log
    ensures |LogAfter(s, st)| == |s.log| + 1 && Different(e, LogAfter(s, st)[|s.log|])
  {
    GrantIsOk(s, st);
    hide Inv, RowsAfter, PendingAfter, Dead;
  }

  lemma NewEventIsNew(s: Sys, st: Step, e: Event)
    requires Inv(s) && EventOk(s, e) && LogAfter(s, st) != s.log
    ensures |LogAfter(s, st)| == |s.log| + 1 && Different(e, LogAfter(s, st)[|s.log|])
  {
    if st.Rotate? {
      GrantIsNew(s, st, e);
    }
    hide Inv, RowsAfter, PendingAfter, SpentBy, Dead;
  }

  lemma OnceKept(s: Sys, st: Step)
    requires Inv(s)
    ensures OncePer(LogAfter(s, st))
  {
    var log := LogAfter(s, st);
    if log != s.log {
      forall i | 0 <= i < |s.log|
        ensures |log| == |s.log| + 1 && Different(s.log[i], log[|s.log|])
      {
        assert EventOk(s, s.log[i]);
        NewEventIsNew(s, st, s.log[i]);
      }
      OnceMore(s.log, log);
    }
  }

  lemma OnceMore(log: seq<Event>, more: seq<Event>)
    requires OncePer(log) && log <= more && |more| <= |log| + 1
    requires forall i :: 0 <= i < |log| ==> |more| == |log| + 1 && Different(log[i], more[|log|])
    ensures OncePer(more)
  {
    forall i, j | 0 <= i < j < |more|
      ensures Different(more[i], more[j])
    {
      assert more[i] == log[i];
      if j < |log| {
        assert more[j] == log[j];
      }
    }
  }

  // -- Codes --

  lemma CodesKept(s: Sys, st: Step)
    requires Inv(s)
    ensures CodesOk(After(s, st))
  {
    var t := After(s, st);
    RowCodesKept(s, st);
    OneMinter(s, st);
    hide Inv, RowsAfter, PendingAfter, LogAfter;
  }

  lemma NewRowCode(s: Sys, st: Step)
    requires Inv(s) && |RowsAfter(s, st)| > |s.rows|
    ensures |RowsAfter(s, st)| == |s.rows| + 1 && CodeUsed(s.codes, RowsAfter(s, st)[|s.rows|].grant.code)
  {
    if st.Rotate? {
      var row := s.pending[st.id].row;
      PendingIsOk(s, st.id);
      HeldAt(s.rows, row);
      assert CodeUsed(s.codes, s.rows[Find(s.rows, row.hash).value].grant.code);
    } else if st.Mint? {
      PendingIsOk(s, st.id);
    }
    hide Inv, Linked, CodeUsed;
  }

  lemma CodeUsedLater(s: Sys, st: Step, code: string)
    requires CodeUsed(s.codes, code)
    ensures CodeUsed(CodesAfter(s, st), code)
  {
  }

  lemma RowCodesKept(s: Sys, st: Step)
    requires Inv(s)
    ensures var t := After(s, st); forall i :: 0 <= i < |t.rows| ==> CodeUsed(t.codes, t.rows[i].grant.code)
  {
    var t := After(s, st);
    assert forall i :: 0 <= i < |s.rows| ==> CodeUsed(s.codes, s.rows[i].grant.code);
    hide Inv, Linked, RowsAfter, CodesAfter, PendingAfter, LogAfter, CodeUsed;
    forall i | 0 <= i < |t.rows|
      ensures CodeUsed(t.codes, t.rows[i].grant.code)
    {
      if i < |s.rows| {
        assert t.rows[i].(revoked := false) == s.rows[i].(revoked := false);
      } else {
        NewRowCode(s, st);
      }
      CodeUsedLater(s, st, t.rows[i].grant.code);
    }
  }

  lemma OneMinter(s: Sys, st: Step)
    requires Inv(s)
    ensures var p := PendingAfter(s, st);
            forall i, j :: i in p && j in p && p[i].Minting? && p[i] == p[j] ==> i == j
  {
    var p := PendingAfter(s, st);
    forall i | i in s.pending
      ensures PendingOk(s, s.pending[i])
    {
    }
    hide Linked, Inherited, OneLive, OncePer, EventOk;
    forall i, j | i in p && j in p && p[i].Minting? && p[i] == p[j]
      ensures i == j
    {
    }
  }

  // ---- Every run ----

  lemma StepKeepsInv(s: Sys, st: Step)
    requires Inv(s)
    ensures Inv(After(s, st))
  {
    hide RowsAfter, PendingAfter, LogAfter, CodesAfter;
    RowsKept(s, st);
    PendingKept(s, st);
    LogKept(s, st);
    OnceKept(s, st);
    CodesKept(s, st);
  }

  lemma {:induction false} RunKeepsInv(s: Sys, steps: seq<Step>)
    requires Inv(s)
    ensures Inv(Run(s, steps))
  {
    hide After;
    if steps != [] {
      RunKeepsInv(s, steps[..|steps| - 1]);
      StepKeepsInv(Run(s, steps[..|steps| - 1]), steps[|steps| - 1]);
    }
  }

  // ---- What a reader of the store can rely on ----

  // At any time at most one token of a chain works.
  lemma OneWorkingToken(steps: seq<Step>)
    ensures OneLive(Run(EMPTY, steps).rows)
  {
    StartsOk();
    hide Linked, OneLive, After;
    RunKeepsInv(EMPTY, steps);
  }

  // No refresh token and no code is ever redeemed twice, however requests
  // overlap.
  lemma RedeemedOnce(steps: seq<Step>)
    ensures OncePer(Run(EMPTY, steps).log)
  {
    RunKeepsInv(EMPTY, steps);
  }

  lemma {:induction false} InheritsFromRoot(rows: seq<Row>, i: nat)
    requires Linked(rows) && Inherited(rows) && i < |rows|
    ensures rows[i].app == rows[Root(rows, i)].app && rows[i].grant == rows[Root(rows, i)].grant
    decreases i
  {
    if rows[i].parent != "" {
      InheritsFromRoot(rows, Parent(rows, i));
    }
  }

  // Every answer, however many rotations on, is for the app and the sign-in
  // the chain began with, and for no scope outside the first grant.
  lemma AnswersMatchFirstGrant(steps: seq<Step>, e: nat)
    requires e < |Run(EMPTY, steps).log| && Run(EMPTY, steps).log[e].GrantedTo?
    ensures var s, event := Run(EMPTY, steps), Run(EMPTY, steps).log[e];
            var at := Find(s.rows, event.hash);
            at.Some? &&
            var first := s.rows[Root(s.rows, at.value)];
            && event.app == first.app && event.readAt < s.rows[at.value].expires
            && event.out.user == first.grant.user && event.out.resource == first.grant.resource
            && event.out.amr == first.grant.amr && event.out.authTime == first.grant.authTime
            && forall i :: 0 <= i < |event.out.scopes| ==> event.out.scopes[i] in first.grant.scopes
  {
    var s := Run(EMPTY, steps);
    RunKeepsInv(EMPTY, steps);
    assert EventOk(s, s.log[e]);
    InheritsFromRoot(s.rows, Find(s.rows, s.log[e].hash).value);
  }

  lemma StepGrows(s: Sys, st: Step)
    requires Linked(s.rows)
    ensures s.log <= After(s, st).log
  {
    hide RowsAfter, PendingAfter, CodesAfter, RotateOutcome, Linked;
  }

  lemma {:induction false} LogGrows(s: Sys, steps: seq<Step>)
    requires Linked(s.rows)
    ensures s.log <= Run(s, steps).log
  {
    hide After;
    if steps != [] {
      var init := steps[..|steps| - 1];
      LogGrows(s, init);
      StepGrows(Run(s, init), steps[|steps| - 1]);
    }
  }

  // Once reuse has been seen no token of the chain works again, and none of
  // them is ever redeemed, in any continuation.
  lemma ReuseEndsTheChain(before: seq<Step>, hash: string, steps: seq<Step>)
    requires ReuseSeen(hash) in Run(EMPTY, before).log
    ensures var s := Run(EMPTY, before);
            var t := Run(s, steps);
            && Dead(t.rows, hash)
            && forall e :: |s.log| <= e < |t.log| && t.log[e].GrantedTo? ==>
                 Find(t.rows, t.log[e].hash).Some? && !Related(t.rows, hash, Find(t.rows, t.log[e].hash).value)
  {
    var s := Run(EMPTY, before);
    RunKeepsInv(EMPTY, before);
    var k :| 0 <= k < |s.log| && s.log[k] == ReuseSeen(hash);
    assert EventOk(s, s.log[k]);
    DeadEnds(s, hash, steps);
  }

  // The redeemed tokens past `from` are all of other chains.
  ghost predicate Elsewhere(t: Sys, from: nat, hash: string)
    requires Linked(t.rows)
  {
    forall e :: from <= e < |t.log| && t.log[e].GrantedTo? ==>
      Find(t.rows, t.log[e].hash).Some? && !Related(t.rows, hash, Find(t.rows, t.log[e].hash).value)
  }

  lemma {:induction false} DeadEnds(s: Sys, hash: string, steps: seq<Step>)
    requires Inv(s) && Dead(s.rows, hash)
    ensures Dead(Run(s, steps).rows, hash) && Elsewhere(Run(s, steps), |s.log|, hash)
  {
    if steps != [] {
      var init, last := steps[..|steps| - 1], steps[|steps| - 1];
      DeadEnds(s, hash, init);
      RunKeepsInv(s, init);
      LogGrows(s, init);
      DeadStays(Run(s, init), last, hash);
      ElsewhereStays(Run(s, init), last, |s.log|, hash);
    }
  }

  lemma ElsewhereStays(s: Sys, st: Step, from: nat, hash: string)
    requires Inv(s) && Dead(s.rows, hash) && Elsewhere(s, from, hash) && from <= |s.log|
    ensures Elsewhere(After(s, st), from, hash)
  {
    var t := After(s, st);
    hide Inv, Linked, RowsAfter, PendingAfter, CodesAfter, LogAfter, Dead;
    forall e | from <= e < |t.log| && t.log[e].GrantedTo?
      ensures Find(t.rows, t.log[e].hash).Some? && !Related(t.rows, hash, Find(t.rows, t.log[e].hash).value)
    {
      if e < |s.log| {
        StepGrows(s, st);
        assert t.log[e] == s.log[e];
      } else {
        GrantedLive(s, st, e);
      }
      RedeemedElsewhere(s, t.rows, hash, t.log[e].hash);
    }
  }

  lemma GrantedLive(s: Sys, st: Step, e: nat)
    requires Inv(s) && |s.log| <= e < |LogAfter(s, st)| && LogAfter(s, st)[e].GrantedTo?
    ensures var at := Find(s.rows, LogAfter(s, st)[e].hash); at.Some? && !s.rows[at.value].revoked
  {
    NewEventIsOk(s, st);
    GrantIsOk(s, st);
    hide Inv, RowsAfter;
  }

  // A token that was there, live or of another chain, is of another chain still.
  lemma RedeemedElsewhere(s: Sys, later: seq<Row>, hash: string, other: string)
    requires Inv(s) && Linked(later) && Later(s.rows, later) && Dead(s.rows, hash) && Find(s.rows, other).Some?
    requires var k := Find(s.rows, other).value; !s.rows[k].revoked || !Related(s.rows, hash, k)
    ensures Find(later, other).Some? && !Related(later, hash, Find(later, other).value)
  {
    var k := Find(s.rows, other).value;
    FindLater(s.rows, later, other);
    if Related(later, hash, k) {
      RelatedLater(s.rows, later, hash, k);
    }
  }

  // ---- Replayed codes ----

  ghost predicate SomeoneMints(s: Sys, code: string) {
    exists id :: id in s.pending && s.pending[id] == Minting(code)
  }

  // Nothing more can come of the code.
  ghost predicate Closed(s: Sys, code: string) {
    code != "" && code in s.codes && s.codes[code].consumed && CodeDead(s.rows, code) && !SomeoneMints(s, code)
  }

  lemma NewRowIsOther(s: Sys, st: Step, code: string)
    requires Inv(s) && Closed(s, code) && |RowsAfter(s, st)| > |s.rows|
    ensures |RowsAfter(s, st)| == |s.rows| + 1 && RowsAfter(s, st)[|s.rows|].grant.code != code
  {
    if st.Rotate? {
      PendingIsOk(s, st.id);
      HeldAt(s.rows, s.pending[st.id].row);
    } else if st.Mint? {
      assert s.pending[st.id] != Minting(code);
    }
    hide Inv, Linked, Related;
  }

  lemma ClosedRows(s: Sys, st: Step, code: string)
    requires Inv(s) && Closed(s, code)
    ensures CodeDead(RowsAfter(s, st), code)
  {
    hide RowsAfter, Linked, OneLive, Inherited, OncePer, CodesOk, PendingOk, EventOk;
    var r := RowsAfter(s, st);
    forall i | 0 <= i < |r| && r[i].grant.code == code
      ensures r[i].revoked
    {
      if i < |s.rows| {
        assert r[i].(revoked := false) == s.rows[i].(revoked := false);
      } else {
        NewRowIsOther(s, st, code);
      }
    }
  }

  lemma ClosedStays(s: Sys, st: Step, code: string)
    requires Inv(s) && Closed(s, code)
    ensures Closed(After(s, st), code)
  {
    hide Inv, RowsAfter, LogAfter, CodeDead;
    ClosedRows(s, st, code);
    forall id | id in PendingAfter(s, st)
      ensures PendingAfter(s, st)[id] != Minting(code)
    {
      assert id in s.pending ==> s.pending[id] != Minting(code);
    }
  }

  lemma {:induction false} ClosedForGood(s: Sys, code: string, steps: seq<Step>)
    requires Inv(s) && Closed(s, code)
    ensures Closed(Run(s, steps), code)
  {
    if steps != [] {
      var init := steps[..|steps| - 1];
      ClosedForGood(s, code, init);
      RunKeepsInv(s, init);
      hide Inv, Closed, After;
      ClosedStays(Run(s, init), steps[|steps| - 1], code);
    }
  }

  // A string longer than every hash in the table.
  function Longer(rows: seq<Row>): (r: string)
    ensures r != "" && forall i :: 0 <= i < |rows| ==> |rows[i].hash| < |r|
  {
    if rows == [] then "x" else Longer(rows[..|rows| - 1]) + rows[|rows| - 1].hash
  }

  // A request that has consumed the code and not stored its token yet can
  // always still store it.
  lemma MinterMints(s: Sys, code: string)
    requires Inv(s) && code in s.codes && SomeoneMints(s, code)
    ensures exists st :: !CodeDead(Run(s, [st]).rows, code)
  {
    var id :| id in s.pending && s.pending[id] == Minting(code);
    PendingIsOk(s, id);
    hide Inv, SomeoneMints, FamilyRevoked, PendingAfter, CodesAfter, LogAfter, CodeRevoked;
    var st := Mint(id, Longer(s.rows), [], 0);
    var row := FirstRow(code, s.codes[code], Longer(s.rows), [], 0);
    assert Find(s.rows, Longer(s.rows)).None?;
    assert RowsAfter(s, st) == s.rows + [row];
    assert [st][..0] == [] && Run(s, [st]) == After(Run(s, []), st);
    var t := Run(s, [st]);
    assert t.rows[|s.rows|] == row;
  }

  // Seeing a code again revokes every refresh token it led to, for good,
  // exactly when no exchange of it is still about to store one.
  lemma ReplayRevokesForGoodIff(before: seq<Step>, id: nat, code: string)
    requires id in Run(EMPTY, before).pending && Run(EMPTY, before).pending[id] == Replaying(code)
    ensures var s := Run(EMPTY, before);
            var t := After(s, RevokeCode(id));
            && CodeDead(t.rows, code)
            && ((forall steps :: CodeDead(Run(t, steps).rows, code)) <==> !SomeoneMints(s, code))
  {
    var s := Run(EMPTY, before);
    RunKeepsInv(EMPTY, before);
    hide Inv, After, Run, CodeDead, SomeoneMints, Closed;
    var t := After(s, RevokeCode(id));
    StepKeepsInv(s, RevokeCode(id));
    RevokedNow(s, id, code);
    if SomeoneMints(t, code) {
      MinterMints(t, code);
    } else {
      ClosedNow(t, code);
      forall steps
        ensures CodeDead(Run(t, steps).rows, code)
      {
        ClosedForGood(t, code, steps);
        ClosedIsDead(Run(t, steps), code);
      }
    }
  }

  lemma ClosedNow(s: Sys, code: string)
    requires code != "" && code in s.codes && s.codes[code].consumed && CodeDead(s.rows, code) && !SomeoneMints(s, code)
    ensures Closed(s, code)
  {
  }

  lemma ClosedIsDead(s: Sys, code: string)
    requires Closed(s, code)
    ensures CodeDead(s.rows, code)
  {
  }

  lemma RevokedNow(s: Sys, id: nat, code: string)
    requires Inv(s) && id in s.pending && s.pending[id] == Replaying(code)
    ensures var t := After(s, RevokeCode(id));
            && CodeDead(t.rows, code) && (SomeoneMints(t, code) <==> SomeoneMints(s, code))
            && code != "" && code in t.codes && t.codes[code].consumed
  {
    PendingIsOk(s, id);
    hide Inv, Linked, SomeoneMints, PendingAfter, LogAfter, RowsAfter, CodeDead;
    SameMinters(s, id, code);
    CodeRowsRevoked(s, id, code);
  }

  lemma CodeRowsRevoked(s: Sys, id: nat, code: string)
    requires Linked(s.rows) && id in s.pending && s.pending[id] == Replaying(code) && code != ""
    ensures CodeDead(RowsAfter(s, RevokeCode(id)), code)
  {
    assert RowsAfter(s, RevokeCode(id)) == CodeRevoked(s.rows, code);
    hide RowsAfter, Linked;
  }

  lemma PendingIsOk(s: Sys, id: nat)
    requires Inv(s) && id in s.pending
    ensures Linked(s.rows) && PendingOk(s, s.pending[id]) && "" !in s.codes
  {
  }

  lemma SameMinters(s: Sys, id: nat, code: string)
    requires Linked(s.rows) && id in s.pending && s.pending[id] == Replaying(code)
    ensures SomeoneMints(After(s, RevokeCode(id)), code) <==> SomeoneMints(s, code)
  {
    if SomeoneMints(s, code) {
      var m :| m in s.pending && s.pending[m] == Minting(code);
      assert m in After(s, RevokeCode(id)).pending;
    }
  }

  // Unlike a client that loses the race for a code, one that loses the race for
  // a refresh token brings the whole chain down.
  lemma LosingARefreshTokenRevokesTheChain(s: Sys, id: nat, next: string, expires: int)
    requires Inv(s) && id in s.pending && s.pending[id].Rotating? && next != ""
    requires var k := Find(s.rows, s.pending[id].row.hash); k.Some? && s.rows[k.value].revoked
    ensures Dead(Run(s, [Rotate(id, next, expires), RevokeFamily(id)]).rows, s.pending[id].row.hash)
  {
    var lose, revoke := Rotate(id, next, expires), RevokeFamily(id);
    var hash := s.pending[id].row.hash;
    LoserRevokes(s, id, next, expires);
    StepKeepsInv(s, lose);
    TwoSteps(s, lose, revoke);
    hide Inv, After, Run, Dead;
    AfterRevoking(After(s, lose), id, hash);
  }

  lemma LoserRevokes(s: Sys, id: nat, next: string, expires: int)
    requires Linked(s.rows) && id in s.pending && s.pending[id].Rotating? && next != ""
    requires var k := Find(s.rows, s.pending[id].row.hash); k.Some? && s.rows[k.value].revoked
    ensures var t := After(s, Rotate(id, next, expires));
            id in t.pending && t.pending[id] == Reusing(s.pending[id].row.hash)
  {
    hide Linked, RowsAfter;
  }

  lemma AfterRevoking(s: Sys, id: nat, hash: string)
    requires Inv(s) && id in s.pending && s.pending[id] == Reusing(hash)
    ensures Dead(After(s, RevokeFamily(id)).rows, hash)
  {
    assert LogAfter(s, RevokeFamily(id)) == s.log + [ReuseSeen(hash)];
    ReuseIsOk(s, RevokeFamily(id));
  }

  lemma TwoSteps(s: Sys, a: Step, b: Step)
    requires Linked(s.rows)
    ensures Run(s, [a, b]) == After(After(s, a), b)
  {
    hide After, Linked;
    assert [a, b][..1] == [a] && [a][..0] == [];
    assert Run(s, []) == s && Run(s, [a]) == After(Run(s, []), a);
  }

  // The answer hands over the one token of the chain that still works.
  ghost predicate HandsLiveToken(rows: seq<Row>, hash: string, out: Redeemed)
    requires Linked(rows)
  {
    out.next.Some? && exists i :: 0 <= i < |rows| && Related(rows, hash, i) && OnlyLive(rows, hash, i)
                                  && rows[i].hash == out.next.value
  }

  ghost predicate OnlyLive(rows: seq<Row>, hash: string, i: nat)
    requires Linked(rows)
  {
    Live(rows, i) && forall k :: 0 <= k < |rows| && Related(rows, hash, k) && !rows[k].revoked ==> k == i
  }

  // A redemption that wins leaves one working token in the chain, and the client
  // is handed it exactly when the scopes it ends up with hold offline_access.
  lemma SuccessorIsHandedIff(s: Sys, id: nat, next: string, expires: int)
    requires Inv(s) && id in s.pending && s.pending[id].Rotating?
    requires LogAfter(s, Rotate(id, next, expires)) != s.log
    ensures var t, p := After(s, Rotate(id, next, expires)), s.pending[id];
            && |t.log| == |s.log| + 1 && t.log[|s.log|].GrantedTo?
            && |t.rows| == |s.rows| + 1 && t.rows[|s.rows|].hash == next
            && Related(t.rows, p.row.hash, |s.rows|) && OnlyLive(t.rows, p.row.hash, |s.rows|)
            && (HandsLiveToken(t.rows, p.row.hash, t.log[|s.log|].out)
                <==> "offline_access" in (if p.requested != [] then p.requested else p.row.grant.scopes))
            && (t.log[|s.log|].out.next.Some? ==> t.log[|s.log|].out.next.value == next)
            && t.log[|s.log|].out.scopes == (if p.requested != [] then p.requested else p.row.grant.scopes)
  {
    var st, p := Rotate(id, next, expires), s.pending[id];
    var t := After(s, st);
    SuccessorIsLive(s, id, next, expires);
    assert t.log == s.log + [GrantedTo(p.row.hash, p.app, Handed(p.row, p.requested, next), p.readAt)];
    hide Inv, Linked, RowsAfter, PendingAfter, CodesAfter, LogAfter, OnlyLive, Related;
  }

  lemma SuccessorIsLive(s: Sys, id: nat, next: string, expires: int)
    requires Inv(s) && id in s.pending && s.pending[id].Rotating?
    requires LogAfter(s, Rotate(id, next, expires)) != s.log
    ensures var rows, hash := RowsAfter(s, Rotate(id, next, expires)), s.pending[id].row.hash;
            && |rows| == |s.rows| + 1 && rows[|s.rows|].hash == next
            && Related(rows, hash, |s.rows|) && OnlyLive(rows, hash, |s.rows|)
  {
    var st, row := Rotate(id, next, expires), s.pending[id].row;
    var rows, k := RowsAfter(s, st), Find(s.rows, row.hash);
    PendingIsOk(s, id);
    HeldAt(s.rows, row);
    RowsKept(s, st);
    RotatedLinks(s.rows, k.value, Successor(row, s.pending[id].app, next, expires));
    SameRoots(s.rows, rows, k.value);
    hide Inv, Linked, PendingAfter, CodesAfter;
    assert Related(rows, row.hash, |s.rows|);
    forall i | 0 <= i < |rows| && Related(rows, row.hash, i) && !rows[i].revoked
      ensures i == |s.rows|
    {
      RelatedLater(s.rows, rows, row.hash, i);
      assert Live(rows, i) && Live(rows, |s.rows|);
    }
  }
}
