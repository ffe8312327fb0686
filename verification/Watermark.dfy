/** Incremental provisioning under concurrency. Directory writers, a movable clock
    and any number of overlapping sync cycles interleave step by step; the
    question is which committed changes a later cycle may pass over unprocessed.

    The answer is exact: a change is safe in every continuation if and only if, at
    its commit, its stamp is not already behind the watermark or behind a cycle in
    flight. Writers that stamp and commit at one clock reading, on a clock that
    never moves back, are always on the safe side of that condition. */
module Watermark {
  import Provisioning

  // One committed value of a user row; the serial tells commits apart.
  datatype Version = Version(id: string, stamp: int, serial: nat)

  // What a cycle in flight has read so far, in the order it reads.
  datatype Phase =
    | Began(incremental: bool, wm: int)
    | Clocked(incremental: bool, wm: int, start: int)
    | Sending(incremental: bool, wm: int, start: int, rows: seq<Version>, next: nat)

  datatype State = State(clock: int, watermark: int, current: map<string, Version>, syncs: map<nat, Phase>,
                         processed: set<Version>, safe: set<Version>, serial: nat)

  datatype Step =
    | Tick(clock: int)
    | Write(id: string, stamp: int)
    | Delete(id: string)
    | Begin(sync: nat, incremental: bool)
    | ReadClock(sync: nat)
    | List(sync: nat, rows: seq<Version>)
    | Send(sync: nat)
    | Finish(sync: nat)
    | Abandon(sync: nat)

  // Which comparison the cycle uses: the code's strict one, or the inclusive
  // one its comment argues against.
  datatype Comparison = Strict | Inclusive

  predicate PassesOver(cmp: Comparison, incremental: bool, stamp: int, wm: int) {
    match cmp
    case Strict => Provisioning.Skips(incremental, stamp, wm)
    case Inclusive => incremental && stamp <= wm
  }

  // Committing a version with this stamp now would leave it behind the
  // watermark, or behind a cycle that no longer reads it or will pass it over.
  ghost predicate Exposed(s: State, stamp: int) {
    stamp < s.watermark || exists k :: k in s.syncs && ExposedBy(s.syncs[k], stamp)
  }

  predicate ExposedBy(p: Phase, stamp: int) {
    match p
    case Began(incremental, wm) => incremental && stamp < wm
    case Clocked(incremental, wm, start) => incremental && stamp < wm && stamp < start
    case Sending(_, _, start, _, _) => stamp < start
  }

  ghost predicate Enabled(s: State, step: Step) {
    match step
    case Tick(_) => true
    case Write(_, _) => true
    case Delete(id) => id in s.current
    case Begin(k, _) => k !in s.syncs
    case ReadClock(k) => k in s.syncs && s.syncs[k].Began?
    case List(k, rows) =>
      k in s.syncs && s.syncs[k].Clocked?
      && (forall v :: v in rows <==> v.id in s.current && s.current[v.id] == v)
    case Send(k) => k in s.syncs && s.syncs[k].Sending? && s.syncs[k].next < |s.syncs[k].rows|
    case Finish(k) => k in s.syncs && s.syncs[k].Sending? && s.syncs[k].next == |s.syncs[k].rows|
    case Abandon(k) => k in s.syncs
  }

  ghost function Apply(cmp: Comparison, s: State, step: Step): State
    requires Enabled(s, step)
  {
    match step
    case Tick(clock) => s.(clock := clock)
    case Write(id, stamp) =>
      var v := Version(id, stamp, s.serial);
      s.(current := s.current[id := v], serial := s.serial + 1,
         safe := if Exposed(s, stamp) then s.safe else s.safe + {v})
    case Delete(id) => s.(current := s.current - {id})
    case Begin(k, incremental) => s.(syncs := s.syncs[k := Began(incremental, s.watermark)])
    case ReadClock(k) => s.(syncs := s.syncs[k := Clocked(s.syncs[k].incremental, s.syncs[k].wm, s.clock)])
    case List(k, rows) =>
      var p := s.syncs[k];
      s.(syncs := s.syncs[k := Sending(p.incremental, p.wm, p.start, rows, 0)])
    case Send(k) =>
      var p := s.syncs[k];
      var v := p.rows[p.next];
      s.(syncs := s.syncs[k := p.(next := p.next + 1)],
         processed := if PassesOver(cmp, p.incremental, v.stamp, p.wm) then s.processed else s.processed + {v})
    case Finish(k) => s.(watermark := s.syncs[k].start, syncs := s.syncs - {k})
    case Abandon(k) => s.(syncs := s.syncs - {k})
  }

  ghost predicate Run(cmp: Comparison, s: State, steps: seq<Step>)
    decreases |steps|
  {
    steps == [] || (Enabled(s, steps[0]) && Run(cmp, Apply(cmp, s, steps[0]), steps[1..]))
  }

  ghost function After(cmp: Comparison, s: State, steps: seq<Step>): State
    requires Run(cmp, s, steps)
    decreases |steps|
  {
    if steps == [] then s else After(cmp, Apply(cmp, s, steps[0]), steps[1..])
  }

  function Initial(clock: int): State {
    State(clock, 0, map[], map[], {}, {}, 0)
  }

  // ---- No change is lost ----

  ghost predicate IsCurrent(s: State, v: Version) {
    v.id in s.current && s.current[v.id] == v
  }

  // Current, behind the watermark, and never looked at by any cycle.
  ghost predicate Lost(s: State, v: Version) {
    IsCurrent(s, v) && v.stamp < s.watermark && v !in s.processed
  }

  ghost predicate Pending(p: Phase, v: Version) {
    p.Sending? && exists j :: p.next <= j < |p.rows| && p.rows[j] == v
  }

  ghost predicate Inv(s: State) {
    && (forall id :: id in s.current ==> s.current[id].id == id)
    && (forall v :: v in s.safe && IsCurrent(s, v) && v.stamp < s.watermark ==> v in s.processed)
    && (forall k, v :: k in s.syncs && v in s.safe && IsCurrent(s, v) ==> Covered(s, s.syncs[k], v))
    && (forall v :: v in s.safe || v in s.processed || IsCurrent(s, v) ==> v.serial < s.serial)
    && (forall k :: k in s.syncs && s.syncs[k].Sending? ==> s.syncs[k].next <= |s.syncs[k].rows|)
    && (forall k, v :: k in s.syncs && s.syncs[k].Sending? && v in s.syncs[k].rows ==> v.serial < s.serial)
  }

  ghost predicate Covered(s: State, p: Phase, v: Version) {
    match p
    case Began(incremental, wm) => incremental && v.stamp < wm ==> v in s.processed
    case Clocked(incremental, wm, start) => incremental && v.stamp < wm && v.stamp < start ==> v in s.processed
    case Sending(incremental, wm, start, _, _) =>
      && (incremental && v.stamp < wm && v.stamp < start ==> v in s.processed)
      && (v.stamp < start ==> v in s.processed || Pending(p, v))
  }

  lemma StepKeepsInv(s: State, step: Step)
    requires Inv(s) && Enabled(s, step)
    ensures Inv(Apply(Strict, s, step))
  {
    var t := Apply(Strict, s, step);
    forall k, v | k in t.syncs && v in t.safe && IsCurrent(t, v)
      ensures Covered(t, t.syncs[k], v)
    {
      match step
      case Write(id, stamp) =>
        if v.serial < s.serial {
          assert IsCurrent(s, v) && v in s.safe;
          assert Covered(s, s.syncs[k], v);
        } else {
          assert !Exposed(s, stamp);
          assert !ExposedBy(s.syncs[k], stamp);
        }
      case Begin(j, incremental) =>
        assert k != j ==> Covered(s, s.syncs[k], v);
      case List(j, rows) =>
        assert Covered(s, s.syncs[k], v);
        if k == j {
          assert v in rows;
          assert Pending(t.syncs[k], v);
        }
      case Send(j) =>
        assert Covered(s, s.syncs[k], v);
        SendCovers(s, j, k, v);
      case _ =>
        assert Covered(s, s.syncs[k], v);
    }
    forall v | v in t.safe && IsCurrent(t, v) && v.stamp < t.watermark
      ensures v in t.processed
    {
      if step.Finish? {
        assert Covered(s, s.syncs[step.sync], v);
      } else if !step.Write? {
        assert IsCurrent(s, v);
      }
    }
  }

  lemma SendCovers(s: State, j: nat, k: nat, v: Version)
    requires Inv(s) && Enabled(s, Send(j)) && k in s.syncs && v in s.safe && IsCurrent(s, v)
    ensures var t := Apply(Strict, s, Send(j)); Covered(t, t.syncs[k], v)
  {
    var t := Apply(Strict, s, Send(j));
    var p := s.syncs[k];
    assert Covered(s, p, v);
    if k == j && v.stamp < p.start && v !in t.processed {
      var i :| p.next <= i < |p.rows| && p.rows[i] == v;
      assert i != p.next;
      assert Pending(t.syncs[k], v);
    }
  }

  lemma {:induction false} RunKeepsInv(s: State, steps: seq<Step>)
    requires Inv(s) && Run(Strict, s, steps)
    ensures Inv(After(Strict, s, steps))
    decreases |steps|
  {
    if steps != [] {
      StepKeepsInv(s, steps[0]);
      RunKeepsInv(Apply(Strict, s, steps[0]), steps[1..]);
    }
  }

  // In every interleaving, a change that was not exposed when it was committed
  // is processed by some cycle before the watermark passes it.
  lemma NoSafeChangeIsLost(clock: int, steps: seq<Step>, v: Version)
    requires Run(Strict, Initial(clock), steps)
    requires v in After(Strict, Initial(clock), steps).safe
    ensures !Lost(After(Strict, Initial(clock), steps), v)
  {
    RunKeepsInv(Initial(clock), steps);
  }

  // ---- Writers and a clock as the store has them ----

  // Every write is stamped and committed at one clock reading, and the clock
  // never moves back.
  predicate Orderly(clock: int, steps: seq<Step>)
    decreases |steps|
  {
    steps == [] ||
    match steps[0]
    case Tick(to) => clock <= to && Orderly(to, steps[1..])
    case Write(_, stamp) => stamp == clock && Orderly(clock, steps[1..])
    case _ => Orderly(clock, steps[1..])
  }

  // No reading any cycle holds is ahead of the clock.
  ghost predicate Behind(s: State) {
    && s.watermark <= s.clock
    && (forall k :: k in s.syncs ==> s.syncs[k].wm <= s.clock && (s.syncs[k].Began? || s.syncs[k].start <= s.clock))
    && (forall id :: id in s.current ==> s.current[id] in s.safe)
  }

  lemma {:induction false} OrderlyWritesAreSafe(cmp: Comparison, s: State, steps: seq<Step>)
    requires Behind(s) && Run(cmp, s, steps) && Orderly(s.clock, steps)
    ensures Behind(After(cmp, s, steps))
    decreases |steps|
  {
    if steps != [] {
      var t := Apply(cmp, s, steps[0]);
      if steps[0].Write? {
        assert !Exposed(s, s.clock);
      }
      assert Behind(t);
      OrderlyWritesAreSafe(cmp, t, steps[1..]);
    }
  }

  // The repository's claim: however cycles, writes and ticks interleave, every
  // current version stamped before the watermark has been processed.
  lemma NoChangeIsLost(clock: int, steps: seq<Step>)
    requires 0 <= clock && Run(Strict, Initial(clock), steps) && Orderly(clock, steps)
    ensures var s := After(Strict, Initial(clock), steps);
            forall id :: id in s.current && s.current[id].stamp < s.watermark ==> s.current[id] in s.processed
  {
    OrderlyWritesAreSafe(Strict, Initial(clock), steps);
    RunKeepsInv(Initial(clock), steps);
  }

  // ---- Exposed changes can be lost ----

  lemma {:induction false} Listing(m: map<string, Version>) returns (rows: seq<Version>)
    requires forall id :: id in m ==> m[id].id == id
    ensures forall v :: v in rows <==> v.id in m && m[v.id] == v
    decreases |m|
  {
    if m == map[] {
      rows := [];
    } else {
      var id :| id in m;
      var rest := Listing(m - {id});
      rows := rest + [m[id]];
    }
  }

  // A cycle that has made its list runs to its end without looking at v.
  lemma {:induction false} RunOut(s: State, k: nat, v: Version) returns (steps: seq<Step>)
    requires k in s.syncs && s.syncs[k].Sending? && s.syncs[k].next <= |s.syncs[k].rows|
    requires IsCurrent(s, v) && v !in s.processed && v.stamp < s.syncs[k].start
    requires v !in s.syncs[k].rows || (s.syncs[k].incremental && v.stamp < s.syncs[k].wm)
    ensures Run(Strict, s, steps) && Lost(After(Strict, s, steps), v)
    decreases |s.syncs[k].rows| - s.syncs[k].next
  {
    var p := s.syncs[k];
    if p.next == |p.rows| {
      steps := [Finish(k)];
      assert steps[1..] == [];
      assert After(Strict, s, steps) == Apply(Strict, s, Finish(k));
    } else {
      var rest := RunOut(Apply(Strict, s, Send(k)), k, v);
      steps := [Send(k)] + rest;
      assert steps[1..] == rest;
    }
  }

  // The converse of NoSafeChangeIsLost: whenever a write is exposed, some
  // continuation loses it.
  lemma ExposedChangeCanBeLost(clock: int, past: seq<Step>, id: string, stamp: int) returns (steps: seq<Step>)
    requires Run(Strict, Initial(clock), past) && Exposed(After(Strict, Initial(clock), past), stamp)
    ensures var s := After(Strict, Initial(clock), past);
            var t := Apply(Strict, s, Write(id, stamp));
            Run(Strict, t, steps) && Lost(After(Strict, t, steps), Version(id, stamp, s.serial))
  {
    RunKeepsInv(Initial(clock), past);
    var s := After(Strict, Initial(clock), past);
    var t := Apply(Strict, s, Write(id, stamp));
    var v := Version(id, stamp, s.serial);
    if stamp < s.watermark {
      steps := [];
    } else {
      var k :| k in s.syncs && ExposedBy(s.syncs[k], stamp);
      steps := ExposingCycleLoses(t, k, v);
    }
  }

  // The cycle that exposes v goes on, and v is lost when it ends.
  lemma ExposingCycleLoses(t: State, k: nat, v: Version) returns (steps: seq<Step>)
    requires forall id :: id in t.current ==> t.current[id].id == id
    requires IsCurrent(t, v) && v !in t.processed && k in t.syncs && ExposedBy(t.syncs[k], v.stamp)
    requires t.syncs[k].Sending? ==> t.syncs[k].next <= |t.syncs[k].rows| && v !in t.syncs[k].rows
    ensures Run(Strict, t, steps) && Lost(After(Strict, t, steps), v)
    decreases if t.syncs[k].Began? then 2 else if t.syncs[k].Clocked? then 1 else 0
  {
    match t.syncs[k]
    case Sending(_, _, _, _, _) =>
      steps := RunOut(t, k, v);
    case Clocked(_, _, _) =>
      var rows := Listing(t.current);
      var rest := RunOut(Apply(Strict, t, List(k, rows)), k, v);
      steps := Prepend(Strict, t, List(k, rows), rest);
    case Began(_, _) =>
      var t1 := Apply(Strict, t, Tick(v.stamp + 1));
      var rest := ExposingCycleLoses(Apply(Strict, t1, ReadClock(k)), k, v);
      var tail := Prepend(Strict, t1, ReadClock(k), rest);
      steps := Prepend(Strict, t, Tick(v.stamp + 1), tail);
  }

  // ---- Why the comparison is strict ----

  // With the inclusive comparison an orderly run loses a change: it is
  // committed in the second a cycle started, after that cycle made its list.
  lemma InclusiveLosesChange(c: int) returns (steps: seq<Step>, s: State, v: Version)
    requires 0 < c
    ensures Run(Inclusive, Initial(c), steps) && Orderly(c, steps)
    ensures s == After(Inclusive, Initial(c), steps) && Lost(s, v) && v.stamp == c
  {
    v := Version("u", c, 0);
    var s0 := Initial(c);
    var s1 := Apply(Inclusive, s0, Begin(0, true));
    var s2 := Apply(Inclusive, s1, ReadClock(0));
    var s3 := Apply(Inclusive, s2, List(0, []));
    var s4 := Apply(Inclusive, s3, Write("u", c));
    var s5 := Apply(Inclusive, s4, Finish(0));
    assert s5 == State(c, c, map["u" := v], map[], {}, s5.safe, 1);
    var r5;
    r5, s := BoundaryPassedOver(s5, c, v);
    var r4 := Prepend(Inclusive, s4, Finish(0), r5);
    var r3 := Prepend(Inclusive, s3, Write("u", c), r4);
    var r2 := Prepend(Inclusive, s2, List(0, []), r3);
    var r1 := Prepend(Inclusive, s1, ReadClock(0), r2);
    steps := Prepend(Inclusive, s0, Begin(0, true), r1);
    assert Orderly(c, r4) && Orderly(c, r3) && Orderly(c, r2) && Orderly(c, r1);
  }

  // The next incremental cycle passes over a change stamped at the watermark.
  lemma BoundaryPassedOver(s5: State, c: int, v: Version) returns (steps: seq<Step>, s: State)
    requires s5.clock == s5.watermark == v.stamp == c && s5.syncs == map[] && s5.processed == {}
    requires s5.current == map[v.id := v]
    ensures Run(Inclusive, s5, steps) && Orderly(c, steps)
    ensures s == After(Inclusive, s5, steps) && Lost(s, v)
  {
    var s6 := Apply(Inclusive, s5, Begin(1, true));
    var s7 := Apply(Inclusive, s6, Tick(c + 1));
    var s8 := Apply(Inclusive, s7, ReadClock(1));
    var s9 := Apply(Inclusive, s8, List(1, [v]));
    var s10 := Apply(Inclusive, s9, Send(1));
    s := Apply(Inclusive, s10, Finish(1));
    var r10 := Prepend(Inclusive, s10, Finish(1), []);
    var r9 := Prepend(Inclusive, s9, Send(1), r10);
    var r8 := Prepend(Inclusive, s8, List(1, [v]), r9);
    var r7 := Prepend(Inclusive, s7, ReadClock(1), r8);
    var r6 := Prepend(Inclusive, s6, Tick(c + 1), r7);
    steps := Prepend(Inclusive, s5, Begin(1, true), r6);
    assert Orderly(c + 1, r10) && Orderly(c + 1, r9) && Orderly(c + 1, r8) && Orderly(c + 1, r7) && Orderly(c, r6);
  }

  lemma Prepend(cmp: Comparison, s: State, step: Step, rest: seq<Step>) returns (steps: seq<Step>)
    requires Enabled(s, step) && Run(cmp, Apply(cmp, s, step), rest)
    ensures steps == [step] + rest && steps[1..] == rest
    ensures Run(cmp, s, steps) && After(cmp, s, steps) == After(cmp, Apply(cmp, s, step), rest)
  {
    steps := [step] + rest;
    assert steps[1..] == rest;
  }

  // ---- The steps of one cycle, run together ----

  // The versions a listing of users shows.
  predicate Shows(rows: seq<Version>, users: seq<Provisioning.User>) {
    && |rows| == |users|
    && forall i :: 0 <= i < |rows| ==> rows[i].id == users[i].id && rows[i].stamp == users[i].updatedAt
  }

  // The rows a cycle does not pass over.
  function LookedAt(rows: seq<Version>, incremental: bool, wm: int): set<Version> {
    set v | v in rows && !Provisioning.Skips(incremental, v.stamp, wm)
  }

  lemma {:induction false} SendToTheEnd(s: State, k: nat) returns (steps: seq<Step>)
    requires k in s.syncs && s.syncs[k].Sending? && s.syncs[k].next <= |s.syncs[k].rows|
    ensures Run(Strict, s, steps)
    ensures var p := s.syncs[k];
            After(Strict, s, steps)
            == s.(watermark := p.start, syncs := s.syncs - {k},
                  processed := s.processed + LookedAt(p.rows[p.next..], p.incremental, p.wm))
    decreases |s.syncs[k].rows| - s.syncs[k].next
  {
    var p := s.syncs[k];
    if p.next == |p.rows| {
      assert LookedAt(p.rows[p.next..], p.incremental, p.wm) == {};
      steps := Prepend(Strict, s, Finish(k), []);
    } else {
      var t := Apply(Strict, s, Send(k));
      var rest := SendToTheEnd(t, k);
      assert p.rows[p.next..] == [p.rows[p.next]] + p.rows[p.next + 1..];
      assert t.processed + LookedAt(p.rows[p.next + 1..], p.incremental, p.wm)
          == s.processed + LookedAt(p.rows[p.next..], p.incremental, p.wm);
      assert t.syncs - {k} == s.syncs - {k};
      steps := Prepend(Strict, s, Send(k), rest);
    }
  }

  // A cycle nobody interrupts is the provisioner's: it leaves the moment it
  // started as the watermark, it processes the listed rows the provisioner does
  // not pass over and no other, and for those alone the provisioner sends
  // anything, whatever the target answers.
  lemma UninterruptedCycle(
      s: State, k: nat, incremental: bool, rows: seq<Version>, users: seq<Provisioning.User>,
      replies: Provisioning.Replies, w: Provisioning.World)
    returns (steps: seq<Step>)
    requires k !in s.syncs && Shows(rows, users)
    requires forall v :: v in rows <==> v.id in s.current && s.current[v.id] == v
    ensures Run(Strict, s, steps)
    ensures var t := After(Strict, s, steps);
            var due := Provisioning.Due(users, incremental, s.watermark);
            && t == s.(watermark := s.clock, processed := t.processed)
            && (forall i :: 0 <= i < |rows| ==> (rows[i] in t.processed <==> rows[i] in s.processed || users[i] in due))
            && (forall v :: v !in rows ==> (v in t.processed <==> v in s.processed))
            && Provisioning.UsersLoop(replies, w, users, incremental, s.watermark, Provisioning.NOTHING).0
               == Provisioning.UsersLoop(replies, w, due, false, s.watermark, Provisioning.NOTHING).0
  {
    var s1 := Apply(Strict, s, Begin(k, incremental));
    var s2 := Apply(Strict, s1, ReadClock(k));
    var s3 := Apply(Strict, s2, List(k, rows));
    var r3 := SendToTheEnd(s3, k);
    assert rows[0..] == rows && s3.syncs - {k} == s.syncs;
    var r2 := Prepend(Strict, s2, List(k, rows), r3);
    var r1 := Prepend(Strict, s1, ReadClock(k), r2);
    steps := Prepend(Strict, s, Begin(k, incremental), r1);
    Provisioning.DueRows(users, incremental, s.watermark);
    Provisioning.OnlyDueRowsAreSent(
      replies, w, users, incremental, s.watermark, Provisioning.NOTHING, Provisioning.NOTHING);
  }

  // ---- Lost, not delayed ----

  // Every reading a cycle holds is past v's stamp, so cycles that stay
  // incremental never come back to it.
  ghost predicate PassedBy(s: State, v: Version) {
    && Lost(s, v) && v.stamp < s.clock
    && forall k :: k in s.syncs ==>
         && s.syncs[k].incremental && v.stamp < s.syncs[k].wm
         && (!s.syncs[k].Began? ==> v.stamp < s.syncs[k].start)
  }

  predicate LeavesAlone(step: Step, v: Version) {
    match step
    case Tick(to) => v.stamp < to
    case Write(id, _) => id != v.id
    case Delete(id) => id != v.id
    case Begin(_, incremental) => incremental
    case _ => true
  }

  lemma {:induction false} LostStaysLost(s: State, v: Version, steps: seq<Step>)
    requires PassedBy(s, v) && Run(Strict, s, steps)
    requires forall i :: 0 <= i < |steps| ==> LeavesAlone(steps[i], v)
    ensures PassedBy(After(Strict, s, steps), v)
    decreases |steps|
  {
    if steps != [] {
      assert LeavesAlone(steps[0], v);
      LostStaysLost(Apply(Strict, s, steps[0]), v, steps[1..]);
    }
  }
}
