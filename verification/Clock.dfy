/** The controllable clock of internal/clock/clock.go.  The wall clock is the
    `wall` argument of each operation; the mutex makes operations atomic. */
module Clock {

  datatype State = State(offset: int, frozen: bool, frozenAt: int) {
    function Now(wall: int): int { if frozen then frozenAt else wall + offset }
  }

  const START := State(0, false, 0)

  datatype Op = SetOffset(seconds: int) | Advance(delta: int) | Freeze | Unfreeze | Reset

  function Step(s: State, op: Op, wall: int): State {
    match op
    case SetOffset(seconds) => s.(offset := seconds, frozen := false)
    case Advance(delta) => if s.frozen then s.(frozenAt := s.frozenAt + delta) else s.(offset := s.offset + delta)
    case Freeze => if s.frozen then s else s.(frozenAt := wall + s.offset, frozen := true)
    case Unfreeze => if s.frozen then s.(offset := s.frozenAt - wall, frozen := false) else s
    case Reset => START
  }

  class ControlledClock {
    var offset: int
    var frozen: bool
    var frozenAt: int

    function Abs(): State
      reads this
    {
      State(offset, frozen, frozenAt)
    }

    constructor ()
      ensures Abs() == START
    {
      offset, frozen, frozenAt := 0, false, 0;
    }

    method Now(wall: int) returns (now: int)
      ensures now == Abs().Now(wall)
    {
      if frozen {
        return frozenAt;
      }
      now := wall + offset;
    }

    method SetOffset(seconds: int)
      modifies this
      ensures Abs() == Step(old(Abs()), Op.SetOffset(seconds), 0)
    {
      offset := seconds;
      frozen := false;
    }

    method Advance(seconds: int)
      modifies this
      ensures Abs() == Step(old(Abs()), Op.Advance(seconds), 0)
    {
      if frozen {
        frozenAt := frozenAt + seconds;
        return;
      }
      offset := offset + seconds;
    }

    method Freeze(wall: int)
      modifies this
      ensures Abs() == Step(old(Abs()), Op.Freeze, wall)
    {
      if !frozen {
        frozenAt := wall + offset;
        frozen := true;
      }
    }

    method Unfreeze(wall: int)
      modifies this
      ensures Abs() == Step(old(Abs()), Op.Unfreeze, wall)
    {
      if frozen {
        offset := frozenAt - wall;
        frozen := false;
      }
    }

    method Reset()
      modifies this
      ensures Abs() == START
    {
      offset := 0;
      frozen := false;
      frozenAt := 0;
    }
  }

  // ---- Runs ----

  // An operation and the wall clock it happens at.
  datatype Event = Event(op: Op, wall: int)

  function Run(s: State, events: seq<Event>): State {
    if events == [] then s
    else
      var last := events[|events| - 1];
      Step(Run(s, events[..|events| - 1]), last.op, last.wall)
  }

  // A stopwatch with no offsets: a value that grows with the wall clock while
  // it runs.
  datatype Watch = Watch(value: int, running: bool, seen: int) {
    function Seen(wall: int): Watch { Watch(if running then value + (wall - seen) else value, running, wall) }
  }

  function WatchStep(w: Watch, op: Op, wall: int): Watch {
    var now := w.Seen(wall);
    match op
    case SetOffset(seconds) => Watch(wall + seconds, true, wall)
    case Advance(delta) => now.(value := now.value + delta)
    case Freeze => now.(running := false)
    case Unfreeze => now.(running := true)
    case Reset => Watch(wall, true, wall)
  }

  function WatchRun(w: Watch, events: seq<Event>): Watch {
    if events == [] then w
    else
      var last := events[|events| - 1];
      WatchStep(WatchRun(w, events[..|events| - 1]), last.op, last.wall)
  }

  function WatchOf(s: State, wall: int): Watch { Watch(s.Now(wall), !s.frozen, wall) }

  // The clock reads what the stopwatch reads, at every later wall clock.
  lemma {:induction false} ClockIsStopwatch(s: State, start: int, events: seq<Event>, wall: int)
    ensures Run(s, events).Now(wall) == WatchRun(WatchOf(s, start), events).Seen(wall).value
    ensures Run(s, events).frozen == !WatchRun(WatchOf(s, start), events).running
  {
    if events != [] {
      var init, last := events[..|events| - 1], events[|events| - 1];
      ClockIsStopwatch(s, start, init, last.wall);
      ClockIsStopwatch(s, start, init, wall);
    }
  }

  // ---- Where the time comes from ----

  function LastWall(start: int, events: seq<Event>): int {
    if events == [] then start else events[|events| - 1].wall
  }

  ghost predicate Relative(events: seq<Event>) {
    forall i :: 0 <= i < |events| ==> !events[i].op.SetOffset? && !events[i].op.Reset?
  }

  // The wall clock never goes back along the run.
  predicate Forward(start: int, events: seq<Event>) {
    events == []
    || (var init := events[..|events| - 1];
        Forward(start, init) && LastWall(start, init) <= events[|events| - 1].wall)
  }

  predicate FrozenAfter(frozen: bool, events: seq<Event>) {
    if events == [] then frozen
    else
      var op := events[|events| - 1].op;
      if op.Freeze? then true
      else if op.Advance? then FrozenAfter(frozen, events[..|events| - 1])
      else false
  }

  // Wall-clock time that passed while the clock was not frozen.
  function Unfrozen(frozen: bool, start: int, events: seq<Event>): int {
    if events == [] then 0
    else
      var init := events[..|events| - 1];
      Unfrozen(frozen, start, init)
        + if FrozenAfter(frozen, init) then 0 else LastWall(start, events) - LastWall(start, init)
  }

  function Advances(events: seq<Event>): int {
    if events == [] then 0
    else
      var op := events[|events| - 1].op;
      Advances(events[..|events| - 1]) + if op.Advance? then op.delta else 0
  }

  // Up to the wall clock `wall`, after any run of Freeze, Unfreeze and Advance.
  lemma {:induction false} TimeAddsUp(s: State, start: int, events: seq<Event>, wall: int)
    requires Relative(events)
    ensures Run(s, events).frozen == FrozenAfter(s.frozen, events)
    ensures Run(s, events).Now(wall)
            == s.Now(start) + Unfrozen(s.frozen, start, events) + Advances(events)
               + if FrozenAfter(s.frozen, events) then 0 else wall - LastWall(start, events)
  {
    if events != [] {
      var init, last := events[..|events| - 1], events[|events| - 1];
      TimeAddsUp(s, start, init, last.wall);
      TimeAddsUp(s, start, init, wall);
    }
  }

  // Freezing and unfreezing move the reading at no wall clock they happen at.
  lemma NoJump(s: State, op: Op, wall: int)
    ensures op.Freeze? || op.Unfreeze? ==> Step(s, op, wall).Now(wall) == s.Now(wall)
    ensures op.Advance? ==> Step(s, op, wall).Now(wall) == s.Now(wall) + op.delta
    ensures op.SetOffset? ==> Step(s, op, wall).Now(wall) == wall + op.seconds
    ensures op.Reset? ==> Step(s, op, wall).Now(wall) == wall
  {
  }

  // With no advance backwards the reading never goes back along a run.
  lemma {:induction false} NeverGoesBack(s: State, start: int, events: seq<Event>, i: nat, wall: int)
    requires Relative(events) && Forward(start, events) && i <= |events|
    requires forall j :: 0 <= j < |events| && events[j].op.Advance? ==> events[j].op.delta >= 0
    requires LastWall(start, events) <= wall
    ensures Run(s, events[..i]).Now(LastWall(start, events[..i])) <= Run(s, events).Now(wall)
    decreases |events|
  {
    if i == |events| {
      assert events[..i] == events;
    } else {
      var init, last := events[..|events| - 1], events[|events| - 1];
      assert init[..i] == events[..i];
      assert LastWall(start, init) <= last.wall;
      NeverGoesBack(s, start, init, i, last.wall);
    }
  }
}
