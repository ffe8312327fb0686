/** The two audit rings of internal/audit/audit.go and internal/audit/directory.go:
    the same fixed array written in place, read back by different index formulas
    and limit rules. */
module AuditRings {

  const DEFAULT_CAPACITY := 500

  function Newest<E>(history: seq<E>, n: nat): (r: seq<E>)
    requires n <= |history|
    ensures |r| == n && forall i :: 0 <= i < n ==> r[i] == history[|history| - 1 - i]
  {
    seq(n, i requires 0 <= i < n => history[|history| - 1 - i])
  }

  function Held(history: nat, capacity: nat): nat {
    if history < capacity then history else capacity
  }

  // What a listing of `limit` shows of everything recorded since the last clear.
  function Listing<E>(history: seq<E>, capacity: nat, limit: int): seq<E> {
    var n := Held(|history|, capacity);
    Newest(history, if 0 < limit < n then limit else n)
  }

  // Recording puts the event in front and pushes out the oldest once the ring
  // is full; a limit only shortens the list.
  lemma ListingAfterRecord<E>(history: seq<E>, e: E, capacity: nat, limit: int)
    requires capacity >= 1
    ensures var before, after := Listing(history, capacity, 0), Listing(history + [e], capacity, 0);
            after == [e] + (if |before| < capacity then before else before[..capacity - 1])
    ensures limit > 0 ==>
              var all := Listing(history, capacity, 0);
              Listing(history, capacity, limit) == if limit < |all| then all[..limit] else all
    ensures limit <= 0 ==> Listing(history, capacity, limit) == Listing(history, capacity, 0)
  {
  }

  lemma ModuloStep(x: int, y: int, c: int)
    requires c > 0 && 0 <= y < c && (x == y || x == y + c || x == y + 2 * c)
    ensures x % c == y
  {
    Remainder(x, if x == y then 0 else if x == y + c then 1 else 2, y, c);
  }

  lemma Remainder(x: int, q: int, r: int, c: int)
    requires c > 0 && 0 <= r < c && x == q * c + r
    ensures x % c == r
  {
    var p := x / c;
    assert (p - q) * c == r - x % c by {
      assert (p - q) * c == p * c - q * c;
    }
    SmallMultiple(p - q, c);
  }

  lemma SmallMultiple(k: int, c: int)
    requires c > 0 && -c < k * c < c
    ensures k == 0
  {
    if k >= 1 {
      Scale(k, c);
    } else if k <= -1 {
      Scale(-k, c);
    }
  }

  lemma Scale(k: int, c: int)
    requires k >= 1 && c > 0
    ensures k * c >= c
  {
    assert (k - 1) * c >= 0;
    assert k * c == (k - 1) * c + c;
  }

  class Ring<E(0)> {
    var buf: array<E>
    var next: nat
    var full: bool
    const cap: nat
    // Everything recorded since the ring was made or last cleared.
    ghost var history: seq<E>

    ghost predicate Valid()
      reads this, buf
    {
      && cap >= 1 && buf.Length == cap && next < cap
      && full == (|history| >= cap)
      && next == |history| % cap
      && forall i :: 0 <= i < Held(|history|, cap) ==> buf[Slot(i)] == history[|history| - 1 - i]
    }

    // Where the i-th newest event is.
    function Slot(i: int): (s: int)
      requires cap >= 1 && next < cap && 0 <= i < cap
      reads this
      ensures 0 <= s < cap
    {
      if i < next then next - 1 - i else next - 1 - i + cap
    }

    constructor (capacity: int)
      ensures Valid() && fresh(buf) && history == []
      ensures cap == if capacity <= 0 then 500 else capacity
    {
      var size := if capacity <= 0 then DEFAULT_CAPACITY else capacity;
      cap := size;
      buf := new E[size];
      next, full, history := 0, false, [];
    }

    method Record(e: E)
      requires Valid()
      modifies this`next, this`full, this`history, buf
      ensures Valid() && history == old(history) + [e]
    {
      buf[next] := e;
      NextIndex(next, cap, |history|);
      next := (next + 1) % cap;
      if next == 0 {
        full := true;
      }
      history := history + [e];
      forall i | 0 <= i < Held(|history|, cap)
        ensures buf[Slot(i)] == history[|history| - 1 - i]
      {
        if i > 0 {
          assert old(buf[Slot(i - 1)]) == old(history)[|old(history)| - 1 - (i - 1)];
        }
      }
    }

    // The sign-in log's List: stops once limit events are out.
    method List(limit: int) returns (out: seq<E>)
      requires Valid()
      ensures out == Listing(history, cap, limit)
    {
      var n := next;
      if full {
        n := cap;
      }
      HeldIs(next, cap, |history|, full);
      out := [];
      var i := 0;
      while i < n
        invariant 0 <= i <= n && (limit > 0 ==> i < limit || i == 0)
        invariant out == Newest(history, i)
      {
        ModuloStep(next - 1 - i + cap, Slot(i), cap);
        var idx := (next - 1 - i + cap) % cap;
        out := out + [buf[idx]];
        assert out == Newest(history, i + 1);
        if limit > 0 && |out| >= limit {
          break;
        }
        i := i + 1;
      }
    }

    // The directory log's List: the limit is clamped first.
    method ListDirectory(limit: int) returns (out: seq<E>)
      requires Valid()
      ensures out == Listing(history, cap, limit)
    {
      var n := next;
      if full {
        n := cap;
      }
      HeldIs(next, cap, |history|, full);
      var shown := limit;
      if shown <= 0 || shown > n {
        shown := n;
      }
      out := [];
      for i := 0 to shown
        invariant out == Newest(history, i)
      {
        ModuloStep(next - 1 - i + cap * 2, Slot(i), cap);
        var idx := (next - 1 - i + cap * 2) % cap;
        out := out + [buf[idx]];
      }
    }

    method Clear()
      requires Valid()
      modifies this
      ensures Valid() && history == [] && fresh(buf)
    {
      buf := new E[cap];
      next, full := 0, false;
      history := [];
    }
  }

  lemma NextIndex(next: nat, cap: nat, n: nat)
    requires cap >= 1 && next < cap && next == n % cap
    ensures (next + 1) % cap == (n + 1) % cap
    ensures (next + 1) % cap == if next + 1 == cap then 0 else next + 1
    ensures (next + 1) % cap == 0 ==> n + 1 >= cap
    ensures n + 1 == cap ==> (next + 1) % cap == 0
  {
    ModuloStep(next + 1, if next + 1 == cap then 0 else next + 1, cap);
    Remainder(n + 1, if next + 1 == cap then n / cap + 1 else n / cap,
              if next + 1 == cap then 0 else next + 1, cap) by {
      assert (n / cap + 1) * cap == n / cap * cap + cap;
    }
    if n < cap {
      ModuloStep(n, n, cap);
    }
  }

  lemma HeldIs(next: nat, cap: nat, n: nat, full: bool)
    requires cap >= 1 && next == n % cap && full == (n >= cap)
    ensures (if full then cap else next) == Held(n, cap)
  {
    if n < cap {
      ModuloStep(n, n, cap);
    }
  }
}
