/** The few relational facts the directory transfer rests on: stable ordering,
    rows owned by a parent, and keys without duplicates. */
module Relational {

  // ---- ORDER BY ----

  ghost predicate TotalPreorder<T(!new)>(le: (T, T) -> bool) {
    && (forall x, y :: le(x, y) || le(y, x))
    && (forall x, y, z :: le(x, y) && le(y, z) ==> le(x, z))
  }

  ghost predicate Sorted<T>(s: seq<T>, le: (T, T) -> bool) {
    forall i, j :: 0 <= i < j < |s| ==> le(s[i], s[j])
  }

  // The new row goes after its equals.
  function Insert<T>(s: seq<T>, x: T, le: (T, T) -> bool): seq<T> {
    if s == [] || le(s[|s| - 1], x) then s + [x]
    else Insert(s[..|s| - 1], x, le) + [s[|s| - 1]]
  }

  function OrderBy<T>(s: seq<T>, le: (T, T) -> bool): seq<T> {
    if s == [] then [] else Insert(OrderBy(s[..|s| - 1], le), s[|s| - 1], le)
  }

  lemma {:induction false} InsertAdds<T>(s: seq<T>, x: T, le: (T, T) -> bool)
    ensures multiset(Insert(s, x, le)) == multiset(s) + multiset{x}
  {
    if s != [] && !le(s[|s| - 1], x) {
      var init, last := s[..|s| - 1], s[|s| - 1];
      assert s == init + [last];
      InsertAdds(init, x, le);
    }
  }

  lemma {:induction false} InsertSorts<T(!new)>(s: seq<T>, x: T, le: (T, T) -> bool)
    requires TotalPreorder(le) && Sorted(s, le)
    ensures Sorted(Insert(s, x, le), le)
  {
    if s == [] {
    } else {
      var init, last := s[..|s| - 1], s[|s| - 1];
      if le(last, x) {
        forall i | 0 <= i < |s|
          ensures le(s[i], x)
        {
          assert i < |s| - 1 ==> le(s[i], last);
        }
      } else {
        InsertSorts(init, x, le);
        InsertAdds(init, x, le);
        BelowLast(Insert(init, x, le), init, x, last, le);
      }
    }
  }

  lemma BelowLast<T>(r: seq<T>, init: seq<T>, x: T, last: T, le: (T, T) -> bool)
    requires multiset(r) == multiset(init) + multiset{x}
    requires le(x, last) && forall i :: 0 <= i < |init| ==> le(init[i], last)
    ensures forall i :: 0 <= i < |r| ==> le(r[i], last)
  {
    forall i | 0 <= i < |r|
      ensures le(r[i], last)
    {
      assert r[i] in multiset(r);
      assert r[i] == x || r[i] in init;
    }
  }

  lemma {:induction false} OrderByKeeps<T(!new)>(s: seq<T>, le: (T, T) -> bool)
    requires TotalPreorder(le)
    ensures Sorted(OrderBy(s, le), le)
    ensures multiset(OrderBy(s, le)) == multiset(s)
  {
    if s != [] {
      var init, last := s[..|s| - 1], s[|s| - 1];
      assert s == init + [last];
      OrderByKeeps(init, le);
      InsertSorts(OrderBy(init, le), last, le);
      InsertAdds(OrderBy(init, le), last, le);
    }
  }

  // What is in order stays as it is.
  lemma {:induction false} OrderByFixed<T>(s: seq<T>, le: (T, T) -> bool)
    requires Sorted(s, le)
    ensures OrderBy(s, le) == s
  {
    if s != [] {
      var init, last := s[..|s| - 1], s[|s| - 1];
      OrderByFixed(init, le);
      assert Insert(init, last, le) == init + [last] by {
        if init != [] {
          assert le(s[|init| - 1], s[|s| - 1]);
        }
      }
    }
  }

  predicate StringLe(a: string, b: string) {
    a == "" || (b != "" && (a[0] < b[0] || (a[0] == b[0] && StringLe(a[1..], b[1..]))))
  }

  lemma {:induction false} StringLeOrders(a: string, b: string, c: string)
    ensures StringLe(a, b) || StringLe(b, a)
    ensures StringLe(a, b) && StringLe(b, c) ==> StringLe(a, c)
  {
    if a != "" && b != "" {
      StringLeOrders(a[1..], b[1..], if c == "" then "" else c[1..]);
    }
  }

  // ---- Keys ----

  ghost predicate Distinct<T, K(!new)>(s: seq<T>, key: T -> K) {
    forall i, j :: 0 <= i < j < |s| ==> key(s[i]) != key(s[j])
  }

  // What a UNIQUE constraint asks before a row goes in.
  predicate Absent<T, K(==)>(s: seq<T>, key: T -> K, k: K) {
    forall i :: 0 <= i < |s| ==> key(s[i]) != k
  }

  lemma DistinctExtends<T, K(!new)>(s: seq<T>, x: T, key: T -> K)
    requires Distinct(s, key)
    ensures Distinct(s + [x], key) <==> Absent(s, key, key(x))
  {
    if Distinct(s + [x], key) {
      forall i | 0 <= i < |s|
        ensures key(s[i]) != key(x)
      {
        assert (s + [x])[i] == s[i] && (s + [x])[|s|] == x;
      }
    }
  }

  lemma DistinctPrefix<T, K(!new)>(a: seq<T>, b: seq<T>, key: T -> K)
    requires Distinct(a + b, key)
    ensures Distinct(a, key)
  {
    forall i, j | 0 <= i < j < |a|
      ensures key(a[i]) != key(a[j])
    {
      assert (a + b)[i] == a[i] && (a + b)[j] == a[j];
    }
  }

  lemma {:induction false} CountOnce<T, K(!new)>(s: seq<T>, key: T -> K, x: T)
    requires Distinct(s, key)
    ensures multiset(s)[x] <= 1
  {
    if s != [] {
      var init, last := s[..|s| - 1], s[|s| - 1];
      assert s == init + [last];
      CountOnce(init, key, x);
      if x == last {
        assert x !in init;
      }
    }
  }

  lemma CountTwice<T>(s: seq<T>, i: nat, j: nat)
    requires i < j < |s| && s[i] == s[j]
    ensures multiset(s)[s[i]] >= 2
  {
    assert s == s[..j] + s[j..];
    assert s[i] in s[..j] && s[i] in s[j..] by {
      assert s[..j][i] == s[i] && s[j..][0] == s[j];
    }
  }

  // Rows taken from a table with unique keys, in any order, still have them.
  lemma DistinctWithin<T, K(!new)>(a: seq<T>, b: seq<T>, key: T -> K)
    requires Distinct(a, key) && multiset(b) <= multiset(a)
    ensures Distinct(b, key)
  {
    forall i, j | 0 <= i < j < |b|
      ensures key(b[i]) != key(b[j])
    {
      assert b[i] in multiset(b) && b[j] in multiset(b);
      if b[i] == b[j] {
        CountTwice(b, i, j);
        CountOnce(a, key, b[i]);
      } else {
        var k :| 0 <= k < |a| && a[k] == b[i];
        var l :| 0 <= l < |a| && a[l] == b[j];
      }
    }
  }

  // ---- Rows owned by a parent ----

  datatype Child<+T> = Child(owner: string, row: T)

  function Select<T>(table: seq<Child<T>>, owner: string): seq<T> {
    if table == [] then []
    else
      var init, last := table[..|table| - 1], table[|table| - 1];
      Select(init, owner) + if last.owner == owner then [last.row] else []
  }

  function Own<T>(owner: string, rows: seq<T>): (r: seq<Child<T>>)
    ensures |r| == |rows|
    ensures forall i :: 0 <= i < |rows| ==> r[i] == Child(owner, rows[i])
  {
    seq(|rows|, i requires 0 <= i < |rows| => Child(owner, rows[i]))
  }

  // One parent's rows after another's.
  function Gather<P, T>(parents: seq<P>, id: P -> string, rows: P -> seq<T>): seq<Child<T>> {
    if parents == [] then []
    else
      var last := parents[|parents| - 1];
      Gather(parents[..|parents| - 1], id, rows) + Own(id(last), rows(last))
  }

  lemma {:induction false} GatherPrefix<P, T>(a: seq<P>, b: seq<P>, id: P -> string, rows: P -> seq<T>)
    ensures Gather(a, id, rows) <= Gather(a + b, id, rows)
  {
    if b == [] {
      assert a + b == a;
    } else {
      var init := b[..|b| - 1];
      GatherPrefix(a, init, id, rows);
      assert (a + b)[..|a + b| - 1] == a + init;
    }
  }

  predicate RowOf<P, T(==)>(c: Child<T>, parent: P, id: P -> string, rows: P -> seq<T>) {
    c.owner == id(parent) && c.row in rows(parent)
  }

  lemma {:induction false} GatherOwner<P, T>(parents: seq<P>, id: P -> string, rows: P -> seq<T>, c: Child<T>)
    returns (i: nat)
    requires c in Gather(parents, id, rows)
    ensures i < |parents| && RowOf(c, parents[i], id, rows)
  {
    var init, last := parents[..|parents| - 1], parents[|parents| - 1];
    if c in Gather(init, id, rows) {
      i := GatherOwner(init, id, rows, c);
    } else {
      i := |init|;
      assert c in Own(id(last), rows(last));
    }
  }

  lemma {:induction false} GatherHas<P, T>(parents: seq<P>, id: P -> string, rows: P -> seq<T>, c: Child<T>, i: nat)
    requires i < |parents| && RowOf(c, parents[i], id, rows)
    ensures c in Gather(parents, id, rows)
  {
    var init, last := parents[..|parents| - 1], parents[|parents| - 1];
    if i < |init| {
      GatherHas(init, id, rows, c, i);
    } else {
      var j :| 0 <= j < |rows(last)| && rows(last)[j] == c.row;
      assert Own(id(last), rows(last))[j] == c;
    }
  }

  lemma {:induction false} SelectConcat<T>(a: seq<Child<T>>, b: seq<Child<T>>, owner: string)
    ensures Select(a + b, owner) == Select(a, owner) + Select(b, owner)
  {
    if b == [] {
      assert a + b == a;
    } else {
      var init, last := b[..|b| - 1], b[|b| - 1];
      var whole := a + b;
      SelectConcat(a, init, owner);
      assert whole[..|whole| - 1] == a + init && whole[|whole| - 1] == last;
      var mine := if last.owner == owner then [last.row] else [];
      assert Select(whole, owner) == Select(a + init, owner) + mine;
      assert Select(b, owner) == Select(init, owner) + mine;
    }
  }

  lemma {:induction false} SelectOwn<T>(owner: string, rows: seq<T>, other: string)
    ensures Select(Own(owner, rows), other) == if owner == other then rows else []
  {
    if rows != [] {
      var init, last := rows[..|rows| - 1], rows[|rows| - 1];
      var table := Own(owner, rows);
      assert table[..|table| - 1] == Own(owner, init) && table[|table| - 1] == Child(owner, last);
      SelectOwn(owner, init, other);
      assert rows == init + [last];
    }
  }

  // Reading one parent's rows back gives what was gathered for it.
  lemma {:induction false} SelectGather<P, T>(
      parents: seq<P>, id: P -> string, rows: P -> seq<T>, i: nat)
    requires Distinct(parents, id) && i < |parents|
    ensures Select(Gather(parents, id, rows), id(parents[i])) == rows(parents[i])
  {
    var init, last := parents[..|parents| - 1], parents[|parents| - 1];
    var owner := id(parents[i]);
    SelectConcat(Gather(init, id, rows), Own(id(last), rows(last)), owner);
    SelectOwn(id(last), rows(last), owner);
    if i < |init| {
      SelectGather(init, id, rows, i);
    } else {
      SelectNone(init, id, rows, owner);
    }
  }

  lemma {:induction false} SelectNone<P, T>(
      parents: seq<P>, id: P -> string, rows: P -> seq<T>, owner: string)
    requires Absent(parents, id, owner)
    ensures Select(Gather(parents, id, rows), owner) == []
  {
    if parents != [] {
      var init, last := parents[..|parents| - 1], parents[|parents| - 1];
      SelectNone(init, id, rows, owner);
      SelectConcat(Gather(init, id, rows), Own(id(last), rows(last)), owner);
      SelectOwn(id(last), rows(last), owner);
    }
  }

  lemma {:induction false} SelectCount<T>(table: seq<Child<T>>, c: Child<T>)
    ensures multiset(Select(table, c.owner))[c.row] == multiset(table)[c]
  {
    if table != [] {
      var init, last := table[..|table| - 1], table[|table| - 1];
      assert table == init + [last];
      SelectCount(init, c);
    }
  }

  // Gathering, for distinct parents, rows each parent owns in the table takes
  // no row of the table twice.
  lemma GatherWithin<P, T(!new)>(parents: seq<P>, id: P -> string, rows: P -> seq<T>, table: seq<Child<T>>)
    requires Distinct(parents, id)
    requires forall i :: 0 <= i < |parents| ==>
               multiset(rows(parents[i])) <= multiset(Select(table, id(parents[i])))
    ensures multiset(Gather(parents, id, rows)) <= multiset(table)
  {
    var gathered := Gather(parents, id, rows);
    forall c
      ensures multiset(gathered)[c] <= multiset(table)[c]
    {
      SelectCount(gathered, c);
      SelectCount(table, c);
      if i :| 0 <= i < |parents| && id(parents[i]) == c.owner {
        SelectGather(parents, id, rows, i);
      } else {
        SelectNone(parents, id, rows, c.owner);
      }
    }
  }
}
