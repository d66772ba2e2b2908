/** Python's `sorted(items, key=value, reverse=True)`: a stable sort from the
    highest key to the lowest. Keys are reals or +infinity (`np.inf`). */
module Ranking {

  datatype Rank = Finite(value: real) | Infinite

  /** Strictly greater. */
  predicate Above(a: Rank, b: Rank) {
    match (a, b)
    case (Infinite, Finite(_)) => true
    case (Finite(x), Finite(y)) => x > y
    case _ => false
  }

  /** Greater or equal. */
  predicate AtLeast(a: Rank, b: Rank) {
    !Above(b, a)
  }

  lemma AtLeastTransitive(a: Rank, b: Rank, c: Rank)
    requires AtLeast(a, b) && AtLeast(b, c)
    ensures AtLeast(a, c)
  {
  }

  datatype Ranked<T> = Ranked(item: T, rank: Rank)

  ghost predicate Descending<T>(s: seq<Ranked<T>>) {
    forall i, j :: 0 <= i < j < |s| ==> AtLeast(s[i].rank, s[j].rank)
  }

  /** Puts `x` after the leading elements ranked at least as high, which
      is what makes the sort stable. */
  function Insert<T>(x: Ranked<T>, s: seq<Ranked<T>>): (r: seq<Ranked<T>>)
    ensures |r| == |s| + 1
    ensures multiset(r) == multiset(s) + multiset{x}
  {
    if |s| == 0 then [x]
    else if Above(x.rank, s[0].rank) then [x] + s
    else
      assert s == [s[0]] + s[1..];
      [s[0]] + Insert(x, s[1..])
  }

  /** Inserting into a descending sequence keeps it descending. */
  lemma {:induction false} InsertDescending<T>(x: Ranked<T>, s: seq<Ranked<T>>)
    requires Descending(s)
    ensures Descending(Insert(x, s))
  {
    if |s| == 0 {
    } else if Above(x.rank, s[0].rank) {
      InsertInFront(x, s);
    } else {
      InsertDescending(x, s[1..]);
      InsertBehind(x, s);
    }
  }

  lemma InsertInFront<T>(x: Ranked<T>, s: seq<Ranked<T>>)
    requires Descending(s) && |s| > 0 && Above(x.rank, s[0].rank)
    ensures Descending([x] + s)
  {
    forall j | 0 <= j < |s| ensures AtLeast(x.rank, s[j].rank) {
      if j > 0 {
        AtLeastTransitive(x.rank, s[0].rank, s[j].rank);
      }
    }
    var r := [x] + s;
    forall i, j | 0 <= i < j < |r| ensures AtLeast(r[i].rank, r[j].rank) {
      assert r[j] == s[j - 1];
    }
  }

  lemma InsertBehind<T>(x: Ranked<T>, s: seq<Ranked<T>>)
    requires Descending(s) && |s| > 0 && !Above(x.rank, s[0].rank)
    requires Descending(Insert(x, s[1..]))
    ensures Descending(Insert(x, s))
  {
    var tail := Insert(x, s[1..]);
    assert Bounded(s[0].rank, s[1..]);
    InsertBounded(s[0].rank, x, s[1..]);
    Prepend(s[0], tail);
  }

  /** Every rank in `s` is at most `a`. */
  ghost predicate Bounded<T>(a: Rank, s: seq<Ranked<T>>) {
    forall j :: 0 <= j < |s| ==> AtLeast(a, s[j].rank)
  }

  lemma {:induction false} InsertBounded<T>(a: Rank, x: Ranked<T>, s: seq<Ranked<T>>)
    requires Bounded(a, s) && AtLeast(a, x.rank)
    ensures Bounded(a, Insert(x, s))
  {
    if |s| > 0 && !Above(x.rank, s[0].rank) {
      InsertBounded(a, x, s[1..]);
      var r := Insert(x, s);
      assert r == [s[0]] + Insert(x, s[1..]);
    }
  }

  lemma Prepend<T>(y: Ranked<T>, s: seq<Ranked<T>>)
    requires Bounded(y.rank, s) && Descending(s)
    ensures Descending([y] + s)
  {
    var r := [y] + s;
    forall i, j | 0 <= i < j < |r| ensures AtLeast(r[i].rank, r[j].rank) {
      assert r[j] == s[j - 1];
      if i > 0 {
        assert r[i] == s[i - 1];
      }
    }
  }

  /** Insertion sort over the items in their original order. */
  function SortDesc<T>(s: seq<Ranked<T>>): (r: seq<Ranked<T>>)
    ensures |r| == |s|
    ensures multiset(r) == multiset(s)
    ensures Descending(r)
  {
    if |s| == 0 then []
    else
      assert s == s[..|s| - 1] + [s[|s| - 1]];
      var sorted := SortDesc(s[..|s| - 1]);
      InsertDescending(s[|s| - 1], sorted);
      Insert(s[|s| - 1], sorted)
  }

  /** Sorting keeps exactly the elements it was given. */
  lemma SortedMembers<T>(s: seq<Ranked<T>>)
    ensures forall x :: x in SortDesc(s) <==> x in s
  {
    var r := SortDesc(s);
    forall x ensures x in r <==> x in s {
      assert x in r <==> x in multiset(r);
      assert x in s <==> x in multiset(s);
    }
  }

  /** The elements ranked exactly `v`, in order. */
  function Level<T>(s: seq<Ranked<T>>, v: Rank): seq<Ranked<T>> {
    if |s| == 0 then [] else (if s[0].rank == v then [s[0]] else []) + Level(s[1..], v)
  }

  /** Level of a sequence with a first element. */
  lemma LevelCons<T>(x: Ranked<T>, s: seq<Ranked<T>>, v: Rank)
    ensures Level([x] + s, v) == (if x.rank == v then [x] else []) + Level(s, v)
  {
    assert ([x] + s)[1..] == s;
  }

  lemma {:induction false} LevelAppend<T>(a: seq<Ranked<T>>, b: seq<Ranked<T>>, v: Rank)
    ensures Level(a + b, v) == Level(a, v) + Level(b, v)
  {
    if |a| == 0 {
      assert a + b == b;
    } else {
      assert a == [a[0]] + a[1..];
      assert a + b == [a[0]] + (a[1..] + b);
      LevelAppend(a[1..], b, v);
      LevelCons(a[0], a[1..] + b, v);
      LevelCons(a[0], a[1..], v);
    }
  }

  /** Nothing is ranked `v` when everything is ranked below it. */
  lemma {:induction false} LevelBelow<T>(s: seq<Ranked<T>>, v: Rank)
    requires forall i :: 0 <= i < |s| ==> Above(v, s[i].rank)
    ensures Level(s, v) == []
  {
    if |s| > 0 {
      assert s == [s[0]] + s[1..];
      LevelBelow(s[1..], v);
      LevelCons(s[0], s[1..], v);
    }
  }

  /** Inserting `x` puts it behind every element of its own rank. */
  lemma {:induction false} InsertLevel<T>(x: Ranked<T>, s: seq<Ranked<T>>, v: Rank)
    requires Descending(s)
    ensures Level(Insert(x, s), v) == Level(s, v) + (if x.rank == v then [x] else [])
  {
    if |s| == 0 {
      LevelCons(x, [], v);
      assert [x] + [] == [x];
    } else if Above(x.rank, s[0].rank) {
      InsertFirstLevel(x, s, v);
    } else {
      InsertLevel(x, s[1..], v);
      InsertLaterLevel(x, s, v);
    }
  }

  lemma InsertFirstLevel<T>(x: Ranked<T>, s: seq<Ranked<T>>, v: Rank)
    requires Descending(s) && |s| > 0 && Above(x.rank, s[0].rank)
    ensures Level(Insert(x, s), v) == Level(s, v) + (if x.rank == v then [x] else [])
  {
    assert Insert(x, s) == [x] + s;
    LevelCons(x, s, v);
    if x.rank == v {
      forall i | 0 <= i < |s| ensures Above(v, s[i].rank) {
        assert AtLeast(s[0].rank, s[i].rank);
      }
      LevelBelow(s, v);
    }
  }

  lemma InsertLaterLevel<T>(x: Ranked<T>, s: seq<Ranked<T>>, v: Rank)
    requires |s| > 0 && !Above(x.rank, s[0].rank)
    requires Level(Insert(x, s[1..]), v) == Level(s[1..], v) + (if x.rank == v then [x] else [])
    ensures Level(Insert(x, s), v) == Level(s, v) + (if x.rank == v then [x] else [])
  {
    var tail := Insert(x, s[1..]);
    InsertBehindFirst(x, s);
    LevelCons(s[0], tail, v);
    LevelFirst(s, v);
    ConcatAssociative(if s[0].rank == v then [s[0]] else [], Level(s[1..], v), if x.rank == v then [x] else []);
  }

  lemma InsertBehindFirst<T>(x: Ranked<T>, s: seq<Ranked<T>>)
    requires |s| > 0 && !Above(x.rank, s[0].rank)
    ensures Insert(x, s) == [s[0]] + Insert(x, s[1..])
  {
  }

  lemma LevelFirst<T>(s: seq<Ranked<T>>, v: Rank)
    requires |s| > 0
    ensures Level(s, v) == (if s[0].rank == v then [s[0]] else []) + Level(s[1..], v)
  {
  }

  lemma ConcatAssociative<T>(a: seq<T>, b: seq<T>, c: seq<T>)
    ensures a + (b + c) == (a + b) + c
  {
  }

  /** The sort is stable: the elements of each rank keep their original
      order. */
  lemma {:induction false} SortDescStable<T>(s: seq<Ranked<T>>, v: Rank)
    ensures Level(SortDesc(s), v) == Level(s, v)
    decreases |s|
  {
    if |s| > 0 {
      var init, last := s[..|s| - 1], s[|s| - 1];
      SortDescLast(s);
      SortDescStable(init, v);
      InsertLevel(last, SortDesc(init), v);
      LevelLast(s, v);
    }
  }

  /** Level of a sequence with a last element. */
  lemma LevelLast<T>(s: seq<Ranked<T>>, v: Rank)
    requires |s| > 0
    ensures Level(s, v) == Level(s[..|s| - 1], v) + (if s[|s| - 1].rank == v then [s[|s| - 1]] else [])
  {
    var init, last := s[..|s| - 1], s[|s| - 1];
    assert s == init + [last];
    LevelAppend(init, [last], v);
    LevelSingle(last, v);
  }

  /** In a descending sequence holding an infinite rank, the first
      element is the first of the infinite ranks. */
  lemma TopRankFirst<T>(s: seq<Ranked<T>>)
    requires Descending(s) && Level(s, Infinite) != []
    ensures |s| > 0 && s[0].rank == Infinite && Level(s, Infinite)[0] == s[0]
  {
    if |s| == 0 {
    } else if s[0].rank != Infinite {
      forall i | 0 <= i < |s| ensures Above(Infinite, s[i].rank) {
        assert AtLeast(s[0].rank, s[i].rank) || i == 0;
      }
      LevelBelow(s, Infinite);
    } else {
      LevelFirst(s, Infinite);
    }
  }

  lemma SortDescLast<T>(s: seq<Ranked<T>>)
    requires |s| > 0
    ensures SortDesc(s) == Insert(s[|s| - 1], SortDesc(s[..|s| - 1]))
  {
  }

  lemma LevelSingle<T>(x: Ranked<T>, v: Rank)
    ensures Level([x], v) == if x.rank == v then [x] else []
  {
    LevelCons(x, [], v);
    assert [x] + [] == [x];
  }

  /** The items of a ranked sequence, in order. */
  function Items<T>(s: seq<Ranked<T>>): (r: seq<T>)
    ensures |r| == |s|
    ensures forall i :: 0 <= i < |s| ==> r[i] == s[i].item
  {
    if |s| == 0 then [] else [s[0].item] + Items(s[1..])
  }
}
