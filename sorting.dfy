/** Ordering a ranking by points, best first, keeping the input order among
    equal points: what `sorted(ranking, key=points, reverse=True)` does, since
    Python's sort is stable and its `reverse` keeps equal keys in input order.

    InsSort is the reference definition (insertion of each entry, in input
    order, behind every entry with at least its points). Its properties are
    proved as lemmas, and SortByPointsDesc is an in-place insertion sort on an
    array proved to compute it. */
module Sorting {
  import opened Records

  /** Non-increasing by points. */
  predicate SortedDesc(s: seq<Entry>) {
    forall i, j :: 0 <= i < j < |s| ==> s[i].points >= s[j].points
  }

  /** The entries of `s` that have exactly `p` points, in their order in `s`. */
  function WithPoints(s: seq<Entry>, p: real): (r: seq<Entry>)
    ensures |r| <= |s|
  {
    if s == [] then []
    else WithPoints(s[..|s| - 1], p) + (if s[|s| - 1].points == p then [s[|s| - 1]] else [])
  }

  /** The order on equal points is the input order: for every value, the
      entries with that many points appear in `r` exactly as in `s`. */
  ghost predicate Stable(s: seq<Entry>, r: seq<Entry>) {
    forall p :: WithPoints(r, p) == WithPoints(s, p)
  }

  /** Where InsertLast puts `x` in `t`: behind every entry with at least its
      points, found by passing over the entries at the end with fewer points. */
  function InsertPos(t: seq<Entry>, x: Entry): (j: nat)
    ensures j <= |t|
    ensures forall k :: j <= k < |t| ==> t[k].points < x.points
    ensures 0 < j ==> t[j - 1].points >= x.points
  {
    if t == [] then 0
    else if t[|t| - 1].points < x.points then InsertPos(t[..|t| - 1], x)
    else |t|
  }

  /** `t` with `x` inserted at InsertPos. */
  function InsertLast(t: seq<Entry>, x: Entry): seq<Entry> {
    var j := InsertPos(t, x);
    t[..j] + [x] + t[j..]
  }

  /** Insertion sort by points, best first: insert the entries one by one,
      in input order. */
  function InsSort(s: seq<Entry>): (r: seq<Entry>)
    ensures |r| == |s|
  {
    if s == [] then [] else InsertLast(InsSort(s[..|s| - 1]), s[|s| - 1])
  }

  /** Every entry of a points class has those points and comes from the sequence. */
  lemma {:induction false} WithPointsMember(s: seq<Entry>, p: real, e: Entry)
    requires e in WithPoints(s, p)
    ensures e in s && e.points == p
  {
    if s != [] {
      var init, last := s[..|s| - 1], s[|s| - 1];
      if e in WithPoints(init, p) {
        WithPointsMember(init, p, e);
        assert init <= s;
      }
    }
  }

  /** An entry with `p` points belongs to the points class of `p`. */
  lemma {:induction false} MemberWithPoints(s: seq<Entry>, i: nat)
    requires i < |s|
    ensures s[i] in WithPoints(s, s[i].points)
  {
    if i < |s| - 1 {
      MemberWithPoints(s[..|s| - 1], i);
    }
  }

  /** Filtering distributes over concatenation. */
  lemma {:induction false} WithPointsConcat(a: seq<Entry>, b: seq<Entry>, p: real)
    ensures WithPoints(a + b, p) == WithPoints(a, p) + WithPoints(b, p)
    decreases |b|
  {
    if b == [] {
      assert a + b == a;
    } else {
      var init := b[..|b| - 1];
      assert (a + b)[..|a + b| - 1] == a + init;
      WithPointsConcat(a, init, p);
    }
  }

  /** A sequence without entries of `p` points has an empty class of `p`. */
  lemma {:induction false} WithPointsNone(s: seq<Entry>, p: real)
    requires forall k :: 0 <= k < |s| ==> s[k].points != p
    ensures WithPoints(s, p) == []
  {
    if s != [] {
      WithPointsNone(s[..|s| - 1], p);
    }
  }

  /** Cutting a sequence cuts each of its points classes. */
  lemma {:induction false} WithPointsSplit(t: seq<Entry>, j: nat, p: real)
    requires j <= |t|
    ensures WithPoints(t, p) == WithPoints(t[..j], p) + WithPoints(t[j..], p)
  {
    assert t == t[..j] + t[j..];
    WithPointsConcat(t[..j], t[j..], p);
  }

  /** Inserting `x` adds it at the end of its own points class and leaves the
      other classes alone. */
  lemma {:induction false} InsertLastWithPoints(t: seq<Entry>, x: Entry, p: real)
    ensures WithPoints(InsertLast(t, x), p) == WithPoints(t, p) + WithPoints([x], p)
  {
    var j := InsertPos(t, x);
    var front, back := t[..j], t[j..];
    WithPointsConcat(front + [x], back, p);
    WithPointsConcat(front, [x], p);
    WithPointsSplit(t, j, p);
    if p == x.points {
      WithPointsNone(back, p);
    } else {
      assert WithPoints([x], p) == [];
    }
  }

  /** Inserting into a sorted sequence keeps it sorted. */
  lemma {:induction false} InsertLastSorted(t: seq<Entry>, x: Entry)
    requires SortedDesc(t)
    ensures SortedDesc(InsertLast(t, x))
  {
    var j := InsertPos(t, x);
    var r := InsertLast(t, x);
    forall a, b | 0 <= a < b < |r| ensures r[a].points >= r[b].points {
      if a < j && b == j {
        assert r[a] == t[a] && t[a].points >= t[j - 1].points;
      } else if a < j && b > j {
        assert r[a] == t[a] && r[b] == t[b - 1];
      } else if a == j {
        assert r[b] == t[b - 1];
      } else if a < j {
        assert r[a] == t[a] && r[b] == t[b];
      } else {
        assert r[a] == t[a - 1] && r[b] == t[b - 1];
      }
    }
  }

  /** Insertion sort orders by points, best first. */
  lemma {:induction false} InsSortSorted(s: seq<Entry>)
    ensures SortedDesc(InsSort(s))
  {
    if s != [] {
      InsSortSorted(s[..|s| - 1]);
      InsertLastSorted(InsSort(s[..|s| - 1]), s[|s| - 1]);
    }
  }

  /** Inserting adds exactly the inserted entry. */
  lemma {:induction false} InsertLastMultiset(t: seq<Entry>, x: Entry)
    ensures multiset(InsertLast(t, x)) == multiset(t) + multiset{x}
  {
    var j := InsertPos(t, x);
    assert t == t[..j] + t[j..];
    calc {
      multiset(InsertLast(t, x));
      multiset(t[..j] + [x] + t[j..]);
      multiset(t[..j]) + multiset{x} + multiset(t[j..]);
      multiset(t) + multiset{x};
    }
  }

  /** Insertion sort neither drops nor adds nor duplicates an entry. */
  lemma {:induction false} InsSortPermutation(s: seq<Entry>)
    ensures multiset(InsSort(s)) == multiset(s)
  {
    if s != [] {
      var init, last := s[..|s| - 1], s[|s| - 1];
      InsSortPermutation(init);
      InsertLastMultiset(InsSort(init), last);
      assert s == init + [last];
    }
  }

  /** Insertion sort is stable. */
  lemma {:induction false} InsSortStable(s: seq<Entry>)
    ensures Stable(s, InsSort(s))
  {
    forall p ensures WithPoints(InsSort(s), p) == WithPoints(s, p) {
      InsSortWithPoints(s, p);
    }
  }

  /** Insertion sort keeps each points class as it is. */
  lemma {:induction false} InsSortWithPoints(s: seq<Entry>, p: real)
    ensures WithPoints(InsSort(s), p) == WithPoints(s, p)
  {
    if s != [] {
      var init, last := s[..|s| - 1], s[|s| - 1];
      var t := InsSort(init);
      calc {
        WithPoints(InsSort(s), p);
        WithPoints(InsertLast(t, last), p);
        { InsertLastWithPoints(t, last, p); }
        WithPoints(t, p) + WithPoints([last], p);
        { InsSortWithPoints(init, p); }
        WithPoints(init, p) + WithPoints([last], p);
        { WithPointsConcat(init, [last], p); assert s == init + [last]; }
        WithPoints(s, p);
      }
    }
  }

  /** A prefix of a sorted sequence is sorted. */
  lemma {:induction false} SortedPrefix(s: seq<Entry>, n: nat)
    requires SortedDesc(s) && n <= |s|
    ensures SortedDesc(s[..n])
  {
  }

  /** In a pair of sequences with the same points classes, the last entry of
      the second has at least the points of the last entry of the sorted first. */
  lemma {:induction false} LastIsLeast(a: seq<Entry>, b: seq<Entry>)
    requires SortedDesc(a) && Stable(a, b) && b != []
    ensures a != [] && b[|b| - 1].points >= a[|a| - 1].points
  {
    var y := b[|b| - 1];
    MemberWithPoints(b, |b| - 1);
    assert WithPoints(b, y.points) == WithPoints(a, y.points);
    WithPointsMember(a, y.points, y);
    MemberAtLeastLast(a, y);
  }

  /** Every entry of a sorted sequence has at least the points of its last one. */
  lemma {:induction false} MemberAtLeastLast(a: seq<Entry>, y: Entry)
    requires SortedDesc(a) && y in a
    ensures a != [] && y.points >= a[|a| - 1].points
  {
    var i :| 0 <= i < |a| && a[i] == y;
    if i < |a| - 1 {
      assert a[i].points >= a[|a| - 1].points;
    }
  }

  /** Two sorted sequences with the same points classes end in the same entry. */
  lemma {:induction false} SameLast(a: seq<Entry>, b: seq<Entry>)
    requires SortedDesc(a) && SortedDesc(b) && Stable(a, b) && b != []
    ensures a != [] && a[|a| - 1] == b[|b| - 1]
  {
    LastIsLeast(a, b);
    LastIsLeast(b, a);
    var x, y := a[|a| - 1], b[|b| - 1];
    var q := x.points;
    var wa, wb := WithPoints(a, q), WithPoints(b, q);
    assert wa == WithPoints(a[..|a| - 1], q) + [x];
    assert wb == WithPoints(b[..|b| - 1], q) + [y];
    assert wa == wb;
    assert wa[|wa| - 1] == x && wb[|wb| - 1] == y;
  }

  /** Dropping a common last entry keeps the points classes equal. */
  lemma {:induction false} StableDropLast(a: seq<Entry>, b: seq<Entry>)
    requires Stable(a, b) && a != [] && b != [] && a[|a| - 1] == b[|b| - 1]
    ensures Stable(a[..|a| - 1], b[..|b| - 1])
  {
    var ia, ib, x := a[..|a| - 1], b[..|b| - 1], a[|a| - 1];
    forall p ensures WithPoints(ib, p) == WithPoints(ia, p) {
      assert WithPoints(b, p) == WithPoints(a, p);
      var u, v := WithPoints(ia, p), WithPoints(ib, p);
      if x.points == p {
        assert WithPoints(a, p) == u + [x] && WithPoints(b, p) == v + [x];
        assert u == (u + [x])[..|u|] && v == (v + [x])[..|v|];
      } else {
        assert WithPoints(a, p) == u + [] && WithPoints(b, p) == v + [];
        assert u + [] == u && v + [] == v;
      }
    }
  }

  /** Sortedness and stability determine the result: two sequences that are
      both sorted and have the same points classes are equal. So for any input
      InsSort gives the one ordering Python's stable `sorted` can give. */
  lemma {:induction false} SortedStableUnique(a: seq<Entry>, b: seq<Entry>)
    requires SortedDesc(a) && SortedDesc(b)
    requires Stable(a, b)
    ensures a == b
    decreases |a|
  {
    if b != [] {
      SameLast(a, b);
      StableDropLast(a, b);
      SortedPrefix(a, |a| - 1);
      SortedPrefix(b, |b| - 1);
      SortedStableUnique(a[..|a| - 1], b[..|b| - 1]);
      assert a == a[..|a| - 1] + [a[|a| - 1]];
      assert b == b[..|b| - 1] + [b[|b| - 1]];
    } else if a != [] {
      LastIsLeast(b, a);
    }
  }

  /** When all entries carry the same points, the ranking is the input order. */
  lemma {:induction false} EqualPointsKeepOrder(s: seq<Entry>, p: real)
    requires forall i :: 0 <= i < |s| ==> s[i].points == p
    ensures InsSort(s) == s
  {
    InsSortStable(s);
    InsSortSorted(s);
    SortedStableUnique(s, InsSort(s));
  }

  /** Scans left from `i` past the entries with fewer points than `x`. */
  method FindInsertPos(a: array<Entry>, i: nat, x: Entry) returns (j: nat)
    requires i <= a.Length
    ensures j == InsertPos(a[..i], x)
  {
    j := i;
    while j > 0 && a[j - 1].points < x.points
      invariant j <= i
      invariant InsertPos(a[..i], x) == InsertPos(a[..j], x)
    {
      assert a[..j][..j - 1] == a[..j - 1];
      j := j - 1;
    }
  }

  /** Moves `a[j..i]` one place to the right, over `a[i]`. */
  method ShiftRight(a: array<Entry>, j: nat, i: nat)
    requires j <= i < a.Length
    modifies a
    ensures forall k :: 0 <= k <= j ==> a[k] == old(a[k])
    ensures forall k :: j < k <= i ==> a[k] == old(a[k - 1])
    ensures forall k :: i < k < a.Length ==> a[k] == old(a[k])
  {
    var k := i;
    while k > j
      invariant j <= k <= i
      invariant forall m :: 0 <= m <= k ==> a[m] == old(a[m])
      invariant forall m :: k < m <= i ==> a[m] == old(a[m - 1])
      invariant forall m :: i < m < a.Length ==> a[m] == old(a[m])
    {
      a[k] := a[k - 1];
      k := k - 1;
    }
  }

  /** Moves `a[i]` left past the entries of `a[..i]` that have fewer points. */
  method InsertInPlace(a: array<Entry>, i: nat)
    requires i < a.Length
    modifies a
    ensures a[..i + 1] == InsertLast(old(a[..i]), old(a[i]))
    ensures a[i + 1..] == old(a[i + 1..])
  {
    var x := a[i];
    ghost var t, rest := a[..i], a[i + 1..];
    var j := FindInsertPos(a, i, x);
    ShiftRight(a, j, i);
    a[j] := x;
    ShiftedIsInserted(a[..i + 1], t, x, j);
    assert forall k :: 0 <= k < |rest| ==> a[i + 1..][k] == rest[k];
  }

  /** A sequence holding `t[..j]`, then `x`, then the rest of `t` is InsertLast's result. */
  lemma {:induction false} ShiftedIsInserted(u: seq<Entry>, t: seq<Entry>, x: Entry, j: nat)
    requires j == InsertPos(t, x) && |u| == |t| + 1
    requires forall k :: 0 <= k < j ==> u[k] == t[k]
    requires u[j] == x
    requires forall k :: j < k < |u| ==> u[k] == t[k - 1]
    ensures u == InsertLast(t, x)
  {
    var r := t[..j] + [x] + t[j..];
    forall k | 0 <= k < |u| ensures u[k] == r[k] {
      if k < j {
        assert r[k] == t[k];
      } else if k == j {
        assert r[k] == x;
      } else {
        assert r[k] == t[k - 1];
      }
    }
  }

  /** Sorts `a` by points, best first, keeping the order of equal points. */
  method SortByPointsDesc(a: array<Entry>)
    modifies a
    ensures a[..] == InsSort(old(a[..]))
  {
    ghost var s := a[..];
    for i := 0 to a.Length
      invariant a[..i] == InsSort(s[..i])
      invariant a[i..] == s[i..]
    {
      assert s[..i + 1] == s[..i] + [s[i]];
      InsertInPlace(a, i);
      assert s[..i + 1][..i] == s[..i];
    }
    assert a[..] == a[..a.Length];
    assert s == s[..a.Length];
  }
}
