/** `compileRanking`: the tally pass, the conversion of counts into point
    values, the summation pass and the sort, as the script runs them, each
    proved against the functions of Scoring and Sorting. */
module Ranking {
  import opened Catalog
  import opened Records
  import opened Scoring
  import opened Sorting

  /** The rarity pass: a fresh table counting, per slot, the ascents of all
      records (the empty id list adds nothing). */
  method TallyAscends(rs: seq<Record>) returns (bpoints: array<real>)
    requires ValidRecords(rs)
    ensures fresh(bpoints) && bpoints.Length == NumBoulders
    ensures forall b :: 0 <= b < NumBoulders ==> bpoints[b] == Rarity(rs, b) as real
  {
    bpoints := new real[NumBoulders](_ => 0.0);
    for i := 0 to |rs|
      invariant forall b :: 0 <= b < NumBoulders ==> bpoints[b] == Rarity(rs[..i], b) as real
    {
      var ids := rs[i].ascends;
      assert rs[..i + 1][..i] == rs[..i];
      if ids != [] {
        for j := 0 to |ids|
          invariant forall b :: 0 <= b < NumBoulders ==>
            bpoints[b] == (Rarity(rs[..i], b) + Occurrences(ids[..j], b)) as real
        {
          assert ids[..j + 1][..j] == ids[..j];
          var slot := Slot(ids[j]);
          bpoints[slot] := bpoints[slot] + 1.0;
        }
        assert ids[..|ids|] == ids;
      }
    }
    assert rs[..|rs|] == rs;
  }

  /** The conversion pass: every count `k > 0` is overwritten in place by
      `TotalPointsPerBoulder / k`; a zero count stays zero. */
  method ConvertToValues(bpoints: array<real>, ghost rs: seq<Record>)
    requires ValidRecords(rs) && bpoints.Length == NumBoulders
    requires forall b :: 0 <= b < NumBoulders ==> bpoints[b] == Rarity(rs, b) as real
    modifies bpoints
    ensures bpoints[..] == PointValues(rs)
  {
    for i := 0 to bpoints.Length
      invariant forall b :: 0 <= b < i ==> bpoints[b] == Value(Rarity(rs, b))
      invariant forall b :: i <= b < NumBoulders ==> bpoints[b] == Rarity(rs, b) as real
    {
      if bpoints[i] > 0.0 {
        bpoints[i] := TotalPointsPerBoulder / bpoints[i];
      }
    }
    assert forall b :: 0 <= b < NumBoulders ==> bpoints[..][b] == PointValues(rs)[b];
  }

  /** The summation pass: one entry per record, in input order, carrying the
      record's name and tag and the sum of the table values of its ascents. */
  method ScoreRecords(rs: seq<Record>, bpoints: array<real>) returns (ranking: seq<Entry>)
    requires ValidRecords(rs) && bpoints.Length == NumBoulders
    ensures ranking == Scored(rs, bpoints[..])
  {
    ranking := [];
    for i := 0 to |rs|
      invariant ranking == Scored(rs[..i], bpoints[..])
    {
      var res := rs[i];
      var ids := res.ascends;
      var points := 0.0;
      assert rs[..i + 1][..i] == rs[..i];
      if ids != [] {
        for j := 0 to |ids|
          invariant points == Score(ids[..j], bpoints[..])
        {
          assert ids[..j + 1][..j] == ids[..j];
          points := points + bpoints[Slot(ids[j])];
        }
        assert ids[..|ids|] == ids;
      }
      ranking := ranking + [Entry(res.name, res.tag, points)];
    }
    assert rs[..|rs|] == rs;
  }

  /** One category's standings: every record scored with the category's own
      point table, then ordered best first, equal points in input order. */
  method CompileRanking(rs: seq<Record>) returns (ranking: seq<Entry>)
    requires ValidRecords(rs)
    ensures ranking == InsSort(Scored(rs, PointValues(rs)))
    ensures multiset(ranking) == multiset(Scored(rs, PointValues(rs)))
    ensures SortedDesc(ranking)
    ensures Stable(Scored(rs, PointValues(rs)), ranking)
  {
    var bpoints := TallyAscends(rs);
    ConvertToValues(bpoints, rs);
    var unsorted := ScoreRecords(rs, bpoints);
    var a := new Entry[|unsorted|](k requires 0 <= k < |unsorted| => unsorted[k]);
    assert a[..] == unsorted;
    SortByPointsDesc(a);
    ranking := a[..];
    InsSortPermutation(unsorted);
    InsSortSorted(unsorted);
    InsSortStable(unsorted);
  }

  /** Nobody in a ranking has negative points. */
  lemma {:induction false} RankedPointsNonNegative(rs: seq<Record>)
    requires ValidRecords(rs)
    ensures forall i :: 0 <= i < |rs| ==> 0.0 <= InsSort(Scored(rs, PointValues(rs)))[i].points
  {
    var unsorted := Scored(rs, PointValues(rs));
    var ranking := InsSort(unsorted);
    InsSortPermutation(unsorted);
    PointValuesNonNegative(rs);
    forall i | 0 <= i < |rs| ensures 0.0 <= ranking[i].points {
      assert ranking[i] in multiset(unsorted);
    }
  }

  /** With no ascents listed at all, everybody scores 0 and the standings are
      the input order. */
  lemma {:induction false} AllEmptyKeepsInputOrder(rs: seq<Record>)
    requires forall i :: 0 <= i < |rs| ==> rs[i].ascends == []
    ensures ValidRecords(rs)
    ensures forall i :: 0 <= i < |rs| ==> Scored(rs, PointValues(rs))[i].points == 0.0
    ensures InsSort(Scored(rs, PointValues(rs))) == Scored(rs, PointValues(rs))
  {
    EqualPointsKeepOrder(Scored(rs, PointValues(rs)), 0.0);
  }

  /** The worked example of the scoring rule: boulder 1 climbed by both
      competitors is worth 50 to each, boulder 2 climbed by one of them is
      worth 100 to that one. */
  lemma {:induction false} TwoClimbersExample()
    ensures
      var rs := [Record("A", "m", [1, 2]), Record("B", "m", [1])];
      InsSort(Scored(rs, PointValues(rs))) == [Entry("A", "m", 150.0), Entry("B", "m", 50.0)]
  {
    var rs := [Record("A", "m", [1, 2]), Record("B", "m", [1])];
    assert rs[..1] == [rs[0]];
    assert [1, 2][..1] == [1];
    assert Rarity(rs, 1) == 2 && Rarity(rs, 2) == 1;
    var values := PointValues(rs);
    assert values[1] == 50.0 && values[2] == 100.0;
    var es := Scored(rs, values);
    assert es == [Entry("A", "m", 150.0), Entry("B", "m", 50.0)];
    assert es[..1] == [es[0]];
    assert InsSort(es[..1]) == [es[0]];
  }
}
