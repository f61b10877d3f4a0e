/** One run over the split lines, as `main` chains the core: the category
    split, one ranking per category, and the grade counters over the men's and
    then the women's records. */
module Standings {
  import opened Catalog
  import opened Records
  import opened Scoring
  import opened Sorting
  import opened Ranking
  import opened Categories
  import opened Grades

  /** The records of one tag keep the validity of their ids. */
  lemma {:induction false} WithTagValid(rs: seq<Record>, tag: string)
    requires ValidRecords(rs)
    ensures ValidRecords(WithTag(rs, tag))
  {
    if rs != [] {
      WithTagValid(rs[..|rs| - 1], tag);
    }
  }

  /** Rankings of both categories, the grade counters of all routed lines and
      the number of reported lines; every category is ranked with the point
      table of its own records only. Only the routed lines need valid ids: a
      line with another tag is reported and never indexes a table. */
  method Results(entries: seq<Record>) returns (male: seq<Entry>, female: seq<Entry>, grades: seq<int>, reported: nat)
    requires ValidRecords(WithTag(entries, "m")) && ValidRecords(WithTag(entries, "w"))
    ensures male == InsSort(Scored(WithTag(entries, "m"), PointValues(WithTag(entries, "m"))))
    ensures female == InsSort(Scored(WithTag(entries, "w"), PointValues(WithTag(entries, "w"))))
    ensures |grades| == NumGrades
    ensures forall g :: 0 <= g < NumGrades ==>
      grades[g] == GradeCount(WithTag(entries, "m"), g) + GradeCount(WithTag(entries, "w"), g)
    ensures reported == Unrouted(entries)
    ensures |WithTag(entries, "m")| + |WithTag(entries, "w")| + reported == |entries|
  {
    var men, women;
    men, women, reported := SplitByCategory(entries);
    SplitPartition(entries);
    male := CompileRanking(men);
    female := CompileRanking(women);
    BothCategoriesCounted(men, women);
    grades := TallyGrades(men + women);
  }

  /** The grade counters over both categories are the sums of each category's. */
  lemma {:induction false} BothCategoriesCounted(men: seq<Record>, women: seq<Record>)
    requires ValidRecords(men) && ValidRecords(women)
    ensures ValidRecords(men + women)
    ensures forall g :: 0 <= g < NumGrades ==>
      GradeCount(men + women, g) == GradeCount(men, g) + GradeCount(women, g)
  {
    forall g | 0 <= g < NumGrades
      ensures GradeCount(men + women, g) == GradeCount(men, g) + GradeCount(women, g)
    {
      GradeCountConcat(men, women, g);
    }
    GradeCountConcat(men, women, 0);
  }

  /** A reported line with an id no table has is accepted: only the routed
      lines must carry valid ids. */
  lemma {:induction false} UnroutedLineIsIgnored()
    ensures
      var entries := [Record("A", "m", [1]), Record("C", "x", [99])];
      !ValidRecords(entries) &&
      WithTag(entries, "m") == [Record("A", "m", [1])] && WithTag(entries, "w") == [] &&
      ValidRecords(WithTag(entries, "m")) && ValidRecords(WithTag(entries, "w"))
  {
    var entries := [Record("A", "m", [1]), Record("C", "x", [99])];
    assert entries[..1] == [entries[0]];
    assert entries[1].ascends[0] == 99 && !ValidId(99);
  }
}
