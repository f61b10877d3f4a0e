/** The counting loop of `plotGrades`: one counter per grade level, bumped
    once per ascent at the grade bucket of the boulder, over the men's and the
    women's records together. Boulder 0's placeholder grade `-1` indexes the
    last counter, so its ascents count as White. */
module Grades {
  import opened Catalog
  import opened Records
  import opened Scoring

  /** Ascents of the list whose grade bucket is `g`. */
  function BucketHits(ids: seq<int>, g: nat): (k: nat)
    requires ValidAscends(ids)
    ensures k <= |ids|
  {
    if ids == [] then 0
    else BucketHits(ids[..|ids| - 1], g) + (if Bucket(ids[|ids| - 1]) == g then 1 else 0)
  }

  /** Ascents of all records whose grade bucket is `g`. */
  function GradeCount(rs: seq<Record>, g: nat): nat
    requires ValidRecords(rs)
  {
    if rs == [] then 0
    else GradeCount(rs[..|rs| - 1], g) + BucketHits(rs[|rs| - 1].ascends, g)
  }

  /** One more ascent adds one to its own bucket only. */
  lemma {:induction false} BucketHitsAppend(ids: seq<int>, x: int, g: nat)
    requires ValidAscends(ids) && ValidId(x)
    ensures ValidAscends(ids + [x])
    ensures BucketHits(ids + [x], g) == BucketHits(ids, g) + (if Bucket(x) == g then 1 else 0)
  {
    assert (ids + [x])[..|ids|] == ids;
  }

  /** One more record adds its bucket hits. */
  lemma {:induction false} GradeCountAppend(rs: seq<Record>, r: Record, g: nat)
    requires ValidRecords(rs) && ValidAscends(r.ascends)
    ensures ValidRecords(rs + [r])
    ensures GradeCount(rs + [r], g) == GradeCount(rs, g) + BucketHits(r.ascends, g)
  {
    assert (rs + [r])[..|rs|] == rs;
  }

  /** Fills the grade counters for the given records. */
  method TallyGrades(data: seq<Record>) returns (bgrade: seq<int>)
    requires ValidRecords(data)
    ensures |bgrade| == NumGrades
    ensures forall g :: 0 <= g < NumGrades ==> bgrade[g] == GradeCount(data, g)
  {
    var counts := new int[NumGrades](_ => 0);
    for i := 0 to |data|
      invariant forall g :: 0 <= g < NumGrades ==> counts[g] == GradeCount(data[..i], g)
    {
      var ids := data[i].ascends;
      assert data[..i + 1][..i] == data[..i];
      if ids != [] {
        for j := 0 to |ids|
          invariant forall g :: 0 <= g < NumGrades ==>
            counts[g] == GradeCount(data[..i], g) + BucketHits(ids[..j], g)
        {
          assert ids[..j + 1][..j] == ids[..j];
          var g := Bucket(ids[j]);
          counts[g] := counts[g] + 1;
        }
        assert ids[..|ids|] == ids;
      }
    }
    assert data[..|data|] == data;
    bgrade := counts[..];
  }

  /** The counts over the men's and the women's records together are the sums
      of the counts over each. */
  lemma {:induction false} GradeCountConcat(xs: seq<Record>, ys: seq<Record>, g: nat)
    requires ValidRecords(xs) && ValidRecords(ys)
    ensures ValidRecords(xs + ys)
    ensures GradeCount(xs + ys, g) == GradeCount(xs, g) + GradeCount(ys, g)
    decreases |ys|
  {
    if ys == [] {
      assert xs + ys == xs;
    } else {
      var init, last := ys[..|ys| - 1], ys[|ys| - 1];
      assert (xs + ys)[..|xs + ys| - 1] == xs + init;
      GradeCountConcat(xs, init, g);
    }
  }

  /** The grade bucket of an id, read off its point slot. */
  lemma {:induction false} BucketOfSlot(id: int)
    requires ValidId(id)
    ensures Bucket(id) == if Slot(id) == 0 then White else GradeMapping(Slot(id))
  {
    CatalogGrades();
  }

  /** Sum, over the graded boulders `1 <= b < n` whose catalog grade is `g`, of
      their occurrences in the list. */
  function GradedOccurrences(ids: seq<int>, g: nat, n: nat): nat
    requires ValidAscends(ids) && n <= NumBoulders
  {
    if n <= 1 then 0
    else GradedOccurrences(ids, g, n - 1) + (if GradeMapping(n - 1) == g then Occurrences(ids, n - 1) else 0)
  }

  /** Sum, over the graded boulders `1 <= b < n` whose catalog grade is `g`, of
      their ascents in the category. */
  function GradedRarity(rs: seq<Record>, g: nat, n: nat): nat
    requires ValidRecords(rs) && n <= NumBoulders
  {
    if n <= 1 then 0
    else GradedRarity(rs, g, n - 1) + (if GradeMapping(n - 1) == g then Rarity(rs, n - 1) else 0)
  }

  /** One more ascent of slot `s` adds one to the graded occurrences when `s`
      is a graded boulder below `n` of grade `g`. */
  lemma {:induction false} GradedOccurrencesAppend(ids: seq<int>, x: int, g: nat, n: nat)
    requires ValidAscends(ids) && ValidId(x) && n <= NumBoulders
    ensures ValidAscends(ids + [x])
    ensures GradedOccurrences(ids + [x], g, n) ==
      GradedOccurrences(ids, g, n) + (if 1 <= Slot(x) < n && GradeMapping(Slot(x)) == g then 1 else 0)
  {
    if n > 1 {
      OccurrencesAppend(ids, x, n - 1);
      GradedOccurrencesAppend(ids, x, g, n - 1);
    } else {
      OccurrencesAppend(ids, x, 0);
    }
  }

  lemma {:induction false} GradedOccurrencesOfEmpty(g: nat, n: nat)
    requires n <= NumBoulders
    ensures GradedOccurrences([], g, n) == 0
  {
    if n > 1 {
      GradedOccurrencesOfEmpty(g, n - 1);
    }
  }

  lemma {:induction false} GradedRarityOfNoRecords(g: nat, n: nat)
    requires n <= NumBoulders
    ensures GradedRarity([], g, n) == 0
  {
    if n > 1 {
      GradedRarityOfNoRecords(g, n - 1);
    }
  }

  /** Per list: the bucket count of `g` is the ascents of graded boulders of
      catalog grade `g`, plus, for White, the ascents of boulder 0. */
  lemma {:induction false} BucketHitsByCatalog(ids: seq<int>, g: nat)
    requires ValidAscends(ids)
    ensures BucketHits(ids, g) ==
      GradedOccurrences(ids, g, NumBoulders) + (if g == White then Occurrences(ids, 0) else 0)
  {
    if ids == [] {
      GradedOccurrencesOfEmpty(g, NumBoulders);
    } else {
      var init, x := ids[..|ids| - 1], ids[|ids| - 1];
      assert ids == init + [x];
      BucketHitsByCatalog(init, g);
      GradedOccurrencesAppend(init, x, g, NumBoulders);
      BucketOfSlot(x);
    }
  }

  /** One more record adds its graded occurrences. */
  lemma {:induction false} GradedRarityAppend(rs: seq<Record>, r: Record, g: nat, n: nat)
    requires ValidRecords(rs) && ValidAscends(r.ascends) && n <= NumBoulders
    ensures ValidRecords(rs + [r])
    ensures GradedRarity(rs + [r], g, n) == GradedRarity(rs, g, n) + GradedOccurrences(r.ascends, g, n)
  {
    if n > 1 {
      GradedRarityAppend(rs, r, g, n - 1);
      RarityAppend(rs, r, n - 1);
    } else {
      assert (rs + [r])[..|rs|] == rs;
    }
  }

  /** Bucket `g` counts the ascents, over all records, of the boulders whose
      catalog grade is `g`; White also counts the ascents of boulder 0, whose
      grade `-1` indexes the last counter. */
  lemma {:induction false} GradeCountByCatalog(rs: seq<Record>, g: nat)
    requires ValidRecords(rs)
    ensures GradeCount(rs, g) ==
      GradedRarity(rs, g, NumBoulders) + (if g == White then Rarity(rs, 0) else 0)
  {
    if rs == [] {
      GradedRarityOfNoRecords(g, NumBoulders);
    } else {
      var init, r := rs[..|rs| - 1], rs[|rs| - 1];
      assert rs == init + [r];
      GradeCountByCatalog(init, g);
      BucketHitsByCatalog(r.ascends, g);
      GradedRarityAppend(init, r, g, NumBoulders);
      RarityAppend(init, r, 0);
    }
  }

  /** When nobody lists boulder 0, every bucket counts exactly the ascents of
      the boulders of its catalog grade. */
  lemma {:induction false} GradeCountWithoutBoulderZero(rs: seq<Record>, g: nat)
    requires ValidRecords(rs) && Rarity(rs, 0) == 0
    ensures GradeCount(rs, g) == GradedRarity(rs, g, NumBoulders)
  {
    GradeCountByCatalog(rs, g);
  }

  /** Sum of the bucket counts `g < m` of one list. */
  function HitsBelow(ids: seq<int>, m: nat): nat
    requires ValidAscends(ids)
  {
    if m == 0 then 0 else HitsBelow(ids, m - 1) + BucketHits(ids, m - 1)
  }

  /** One more ascent adds one to the buckets below `m` when its bucket is one of them. */
  lemma {:induction false} HitsBelowAppend(ids: seq<int>, x: int, m: nat)
    requires ValidAscends(ids) && ValidId(x)
    ensures ValidAscends(ids + [x])
    ensures HitsBelow(ids + [x], m) == HitsBelow(ids, m) + (if Bucket(x) < m then 1 else 0)
  {
    if m > 0 {
      HitsBelowAppend(ids, x, m - 1);
      BucketHitsAppend(ids, x, m - 1);
    } else {
      BucketHitsAppend(ids, x, 0);
    }
  }

  /** Every ascent of a list lands in exactly one bucket. */
  lemma {:induction false} BucketsCoverList(ids: seq<int>)
    requires ValidAscends(ids)
    ensures HitsBelow(ids, NumGrades) == |ids|
  {
    if ids == [] {
      assert HitsBelow(ids, 0) == 0;
      BucketsOfEmpty(NumGrades);
    } else {
      var init, x := ids[..|ids| - 1], ids[|ids| - 1];
      assert ids == init + [x];
      BucketsCoverList(init);
      HitsBelowAppend(init, x, NumGrades);
    }
  }

  lemma {:induction false} BucketsOfEmpty(m: nat)
    ensures HitsBelow([], m) == 0
  {
    if m > 0 {
      BucketsOfEmpty(m - 1);
    }
  }

  /** Number of ascents listed over all records. */
  function AscentCount(rs: seq<Record>): nat {
    if rs == [] then 0 else AscentCount(rs[..|rs| - 1]) + |rs[|rs| - 1].ascends|
  }

  /** Sum of the bucket counts `g < m` over all records. */
  function CountsBelow(rs: seq<Record>, m: nat): nat
    requires ValidRecords(rs)
  {
    if m == 0 then 0 else CountsBelow(rs, m - 1) + GradeCount(rs, m - 1)
  }

  /** One more record adds its bucket counts. */
  lemma {:induction false} CountsBelowAppend(rs: seq<Record>, r: Record, m: nat)
    requires ValidRecords(rs) && ValidAscends(r.ascends)
    ensures ValidRecords(rs + [r])
    ensures CountsBelow(rs + [r], m) == CountsBelow(rs, m) + HitsBelow(r.ascends, m)
  {
    GradeCountAppend(rs, r, if m > 0 then m - 1 else 0);
    var xs, ids := rs + [r], r.ascends;
    if m > 0 {
      CountsBelowAppend(rs, r, m - 1);
      assert CountsBelow(xs, m) == CountsBelow(xs, m - 1) + GradeCount(xs, m - 1);
      assert HitsBelow(ids, m) == HitsBelow(ids, m - 1) + BucketHits(ids, m - 1);
    }
  }

  lemma {:induction false} CountsOfNoRecords(m: nat)
    ensures CountsBelow([], m) == 0
  {
    if m > 0 {
      CountsOfNoRecords(m - 1);
    }
  }

  /** The grade counters add up to the number of ascents listed: every ascent
      is counted in exactly one grade. */
  lemma {:induction false} GradeCountsAddUp(rs: seq<Record>)
    requires ValidRecords(rs)
    ensures CountsBelow(rs, NumGrades) == AscentCount(rs)
  {
    if rs == [] {
      CountsOfNoRecords(NumGrades);
    } else {
      var init, r := rs[..|rs| - 1], rs[|rs| - 1];
      assert rs == init + [r];
      GradeCountsAddUp(init);
      CountsBelowAppend(init, r, NumGrades);
      BucketsCoverList(r.ascends);
    }
  }
}
