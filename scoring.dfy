/** The rarity-weighted point scheme of one category, as functions.

    Every boulder shares out `TotalPointsPerBoulder` points among the ascents
    it received in the category: with `k` ascents, each is worth `100 / k`.
    A competitor's score is the sum of the values of the ascents they listed.
    Points are exact rationals (`real`). The sums run over a sequence from its
    end, the order in which the script's loops extend it. */
module Scoring {
  import opened Catalog
  import opened Records

  /** Ascents in `ids` that land on point slot `b`, each repetition counted. */
  function Occurrences(ids: seq<int>, b: nat): (k: nat)
    requires ValidAscends(ids)
    ensures k <= |ids|
  {
    if ids == [] then 0
    else Occurrences(ids[..|ids| - 1], b) + (if Slot(ids[|ids| - 1]) == b then 1 else 0)
  }

  /** How many ascents slot `b` received over all records of the category. */
  function Rarity(rs: seq<Record>, b: nat): nat
    requires ValidRecords(rs)
  {
    if rs == [] then 0
    else Rarity(rs[..|rs| - 1], b) + Occurrences(rs[|rs| - 1].ascends, b)
  }

  /** Per-ascent value of a boulder climbed `k` times. */
  function Value(k: nat): (v: real)
    ensures 0 < k ==> v * (k as real) == TotalPointsPerBoulder
    ensures 0 < k ==> 0.0 < v <= TotalPointsPerBoulder
    ensures k == 0 ==> v == 0.0
  {
    if k > 0 then TotalPointsPerBoulder / (k as real) else 0.0
  }

  /** The point table after the conversion pass: one value per slot. */
  function PointValues(rs: seq<Record>): (values: seq<real>)
    requires ValidRecords(rs)
    ensures |values| == NumBoulders
  {
    seq(NumBoulders, b requires 0 <= b < NumBoulders => Value(Rarity(rs, b)))
  }

  /** A point table none of whose values is negative. */
  predicate NonNegative(values: seq<real>) {
    forall b :: 0 <= b < |values| ==> 0.0 <= values[b]
  }

  /** Sum of the table values of the listed ascents. */
  function Score(ids: seq<int>, values: seq<real>): (points: real)
    requires ValidAscends(ids) && |values| == NumBoulders
    ensures ids == [] ==> points == 0.0
    ensures NonNegative(values) ==> 0.0 <= points
  {
    if ids == [] then 0.0
    else Score(ids[..|ids| - 1], values) + values[Slot(ids[|ids| - 1])]
  }

  /** The unsorted ranking: one entry per record, in input order. */
  function Scored(rs: seq<Record>, values: seq<real>): (es: seq<Entry>)
    requires ValidRecords(rs) && |values| == NumBoulders
    ensures |es| == |rs|
    ensures forall i :: 0 <= i < |rs| ==>
      es[i].name == rs[i].name && es[i].tag == rs[i].tag && es[i].points == Score(rs[i].ascends, values)
  {
    if rs == [] then []
    else
      var last := rs[|rs| - 1];
      Scored(rs[..|rs| - 1], values) + [Entry(last.name, last.tag, Score(last.ascends, values))]
  }

  /** The points of slot `b` that the listed ascents collect. */
  function Share(ids: seq<int>, values: seq<real>, b: nat): real
    requires ValidAscends(ids) && |values| == NumBoulders && b < NumBoulders
  {
    if ids == [] then 0.0
    else Share(ids[..|ids| - 1], values, b) + (if Slot(ids[|ids| - 1]) == b then values[b] else 0.0)
  }

  /** The points of slot `b` handed out over all records. */
  function Budget(rs: seq<Record>, values: seq<real>, b: nat): real
    requires ValidRecords(rs) && |values| == NumBoulders && b < NumBoulders
  {
    if rs == [] then 0.0
    else Budget(rs[..|rs| - 1], values, b) + Share(rs[|rs| - 1].ascends, values, b)
  }

  /** Sum of the points of all entries. */
  function TotalPoints(es: seq<Entry>): real {
    if es == [] then 0.0 else TotalPoints(es[..|es| - 1]) + es[|es| - 1].points
  }

  /** Number of slots below `n` that somebody in the category climbed. */
  function Climbed(rs: seq<Record>, n: nat): (c: nat)
    requires ValidRecords(rs) && n <= NumBoulders
    ensures c <= n
  {
    if n == 0 then 0 else Climbed(rs, n - 1) + (if Rarity(rs, n - 1) > 0 then 1 else 0)
  }

  /** Every value of the point table is non-negative, so is every score. */
  lemma {:induction false} PointValuesNonNegative(rs: seq<Record>)
    requires ValidRecords(rs)
    ensures NonNegative(PointValues(rs))
    ensures forall i :: 0 <= i < |rs| ==> 0.0 <= Scored(rs, PointValues(rs))[i].points
  {
  }

  /** A slot nobody climbed is worth nothing; a slot climbed `k` times is worth
      exactly `100 / k` per ascent. */
  lemma {:induction false} PointValueOfSlot(rs: seq<Record>, b: nat)
    requires ValidRecords(rs) && b < NumBoulders
    ensures Rarity(rs, b) == 0 ==> PointValues(rs)[b] == 0.0
    ensures Rarity(rs, b) > 0 ==> PointValues(rs)[b] == TotalPointsPerBoulder / (Rarity(rs, b) as real)
  {
  }

  /** One more ascent adds one to the count of its own slot only. */
  lemma {:induction false} OccurrencesAppend(ids: seq<int>, x: int, b: nat)
    requires ValidAscends(ids) && ValidId(x)
    ensures ValidAscends(ids + [x])
    ensures Occurrences(ids + [x], b) == Occurrences(ids, b) + (if Slot(x) == b then 1 else 0)
  {
    assert (ids + [x])[..|ids|] == ids;
  }

  /** Counting the occurrences of one more record. */
  lemma {:induction false} RarityAppend(rs: seq<Record>, r: Record, b: nat)
    requires ValidRecords(rs) && ValidAscends(r.ascends)
    ensures ValidRecords(rs + [r])
    ensures Rarity(rs + [r], b) == Rarity(rs, b) + Occurrences(r.ascends, b)
  {
    assert (rs + [r])[..|rs|] == rs;
  }

  /** Rarity is additive over a concatenation of record lists. */
  lemma {:induction false} RarityConcat(xs: seq<Record>, ys: seq<Record>, b: nat)
    requires ValidRecords(xs) && ValidRecords(ys)
    ensures ValidRecords(xs + ys)
    ensures Rarity(xs + ys, b) == Rarity(xs, b) + Rarity(ys, b)
    decreases |ys|
  {
    if ys == [] {
      assert xs + ys == xs;
    } else {
      var init, last := ys[..|ys| - 1], ys[|ys| - 1];
      assert ys == init + [last];
      assert xs + ys == (xs + init) + [last];
      RarityConcat(xs, init, b);
      RarityAppend(xs + init, last, b);
    }
  }

  /** `v` added up `k` times. */
  function Times(k: nat, v: real): real {
    if k == 0 then 0.0 else Times(k - 1, v) + v
  }

  /** Adding up `v` is multiplying by the number of summands. */
  lemma {:induction false} TimesIsProduct(k: nat, v: real)
    ensures Times(k, v) == (k as real) * v
  {
    if k > 0 {
      TimesIsProduct(k - 1, v);
    }
  }

  /** Adding up `v` first `m` and then `n` times is adding it up `m + n` times. */
  lemma {:induction false} TimesAdd(m: nat, n: nat, v: real)
    ensures Times(m + n, v) == Times(m, v) + Times(n, v)
  {
    if n > 0 {
      TimesAdd(m, n - 1, v);
    }
  }

  /** Slot `b` hands a list its value once per occurrence. */
  lemma {:induction false} ShareIsRepeatedValue(ids: seq<int>, values: seq<real>, b: nat)
    requires ValidAscends(ids) && |values| == NumBoulders && b < NumBoulders
    ensures Share(ids, values, b) == Times(Occurrences(ids, b), values[b])
  {
    if ids != [] {
      ShareIsRepeatedValue(ids[..|ids| - 1], values, b);
    }
  }

  /** Slot `b` hands out its value once per ascent in the category. */
  lemma {:induction false} BudgetIsRepeatedValue(rs: seq<Record>, values: seq<real>, b: nat)
    requires ValidRecords(rs) && |values| == NumBoulders && b < NumBoulders
    ensures Budget(rs, values, b) == Times(Rarity(rs, b), values[b])
  {
    if rs != [] {
      var init, last := rs[..|rs| - 1], rs[|rs| - 1];
      BudgetIsRepeatedValue(init, values, b);
      ShareIsRepeatedValue(last.ascends, values, b);
      TimesAdd(Rarity(init, b), Occurrences(last.ascends, b), values[b]);
    }
  }

  /** Some ascent of the list lands on slot `b`. */
  predicate ListsSlot(ids: seq<int>, b: nat)
    requires ValidAscends(ids)
  {
    exists j :: 0 <= j < |ids| && Slot(ids[j]) == b
  }

  /** Some line of the category lists an id of slot `b`. */
  predicate Listed(rs: seq<Record>, b: nat)
    requires ValidRecords(rs)
  {
    exists i :: 0 <= i < |rs| && ListsSlot(rs[i].ascends, b)
  }

  /** A slot is counted exactly when some ascent of the list lands on it. */
  lemma {:induction false} OccurrencesPositive(ids: seq<int>, b: nat)
    requires ValidAscends(ids)
    ensures Occurrences(ids, b) > 0 <==> ListsSlot(ids, b)
  {
    if ids != [] {
      var init, x := ids[..|ids| - 1], ids[|ids| - 1];
      OccurrencesPositive(init, b);
      if ListsSlot(init, b) {
        var j :| 0 <= j < |init| && Slot(init[j]) == b;
        assert ids[j] == init[j];
      }
      if ListsSlot(ids, b) && Slot(x) != b {
        var j :| 0 <= j < |ids| && Slot(ids[j]) == b;
        assert init[j] == ids[j];
      }
    }
  }

  /** A boulder is climbed in the category exactly when some line lists it. */
  lemma {:induction false} ClimbedIffListed(rs: seq<Record>, b: nat)
    requires ValidRecords(rs)
    ensures Rarity(rs, b) > 0 <==> Listed(rs, b)
  {
    if rs != [] {
      var init, r := rs[..|rs| - 1], rs[|rs| - 1];
      ClimbedIffListed(init, b);
      OccurrencesPositive(r.ascends, b);
      if Listed(init, b) {
        var i :| 0 <= i < |init| && ListsSlot(init[i].ascends, b);
        assert rs[i] == init[i];
      }
      if Listed(rs, b) && !ListsSlot(r.ascends, b) {
        var i :| 0 <= i < |rs| && ListsSlot(rs[i].ascends, b);
        assert init[i] == rs[i];
      }
    }
  }

  /** Budget invariant: every boulder climbed in the category hands out exactly
      `TotalPointsPerBoulder` points in all, over all its listed ascents; a
      boulder nobody climbed hands out none. */
  lemma {:induction false} BudgetInvariant(rs: seq<Record>, b: nat)
    requires ValidRecords(rs) && b < NumBoulders
    ensures Rarity(rs, b) > 0 ==> Budget(rs, PointValues(rs), b) == TotalPointsPerBoulder
    ensures Rarity(rs, b) == 0 ==> Budget(rs, PointValues(rs), b) == 0.0
  {
    var k := Rarity(rs, b);
    BudgetIsRepeatedValue(rs, PointValues(rs), b);
    TimesIsProduct(k, Value(k));
  }

  /** Sum over the slots below `n` of the points each hands to the list. */
  function ShareSum(ids: seq<int>, values: seq<real>, n: nat): real
    requires ValidAscends(ids) && |values| == NumBoulders && n <= NumBoulders
  {
    if n == 0 then 0.0 else ShareSum(ids, values, n - 1) + Share(ids, values, n - 1)
  }

  /** Adding one ascent to a list adds its value to the share sum when its slot is below `n`. */
  lemma {:induction false} ShareSumAppend(ids: seq<int>, x: int, values: seq<real>, n: nat)
    requires ValidAscends(ids) && ValidId(x) && |values| == NumBoulders && n <= NumBoulders
    ensures ValidAscends(ids + [x])
    ensures ShareSum(ids + [x], values, n) ==
      ShareSum(ids, values, n) + (if Slot(x) < n then values[Slot(x)] else 0.0)
  {
    assert (ids + [x])[..|ids|] == ids;
    if n > 0 {
      ShareSumAppend(ids, x, values, n - 1);
    }
  }

  /** A score is the sum over all slots of the points each slot hands to the list. */
  lemma {:induction false} ScoreIsSumOfShares(ids: seq<int>, values: seq<real>)
    requires ValidAscends(ids) && |values| == NumBoulders
    ensures Score(ids, values) == ShareSum(ids, values, NumBoulders)
  {
    if ids == [] {
      ShareSumOfEmpty(values, NumBoulders);
    } else {
      var init, x := ids[..|ids| - 1], ids[|ids| - 1];
      assert ids == init + [x];
      ScoreIsSumOfShares(init, values);
      ShareSumAppend(init, x, values, NumBoulders);
    }
  }

  /** The empty list collects nothing from any slot. */
  lemma {:induction false} ShareSumOfEmpty(values: seq<real>, n: nat)
    requires |values| == NumBoulders && n <= NumBoulders
    ensures ShareSum([], values, n) == 0.0
  {
    if n > 0 {
      ShareSumOfEmpty(values, n - 1);
    }
  }

  /** Sum over the slots below `n` of the points each hands out. */
  function BudgetSum(rs: seq<Record>, values: seq<real>, n: nat): real
    requires ValidRecords(rs) && |values| == NumBoulders && n <= NumBoulders
  {
    if n == 0 then 0.0 else BudgetSum(rs, values, n - 1) + Budget(rs, values, n - 1)
  }

  /** One more record adds its share sum to the budget sum. */
  lemma {:induction false} BudgetSumAppend(rs: seq<Record>, r: Record, values: seq<real>, n: nat)
    requires ValidRecords(rs) && ValidAscends(r.ascends) && |values| == NumBoulders && n <= NumBoulders
    ensures ValidRecords(rs + [r])
    ensures BudgetSum(rs + [r], values, n) == BudgetSum(rs, values, n) + ShareSum(r.ascends, values, n)
  {
    assert (rs + [r])[..|rs|] == rs;
    if n > 0 {
      BudgetSumAppend(rs, r, values, n - 1);
    }
  }

  /** No records hand out nothing. */
  lemma {:induction false} BudgetSumOfEmpty(values: seq<real>, n: nat)
    requires |values| == NumBoulders && n <= NumBoulders
    ensures BudgetSum([], values, n) == 0.0
  {
    if n > 0 {
      BudgetSumOfEmpty(values, n - 1);
    }
  }

  /** The scores of all records add up to what all slots hand out. */
  lemma {:induction false} TotalIsBudgetSum(rs: seq<Record>, values: seq<real>)
    requires ValidRecords(rs) && |values| == NumBoulders
    ensures TotalPoints(Scored(rs, values)) == BudgetSum(rs, values, NumBoulders)
  {
    if rs == [] {
      BudgetSumOfEmpty(values, NumBoulders);
    } else {
      var init, r := rs[..|rs| - 1], rs[|rs| - 1];
      assert rs == init + [r];
      var es := Scored(rs, values);
      assert es[..|es| - 1] == Scored(init, values);
      TotalIsBudgetSum(init, values);
      ScoreIsSumOfShares(r.ascends, values);
      BudgetSumAppend(init, r, values, NumBoulders);
    }
  }

  /** With the category's own point table, the slots below `n` hand out
      `TotalPointsPerBoulder` for each slot somebody climbed. */
  lemma {:induction false} BudgetSumCountsClimbed(rs: seq<Record>, n: nat)
    requires ValidRecords(rs) && n <= NumBoulders
    ensures BudgetSum(rs, PointValues(rs), n) == TotalPointsPerBoulder * (Climbed(rs, n) as real)
  {
    if n > 0 {
      BudgetSumCountsClimbed(rs, n - 1);
      BudgetInvariant(rs, n - 1);
    }
  }

  /** All scores of a category add up to `TotalPointsPerBoulder` per boulder
      that somebody in the category climbed. */
  lemma {:induction false} TotalPointsHandedOut(rs: seq<Record>)
    requires ValidRecords(rs)
    ensures TotalPoints(Scored(rs, PointValues(rs))) == TotalPointsPerBoulder * (Climbed(rs, NumBoulders) as real)
  {
    TotalIsBudgetSum(rs, PointValues(rs));
    BudgetSumCountsClimbed(rs, NumBoulders);
  }
}
