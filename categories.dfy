/** The category split of `getResults`: every line goes to the women's list
    when its tag is `w`, to the men's list when it is `m`, and otherwise to
    neither, with an error message printed for it. */
module Categories {
  import opened Records

  /** The records of `rs` whose tag is `tag`, in their order in `rs`. */
  function WithTag(rs: seq<Record>, tag: string): (r: seq<Record>)
    ensures |r| <= |rs|
  {
    if rs == [] then []
    else WithTag(rs[..|rs| - 1], tag) + (if rs[|rs| - 1].tag == tag then [rs[|rs| - 1]] else [])
  }

  /** A tag the split routes to a list. */
  predicate Known(tag: string) {
    tag == "m" || tag == "w"
  }

  /** Number of records whose tag is neither `m` nor `w`. */
  function Unrouted(rs: seq<Record>): (n: nat)
    ensures n <= |rs|
  {
    if rs == [] then 0
    else Unrouted(rs[..|rs| - 1]) + (if Known(rs[|rs| - 1].tag) then 0 else 1)
  }

  /** Splits the lines by tag, keeping their order; `errors` is the number of
      "unspecified gender" messages printed. */
  method SplitByCategory(entries: seq<Record>) returns (men: seq<Record>, women: seq<Record>, errors: nat)
    ensures men == WithTag(entries, "m")
    ensures women == WithTag(entries, "w")
    ensures errors == Unrouted(entries)
  {
    men, women, errors := [], [], 0;
    for i := 0 to |entries|
      invariant men == WithTag(entries[..i], "m")
      invariant women == WithTag(entries[..i], "w")
      invariant errors == Unrouted(entries[..i])
    {
      var entry := entries[i];
      assert entries[..i + 1][..i] == entries[..i];
      if entry.tag == "w" {
        women := women + [entry];
      } else if entry.tag == "m" {
        men := men + [entry];
      } else {
        errors := errors + 1;
      }
    }
    assert entries[..|entries|] == entries;
  }

  /** A record is in the list of a tag exactly when it is in the input and
      carries that tag. */
  lemma {:induction false} WithTagMembers(rs: seq<Record>, tag: string, r: Record)
    ensures r in WithTag(rs, tag) <==> r in rs && r.tag == tag
  {
    if rs != [] {
      var init, last := rs[..|rs| - 1], rs[|rs| - 1];
      WithTagMembers(init, tag, r);
      assert rs == init + [last];
    }
  }

  /** Splitting keeps input order: the records of a later stretch of input
      come after those of an earlier one. */
  lemma {:induction false} WithTagConcat(xs: seq<Record>, ys: seq<Record>, tag: string)
    ensures WithTag(xs + ys, tag) == WithTag(xs, tag) + WithTag(ys, tag)
    decreases |ys|
  {
    if ys == [] {
      assert xs + ys == xs;
    } else {
      var init := ys[..|ys| - 1];
      assert (xs + ys)[..|xs + ys| - 1] == xs + init;
      WithTagConcat(xs, init, tag);
    }
  }

  /** Every line is either routed to exactly one list or reported. */
  lemma {:induction false} SplitPartition(rs: seq<Record>)
    ensures |WithTag(rs, "m")| + |WithTag(rs, "w")| + Unrouted(rs) == |rs|
  {
    if rs != [] {
      SplitPartition(rs[..|rs| - 1]);
    }
  }
}
