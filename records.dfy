/** The records the ranking works on.

    An input line `name:tag:ids` has already been split into its three
    fields, and the comma-separated id list into integers: the empty id
    field is the empty sequence. */
module Records {
  import opened Catalog

  /** One competitor's line: name, category tag (`m`, `w` or anything else)
      and the boulders climbed, a repeated id being a repeated ascent. */
  datatype Record = Record(name: string, tag: string, ascends: seq<int>)

  /** One row of a ranking: `[name, tag, points]`. */
  datatype Entry = Entry(name: string, tag: string, points: real)

  /** Every id of the list can index the point table. */
  predicate ValidAscends(ids: seq<int>) {
    forall i :: 0 <= i < |ids| ==> ValidId(ids[i])
  }

  /** Every id of every record can index the point table. */
  predicate ValidRecords(rs: seq<Record>) {
    forall i :: 0 <= i < |rs| ==> ValidAscends(rs[i].ascends)
  }
}
