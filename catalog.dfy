/** The boulder catalog and the fixed parameters of the ranking script.

    A boulder id is an index into the catalog. The script indexes Python lists
    with it directly, so an id in -n..n-1 is accepted for a list of length n
    (a negative id counts from the end) and anything else raises IndexError.
    PyIndex models that indexing rule. */
module Catalog {

  /** Difficulty grade of every boulder, by boulder id: the catalog list
      written out as a lookup, ten ids per line (0-9, 10-19, ...).
      Grades 0..5 are Yellow, Green, Orange, Blue, Red, White; boulder 0 is the
      placeholder `-1`. */
  function GradeMapping(b: nat): (g: int)
    requires b < NumBoulders
    ensures -1 <= g < NumGrades as int
    ensures g == -1 <==> b == 0
  {
    match b
      case 0 => -1 case 1 => 2 case 2 => 0 case 3 => 1 case 4 => 2 case 5 => 3 case 6 => 1 case 7 => 5 case 8 => 2 case 9 => 3
      case 10 => 1 case 11 => 2 case 12 => 1 case 13 => 1 case 14 => 0 case 15 => 3 case 16 => 1 case 17 => 2 case 18 => 4 case 19 => 2
      case 20 => 3 case 21 => 0 case 22 => 4 case 23 => 2 case 24 => 1 case 25 => 2 case 26 => 3 case 27 => 2 case 28 => 4 case 29 => 2
      case 30 => 0 case 31 => 1 case 32 => 1 case 33 => 3 case 34 => 4 case 35 => 5 case 36 => 3 case 37 => 2 case 38 => 3 case 39 => 1
      case 40 => 3 case 41 => 0 case 42 => 1 case 43 => 2 case 44 => 2 case 45 => 3 case 46 => 4 case 47 => 5 case 48 => 4 case 49 => 2
      case _ => 1  // boulder 50
  }

  /** Number of boulders: the length of the catalog list and of the point table. */
  const NumBoulders: nat := 51

  /** Number of grade levels (the length of the grade abbreviation list). */
  const NumGrades: nat := 6

  /** The index of the White grade, where boulder 0's `-1` lands. */
  const White: nat := 5

  /** Points shared out among the ascents of one boulder. */
  const TotalPointsPerBoulder: real := 100.0

  /** True when `i` indexes a Python list of length `n` without IndexError. */
  predicate InRange(i: int, n: nat) {
    -(n as int) <= i < n
  }

  /** The list position that Python's `xs[i]` reads for a list of length `n`. */
  function PyIndex(i: int, n: nat): (k: nat)
    requires InRange(i, n)
    ensures k < n
    ensures 0 <= i ==> k == i
    ensures i < 0 ==> k == i + n
  {
    if i < 0 then i + n else i
  }

  /** A boulder id the point and grade tables can be indexed with. */
  predicate ValidId(id: int) {
    InRange(id, NumBoulders)
  }

  /** The point-table slot a boulder id refers to. */
  function Slot(id: int): (b: nat)
    requires ValidId(id)
    ensures b < NumBoulders
  {
    PyIndex(id, NumBoulders)
  }

  /** Every catalog grade is either a grade level or the placeholder -1, and
      only boulder 0 carries the placeholder. */
  lemma {:induction false} CatalogGrades()
    ensures GradeMapping(0) == -1
    ensures forall b :: 1 <= b < NumBoulders ==> 0 <= GradeMapping(b) < NumGrades
  {
  }

  /** The grade bucket `bgrade[grade_mapping[id]]` that an ascent of `id`
      increments. */
  function Bucket(id: int): (g: nat)
    requires ValidId(id)
    ensures g < NumGrades
    ensures 1 <= id ==> g == GradeMapping(id)
    ensures id == 0 ==> g == White
  {
    CatalogGrades();
    PyIndex(GradeMapping(Slot(id)), NumGrades)
  }
}
