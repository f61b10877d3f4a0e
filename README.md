# Minimum Plauschwettkampf ranking — a Dafny model

The ranking script scores a bouldering competition. Each input line names a
competitor, their category (`m` or `w`) and the ids of the boulders they
topped. The script works in these steps:

- It splits the lines by category.
- For each category it counts how often every boulder was climbed. Each
  boulder shares `totalPointsPerBoulder` (100) points equally among its
  ascents.
- It sums each competitor's ascent values.
- It sorts the result best first with Python's stable `sorted`.
- Separately, it counts the ascents per difficulty grade, using the
  `grade_mapping` catalog.

The model is imperative where the script is:

- The point table is an `array<real>`. The counting pass fills it, and the
  conversion pass overwrites it in place.
- The summation and grade loops are `for` loops with invariants.
- Python's `sorted` is an in-place insertion sort on an `array<Entry>`.

Every method is proved against specification functions: `Rarity`,
`PointValues`, `Scored`, `InsSort`, `WithTag` and `GradeCount`. The
properties the scheme promises are lemmas about those functions:

- every climbed boulder hands out exactly 100 points;
- the total handed out is 100 times the number of climbed boulders;
- the ranking is a sorted, stable permutation;
- the grade counters cover every ascent exactly once.

Points are exact rationals (`real`).

Modules:

- `Catalog` holds the constants, plus Python's list-indexing rule for
  negative ids. The `grade_mapping` list is written there as a lookup
  function from boulder id to grade.
- `Records` holds the parsed input line and the ranking entry.
- `Scoring` is the point scheme as functions.
- `Sorting` is the stable best-first order and the in-place sort.
- `Ranking` is `compileRanking`.
- `Categories` is the split in `getResults`.
- `Grades` is the counting loop of `plotGrades`.
- `Standings` is how `main` chains these steps.

The model follows the code as written in these places:

- A line with an unknown category prints an error message and is skipped.
  Processing carries on with the next line.
- An id listed twice by one competitor counts twice.
- The grade statistics count ascents, not boulders. Boulder 0's placeholder
  grade `-1` indexes the last counter, so its ascents count as White.
- A negative id in `-51..-1` is accepted and names boulder `51 + id`,
  as Python list indexing does.

## Model

| member | source | states |
|---|---|---|
| Catalog.GradeMapping | ranking.py:22 | the catalog grade of each of the 51 boulders, value by value; every value is -1 or a grade in 0..5, and -1 only for boulder 0 |
| Catalog.CatalogGrades | ranking.py:22 | boulder 0 carries the placeholder -1, and every other of the 51 boulders has a grade in 0..5 |
| Catalog.PyIndex | ranking.py:58 | the position Python reads for an index in -n..n-1 is below n: the index itself when non-negative, n plus the index when negative |
| Catalog.Bucket | ranking.py:131 | the grade counter hit by an ascent is below 6: the catalog grade for ids 1..50, and White for boulder 0, whose -1 wraps to the last counter |
| Scoring.Value | ranking.py:60-62 | a count k > 0 turns into a value v with v * k == 100 and 0 < v <= 100; a zero count stays 0 |
| Scoring.PointValueOfSlot | ranking.py:60-62 | each slot of the converted table is 100 / rarity when climbed, else 0 |
| Scoring.PointValuesNonNegative | ranking.py:60-71 | no table value and no competitor's score is negative |
| Scoring.RarityConcat | ranking.py:54-58 | the rarity of a boulder over two stretches of lines is the sum of its rarities over each |
| Scoring.Score | ranking.py:67-70 | a competitor with no ascents scores 0, and no score is negative under a non-negative table |
| Scoring.Scored | ranking.py:64-71 | one entry per record, in input order, with the record's name and category and the score of its ascents |
| Scoring.BudgetInvariant | ranking.py:54-70 | the ascents of a climbed boulder collect exactly 100 points in total; an unclimbed boulder hands out 0 |
| Scoring.OccurrencesPositive | ranking.py:56-58 | a slot is counted for a list iff some id of the list lands on it |
| Scoring.ClimbedIffListed | ranking.py:54-58 | a boulder has a positive count iff some line of the category lists an id for it |
| Scoring.ScoreIsSumOfShares | ranking.py:67-70 | a score is the sum, over the boulders, of what the listed ascents of each boulder collect |
| Scoring.TotalIsBudgetSum | ranking.py:64-71 | the points of all entries add up to the sum, over the boulders, of what each hands out |
| Scoring.TotalPointsHandedOut | ranking.py:51-71 | the points of one category's ranking add up to 100 times the number of boulders climbed in it |
| Ranking.TallyAscends | ranking.py:52-58 | the fresh 51-slot table counts, per slot, the ascents of all records; an empty list adds nothing |
| Ranking.ConvertToValues | ranking.py:60-62 | the table holds the point value of every slot afterwards: 100 / count for a counted slot, 0 for the rest |
| Ranking.ScoreRecords | ranking.py:64-71 | the entries are the records scored against the table, in input order |
| Ranking.CompileRanking | ranking.py:51-75 | the ranking is the sorted scored list: a permutation of it, best first, equal points in input order |
| Ranking.RankedPointsNonNegative | ranking.py:51-75 | nobody in a ranking has negative points |
| Ranking.AllEmptyKeepsInputOrder | ranking.py:55-73 | with no ascents listed everybody scores 0 and the ranking is the input order |
| Ranking.TwoClimbersExample | ranking.py:51-75 | two competitors sharing boulder 1, with one of them also on boulder 2, score 150 and 50 in that order |
| Sorting.InsertPos | ranking.py:73 | an entry goes behind every entry with at least its points and before the trailing entries with fewer |
| Sorting.InsSortSorted | ranking.py:73 | the reference sort yields a list with non-increasing points |
| Sorting.InsSortPermutation | ranking.py:73 | the reference sort keeps exactly the same entries (multiset equality) |
| Sorting.InsSortStable | ranking.py:73 | the reference sort keeps the input order within each points value |
| Sorting.SortedStableUnique | ranking.py:73 | two orderings that are both best first and keep each points value's input order are equal, so the reference sort is exactly what a stable reverse sort gives |
| Sorting.EqualPointsKeepOrder | ranking.py:73 | when all points are equal the sort leaves the list unchanged |
| Sorting.WithPointsMember | ranking.py:73 | an entry of a points class has those points and comes from the list |
| Sorting.WithPointsConcat | ranking.py:73 | the points class of a concatenation is the concatenation of the classes |
| Sorting.FindInsertPos | ranking.py:73 | the scan stops at the insertion position of the reference sort |
| Sorting.InsertInPlace | ranking.py:73 | after one step, the first i + 1 cells are the sorted prefix with the next entry inserted; the rest of the array is unchanged |
| Sorting.SortByPointsDesc | ranking.py:73 | the array ends as the reference sort of its old contents |
| Categories.SplitByCategory | ranking.py:40-46 | the women's and men's lists are exactly the lines tagged `w` and `m`, in input order; the error count is the number of other lines |
| Categories.WithTagMembers | ranking.py:41-44 | a line is in a category's list iff it is an input line carrying that tag |
| Categories.WithTagConcat | ranking.py:36-46 | splitting a later stretch of lines appends to the lists of an earlier one |
| Categories.SplitPartition | ranking.py:41-46 | the men's lines, the women's lines and the reported lines add up to all lines |
| Grades.TallyGrades | ranking.py:125-131 | the six counters are, per grade, the number of ascents whose boulder falls in that grade bucket |
| Grades.GradeCountConcat | ranking.py:182 | counting over the men's lines followed by the women's gives the sum of the two counts |
| Grades.BucketOfSlot | ranking.py:131 | the bucket of an id is White for slot 0, and otherwise the catalog grade of its slot |
| Grades.BucketHitsByCatalog | ranking.py:128-131 | per list, a bucket counts the ascents of the boulders of that catalog grade, and White also the ascents of boulder 0 |
| Grades.GradeCountByCatalog | ranking.py:125-131 | over all records, a bucket counts the ascents of the boulders whose catalog grade it is, and White also the ascents of boulder 0 |
| Grades.GradeCountWithoutBoulderZero | ranking.py:125-131 | with no ascent of boulder 0, every bucket counts exactly the ascents of its catalog grade |
| Grades.BucketsCoverList | ranking.py:130-131 | the ascents of one list land in the six buckets exactly once each |
| Grades.GradeCountsAddUp | ranking.py:125-131 | the six counters add up to the number of ascents listed |
| Standings.WithTagValid | ranking.py:40-46 | a category's lines keep valid ids |
| Standings.Results | ranking.py:164-182 | each category is ranked with its own point table, and the grade counters are the sums over both categories; only the lines tagged `m` or `w` need valid ids; the number of reported lines is returned, and with the two categories it accounts for every line |
| Standings.BothCategoriesCounted | ranking.py:182 | the grade counters over the men's lines followed by the women's are, per grade, the sums of each category's counters |
| Standings.UnroutedLineIsIgnored | ranking.py:41-46 | a line with another tag and an id no table has still leaves valid category lists, so the chain accepts it |

## Left out

- File reading in `getResults` is not modelled: the model takes the already split lines. This covers the line loop, `rstrip` and `split(":")`.
- The "unspecified gender" message is not modelled; the split and `Results` return the number of lines it was printed for.
- Id parsing (`int(boulder)` on the comma-split field) is not modelled: the model takes each record's ids as a list of integers, and the empty field as the empty list. A non-numeric id, which would raise ValueError, is not modelled.
- An id outside -51..50 on a line tagged `m` or `w` raises IndexError in the script. In the model the requirement `ValidRecords` on the category lists excludes it instead. Ids on a line with any other tag are never used, and the model accepts them.
- A line with fewer than three `:`-separated fields raises IndexError, and the model does not capture it because a record always has all three fields. A one-field line fails at `entry[1]` (ranking.py:41). A two-field line tagged `m` or `w` passes the split and fails at `res[2]` (ranking.py:55).
- Floating point is not modelled: points are exact `real` values, so rounding of `100.0 / k` and of the running sums is not captured. This can matter for ties that exact arithmetic breaks differently.
- `plotRanking`, `printRanking`, the bar scaling in `main` and the HTML page are not modelled. They are output only, and so are `numFinalists`, the finalist colouring, `grades_color` and `grades_abbrev` (apart from its length, 6).
- The percentage line in `plotGrades` (ranking.py:133) and the grade plot are not modelled. Line 133 rounds floats, finds its divisor with `bgrade.index(x)`, which picks the first equal counter, and divides by zero only when both categories are empty, because its divisor is `len(data)` times a catalog count that is positive for every grade 0..5, and `data` is the men's and the women's lines together (ranking.py:182).
- CompileRanking: the model requires valid ids. The script raises IndexError on an out-of-range id; the model does not capture that error path.
- Standings.Results: the bar scaling of `main` by the best score is not modelled, and neither are its two failures. `main` raises IndexError on an empty category, at `maleRanking[0]` (ranking.py:170) or `femaleRanking[0]` (ranking.py:176). It raises ZeroDivisionError when a category has lines but none of them lists an ascent, because every score and so the best score is 0 (ranking.py:171, ranking.py:177). Both failures happen before the grade tally (ranking.py:182), so the script never computes the counters that `Results` returns for such input.
