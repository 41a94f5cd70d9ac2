# Ticket prioritisation: scoring and ranking

A Dafny model of the ticket dashboard's ranking step, `apply_priority_rules` in
`src/dashboard.py`, with its two lookup tables. The step takes the loaded ticket
table and works in four parts:

1. It maps `Severity` through `SEVERITY_MAP` (Critical 1, High 2, Medium 3, Low 4)
   and `SLA` through `SLA_MAP` (1h 1, 4h 2, 1d 3, 3d 4, 7d 5). Any other label
   falls back to 5 for severity and 6 for SLA.
2. It computes `Priority_Score = 0.7 * Severity_Rank + 0.3 * SLA_Rank`. Lower means more urgent.
3. It sorts the rows ascending by `(Priority_Score, Created_At)`.
4. It numbers the sorted rows `Priority_Order = 1..N`.

An empty table is returned as it is.

Modules:

- `StringOrder` (`string_order.dfy`) defines Python's `<=` on strings, `StrLe`. It proves that
  `StrLe` is a total order. `read_csv` (`src/dashboard.py:30`) is not asked to parse dates, so a
  `Created_At` column of timestamps is read, and sorted, as text. The model always compares it this way.
- `Dashboard` (`dashboard.dfy`) holds the rest:
  - the `Ticket` record, the two tables, `SeverityRank` and `SlaRank`;
  - the score, in integer tenths (`7 * severity + 3 * SLA`, range 10..53, i.e. 1.0..5.3);
  - the sort key `KeyLe` and a stable insertion sort `SortTickets`;
  - the whole transform as a function, `PriorityRules`;
  - the caller's table as a class, `TicketFrame`. `apply_priority_rules` adds
    `Severity_Rank`, `SLA_Rank` and `Priority_Score` to the table it is given,
    in place. It then returns a new sorted table that also has `Priority_Order`.
    `TicketFrame.ApplyPriorityRules` models both effects.

Passthrough columns are a map from column name to cell text inside each `Ticket`.
Every output row holds its input `Ticket` unchanged. An empty cell in `Severity` or
`SLA` is read by pandas as NaN, which `fillna` also maps to the default rank.
The model writes such a cell as the empty string. The empty string is not in either
table, so it gets the same default rank.

The sort in `SortTickets` is stable. Rows tied on both score and `Created_At` keep
their input order. `SortCharacterized` proves that this output is the only
rearrangement of the input that is sorted and keeps that tie order. So the model's
result does not depend on how insertion sort works inside.

`apply_priority_rules` accepts an empty table and returns it unchanged
(`src/dashboard.py:39-40`); the model does the same.

`sort_values` on two columns (`src/dashboard.py:50`) does not ask for a stable
algorithm. The model's sort is stable, so the order of rows equal on both columns
is the model's choice. The rest of the result is fixed by sortedness and
permutation alone.

## Model

| member | source | states |
|---|---|---|
| `Dashboard.SeverityRank` | src/dashboard.py:11-16 | each of Critical, High, Medium, Low gets its own rank 1..4; every other label, and only those, gets 5; the rank is always within 1..5 |
| `Dashboard.SlaRank` | src/dashboard.py:18-24 | each of 1h, 4h, 1d, 3d, 7d gets its own rank 1..5; every other label, and only those, gets 6; the rank is always within 1..6 |
| `Dashboard.RanksOf` | src/dashboard.py:43-47 | a row's rank columns are the two table lookups, and its score lies between 1.0 and 5.3 (10..53 tenths) |
| `Dashboard.ScoreDeterminesRanks` | src/dashboard.py:47 | equal scores imply equal severity ranks and equal SLA ranks, so distinct rank pairs differ by at least 0.1 |
| `Dashboard.ScoreMonotone` | src/dashboard.py:46-47 | a ticket no worse on both ranks scores no higher, and strictly better on either rank scores strictly lower (lower is more urgent) |
| `Dashboard.KeyLe` | src/dashboard.py:50 | the ascending two-column key (score first, then Created_At); `KeyLeTotal`, `KeyLeTransitive` and `KeyLeAntisymmetric` prove it a total order whose ties are exactly the rows equal on both columns |
| `Dashboard.KeyLeTotal` | src/dashboard.py:50 | any two rows are comparable under the (score, Created_At) ordering |
| `Dashboard.KeyLeTransitive` | src/dashboard.py:50 | the (score, Created_At) ordering is transitive |
| `Dashboard.KeyLeAntisymmetric` | src/dashboard.py:50 | two rows are each ordered before the other exactly when they agree on both score and Created_At |
| `StringOrder.StrLe` | src/dashboard.py:50 | Python's `<=` on the Created_At text, code point by code point with a prefix first; `StrLeReflexive`, `StrLeTotal`, `StrLeAntisymmetric` and `StrLeTransitive` prove it a total order |
| `StringOrder.StrLeReflexive` | src/dashboard.py:50 | every Created_At string sorts no later than itself |
| `StringOrder.StrLeTotal` | src/dashboard.py:50 | any two Created_At strings are comparable |
| `StringOrder.StrLeAntisymmetric` | src/dashboard.py:50 | two Created_At strings each no later than the other are equal |
| `StringOrder.StrLeTransitive` | src/dashboard.py:50 | string comparison of Created_At is transitive |
| `StringOrder.PrefixStrLe` | src/dashboard.py:50 | a string sorts no later than any string it is a prefix of, so a date sorts before the same date with a time |
| `Dashboard.Insert` | src/dashboard.py:50 | inserting a row adds exactly that row to the multiset of rows |
| `Dashboard.SortTickets` | src/dashboard.py:50 | the sorted rows are a permutation of the input rows |
| `Dashboard.InsertSorted` | src/dashboard.py:50 | inserting into a sorted sequence keeps it sorted by (score, Created_At) |
| `Dashboard.SortSorted` | src/dashboard.py:50 | the sort output is ordered by (score, Created_At) for every pair of positions |
| `Dashboard.SortStable` | src/dashboard.py:50 | rows tied on both score and Created_At come out in their input order |
| `Dashboard.SortedUnique` | src/dashboard.py:50 | two sorted rearrangements of the same rows with the same tie order are equal |
| `Dashboard.SortCharacterized` | src/dashboard.py:50 | a sequence is the sort output if and only if it is sorted, a permutation of the input, and keeps the input order among tied rows |
| `Dashboard.Number` | src/dashboard.py:51-52 | numbering keeps the tickets in their sorted order, the orders rise strictly along the table, and they are exactly 1..N |
| `Dashboard.PriorityRules` | src/dashboard.py:37-54 | the input table comes back unchanged, with no columns added, exactly when it is empty; otherwise a ranked table with one row per input row |
| `Dashboard.RankedIsPermutation` | src/dashboard.py:43-51 | the ranked table holds exactly the input tickets, none dropped or duplicated, each with its passthrough columns unchanged |
| `Dashboard.RankedColumns` | src/dashboard.py:43-47 | every output row's Severity_Rank and SLA_Rank are its own ticket's lookups, and its score is 0.7 * Severity_Rank + 0.3 * SLA_Rank in tenths |
| `Dashboard.RankedIsSorted` | src/dashboard.py:49-50 | the output is non-decreasing by score, and by Created_At among rows of equal score |
| `Dashboard.RankedIsStable` | src/dashboard.py:50 | in the output, rows tied on both sort columns keep their input order |
| `Dashboard.RankedOrderIsDense` | src/dashboard.py:51-52 | the row at position i has Priority_Order i + 1, so the orders are exactly 1..N with no gap or duplicate |
| `Dashboard.OrderRespectsKey` | src/dashboard.py:50-52 | a smaller Priority_Order never has a larger score; a smaller score, or an equal score with a strictly earlier Created_At, always gets a smaller Priority_Order |
| `Dashboard.CriticalOneHourScore` | src/dashboard.py:47 | Critical with SLA 1h scores 1.0 (10 tenths) |
| `Dashboard.UnknownSeverityScore` | src/dashboard.py:43-47 | every severity label outside SEVERITY_MAP, with SLA 4h, scores 0.7 * 5 + 0.3 * 2 = 4.1 |
| `Dashboard.CriticalCanTrailHigh` | src/dashboard.py:47-50 | severity does not dominate: Critical with an unknown SLA (2.5) is ranked after High with SLA 1h (1.7) |
| `Dashboard.SortSwapsPair` | src/dashboard.py:50 | two rows whose key puts the second strictly first come out swapped |
| `Dashboard.SortKeepsPair` | src/dashboard.py:50 | two rows already in key order come out in that order |
| `Dashboard.DateBeforeDateTime` | src/dashboard.py:50 | at equal score, Created_At "2024-01-02" sorts before "2024-01-02 10:00" whatever their input order |
| `Dashboard.TwoRowExample` | src/dashboard.py:43-52 | Medium/3d (3.3) and Critical/1h (1.0) come out Critical first with order 1 and Medium second with order 2, with their rank columns |
| `Dashboard.TicketFrame.constructor` | src/dashboard.py:30 | a loaded table has the file's rows and none of the derived columns |
| `Dashboard.TicketFrame.ApplyPriorityRules` | src/dashboard.py:37-54 | an empty table is returned unchanged; otherwise the caller's table gains the three rank columns in place, its rows keeping their order, and the returned table is the sorted, numbered one |

## Left out

- `load_tickets` (`src/dashboard.py:27-34`): reading the CSV file and printing a message when the file is missing are I/O. The `TicketFrame` constructor stands for a table it has loaded.
- `save_prioritized_data` (`src/dashboard.py:57-71`): writing the CSV and Excel files and the console messages are I/O.
- `main` (`src/dashboard.py:74-91`): building the fixed paths and calling the three stages in order is wiring.
- Floating point: `Priority_Score` is a double in the source and exact tenths here. `ScoreDeterminesRanks` shows that distinct rank pairs differ by at least 0.1. That gap is far larger than double rounding, so the order does not change. This argument about rounding is not proved in Dafny. `Severity_Rank` and `SLA_Rank` are also floats in the source (5.0, 6.0) whenever any label falls back, because `map` leaves NaN for it and `fillna` keeps the column float; otherwise they are ints. The model's `Ranks` fields are always `int`. The values are equal either way, so the order is unaffected.
- Missing or NaN `Created_At` values, which pandas sorts last among rows of equal score: every `Created_At` here is a string.
- A `Created_At` column whose every cell looks like a number: `read_csv` (`src/dashboard.py:30`) infers a numeric column, and `sort_values` then compares numbers (9 before 10). The model always compares `Created_At` as text, where "10" sorts before "9".
- Missing columns, which raise a `KeyError` in the source: every `Ticket` has the three columns it reads.
- `Dashboard.TicketFrame.ApplyPriorityRules`: for an empty table, the source returns the caller's own table object. The model returns a value equal to it, so object identity is not modelled.
- A loaded column already named `Severity_Rank`, `SLA_Rank`, `Priority_Score` (`src/dashboard.py:43-47`) or `Priority_Order` (`src/dashboard.py:52`) is overwritten by the source. A previously prioritised file read back in carries all four. In the model such a column is a passthrough entry of the `Ticket`, and it is kept unchanged beside the derived column (the `ranks` fields or `order`).
