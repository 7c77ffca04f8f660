# Capacity per substation — a Dafny model

This project models the capacity reconciliation of `app.py`. It takes a
transformer table (substation name, capacity) and a distributed-generation
table (substation name, power in MW, PMGD status). It produces one summary
row per substation: capacity, discounted power, and available capacity.

The pipeline, as `app.py` runs it:

1. Substation names on both sides are upper-cased and stripped.
2. Generation-side names also get the marker `"S/E "` unless they already
   start with it. Transformer-side names do not get the marker.
3. Capacity and power cells that cannot be parsed count as 0.
4. Capacity is summed per transformer-side name.
5. Generation rows are kept only if their upper-cased status is exactly
   `CONECTADO`, `ICC` or `SCR`. Their power is summed per prefixed key.
6. A left join of the capacity totals with the discount totals is taken.
   A missing discount is 0.
7. `available = capacity - discounted`, with no clamping. The summary is
   shown ordered by substation name.

Modules:

- `Wrappers`: `Option`, used for cells that may be empty or unparsable.
- `Ordering`: code-point lexicographic order on strings, as Python compares
  `str`, plus insertion into a strictly sorted sequence.
- `Text`: `Upper`, `Strip`, `Normalize` and `WithPrefix`.
- `Grouping`: group-by-sum over `(key, amount)` entries. `SumFor(es, k)` is
  the reference meaning of one group's total.
- `Reconcile`: the row types, cell coercion, the status filter, the left
  join and `Summary`.
- `ReconcileProperties`: lemmas about the whole pipeline.

## Model

| member | source | states |
|---|---|---|
| Text.Upper | app.py:26 | `str.upper()`: same length, no lower-case letter remains, every lower-case letter becomes its capital, every other character is kept |
| Text.UpperMatches | app.py:37 | `Upper(s) == t` whenever `t` is `s` with each lower-case letter replaced by its capital and every other character kept |
| Text.UpperIdempotent | app.py:29 | upper-casing twice is the same as upper-casing once |
| Text.TextStart | app.py:26 | the scan stops at the first non-whitespace character at or after the start, having passed only whitespace, or at the end of the text |
| Text.TextEnd | app.py:26 | the backward scan stops just after the last non-whitespace character, having passed only whitespace, or at the start of the text |
| Text.TrimStart | app.py:26 | the result is a suffix of the input; only whitespace was removed; the result does not start with whitespace |
| Text.TrimEnd | app.py:26 | the result is a prefix of the input; only whitespace was removed; the result does not end with whitespace |
| Text.Strip | app.py:29 | `str.strip()`: the result has no whitespace at either end, is no longer than the input, and adds no lower-case letter |
| Text.StripSplit | app.py:29 | the input is the stripped text with whitespace padding on both sides |
| Text.StripPadding | app.py:26 | stripping text padded on both sides by whitespace gives back exactly that text |
| Text.StripFixesNoEdgeSpace | app.py:29 | text with no whitespace at either end is left unchanged by stripping |
| Text.StripIdempotent | app.py:26 | stripping twice is the same as stripping once |
| Text.Normalize | app.py:26 | a normalised name has no lower-case letter and no whitespace at either end |
| Text.NormalizeFixesClean | app.py:29 | upper-case text without edge whitespace is left unchanged by normalisation |
| Text.NormalizeIdempotent | app.py:29 | normalising twice is the same as normalising once |
| Text.WithPrefix | app.py:30 | the key always starts with `"S/E "` and ends with the whole name; it is the name itself exactly when the name already starts with `"S/E "`, and otherwise the full four-character marker followed by the name |
| Text.WithPrefixIdempotent | app.py:30 | prefixing twice is the same as prefixing once |
| Ordering.Insert | app.py:46 | inserting into a strictly sorted list keeps it strictly sorted and adds exactly the new key |
| Grouping.SumForAppend | app.py:35 | one more entry adds its amount to its own key's total and to no other |
| Grouping.GroupSum | app.py:35 | one total per distinct key, equal to the sum of the amounts of all entries with that key; absent keys sum to 0 |
| Grouping.SortedKeys | app.py:35 | the group keys are listed strictly ascending, each distinct key exactly once |
| Grouping.SumOverCovering | app.py:38 | summing the group totals over a duplicate-free key list that covers all keys gives the grand total |
| Grouping.GroupSumConserves | app.py:38 | the group totals add up to the sum of all amounts |
| Reconcile.CapacityEntries | app.py:26-35 | one entry per transformer row, and the capacity group keys are exactly the normalised names of the transformer rows |
| Reconcile.CapacityEntriesAppend | app.py:35 | one more transformer row adds exactly its own entry at the end |
| Reconcile.DiscountEntries | app.py:37-38 | the filter yields no more entries than there are records, and every kept entry carries a `"S/E "`-prefixed key |
| Reconcile.DiscountEntryOrigin | app.py:37-38 | every kept entry comes from a record whose status discounts, with that record's prefixed key and coerced power |
| Reconcile.DiscountEntriesAppend | app.py:37 | a record reaches the discount entries exactly when its upper-cased status is `CONECTADO`, `ICC` or `SCR` |
| Reconcile.JoinOfGroupSums | app.py:42 | joining two group-by results yields, for every name, the two group totals of that name |
| Reconcile.Reconciled | app.py:42-46 | rows ordered by name, one per capacity key and no other, each holding both group totals and their difference |
| Reconcile.Summary | app.py:26-46 | the displayed summary is ordered by name and has one row per distinct normalised transformer-side name and no other; each row holds that name's total capacity, the discounting power under the same key (0 if none) and their unclamped difference |
| ReconcileProperties.CapacityContribution | app.py:27 | a transformer row adds its coerced capacity to its own substation's total and to no other |
| ReconcileProperties.UnparsableCapacityContributesNothing | app.py:27 | a capacity cell that cannot be parsed contributes exactly 0 |
| ReconcileProperties.ParsedCapacityContributesValue | app.py:27 | a parsable capacity cell contributes its value |
| ReconcileProperties.DiscountContribution | app.py:37-40 | a generation record adds its coerced power to its prefixed key exactly when its status discounts, and to no other key |
| ReconcileProperties.UnparsablePowerContributesNothing | app.py:31 | a power cell that cannot be parsed contributes exactly 0 |
| ReconcileProperties.NonDiscountingStatusIgnored | app.py:34 | a record whose upper-cased status is not one of the three contributes nothing |
| ReconcileProperties.PaddedStatusNotDiscounted | app.py:37 | a status that starts with whitespace never discounts, because the status is not stripped |
| ReconcileProperties.MissingStatusNotDiscounted | app.py:37 | a missing status cell reads as "nan" and never discounts |
| ReconcileProperties.StatusIgnoresCase | app.py:37 | any spelling of `CONECTADO`, `ICC` or `SCR` that differs from it only in the case of letters discounts |
| ReconcileProperties.SummaryCoversSubstation | app.py:42 | every transformer row's normalised substation appears in the summary |
| ReconcileProperties.SummaryNamesUnique | app.py:42 | no substation appears in two summary rows |
| ReconcileProperties.SummaryConservesCapacity | app.py:35 | the summary's capacity column adds up to the total coerced capacity of all transformer rows |
| ReconcileProperties.SummaryConservesDiscount | app.py:37-42 | if every discounting record's key is a transformer-side name, the discount column adds up to the total power of the discounting records |
| ReconcileProperties.MissingDiscountIsZero | app.py:42 | a substation with no discounting record under its key gets discount 0 and available capacity equal to its capacity |
| ReconcileProperties.UnprefixedSubstationGetsNoDiscount | app.py:30 | a transformer-side name that does not start with `"S/E "` never gets a discount |
| ReconcileProperties.BlankGenerationNameNeverMatches | app.py:29-30 | a generation-side name cell holding only whitespace (or the empty string) is keyed `"S/E "`, which no stripped transformer-side name equals |
| ReconcileProperties.UnmatchedGenerationIgnored | app.py:42 | adding a record that does not discount, or whose key is no transformer-side name, leaves the whole summary unchanged |
| ReconcileProperties.SingleSubstationSummary | app.py:42-43 | one capacity entry and one discount entry under the same key give the single row holding their difference |
| ReconcileProperties.AvailableMayBeNegative | app.py:43 | a 1 MW substation with 3 MW of ICC generation under the bare name "a" shows available capacity -2: no clamping, and "a" is keyed as "S/E A" |

## Left out

- The Streamlit page, the upload widgets, the messages and the download
  button (app.py:6-14, 20-23, 45, 53-60) are presentation and I/O.
- Reading and writing Excel files and the timestamped file name
  (app.py:18-19, 49-52) are file I/O, a foreign library and the wall clock.
- The exception handling around the file reads (app.py:17-23) only handles
  errors raised while reading the two files.
- Amounts are Dafny `real`. pandas' floating-point sums and their rounding
  are not modelled.
- Text.Upper: models `str.upper()` over ASCII letters only. Non-ASCII
  characters are left unchanged, whereas Python also upper-cases them
  (and may change the length, as `"ß"` becomes `"SS"`).
- Text.Strip: strips the ASCII characters Python counts as whitespace.
  Non-ASCII whitespace such as U+00A0 is not stripped.
- `pd.to_numeric` parsing is not modelled. A numeric cell arrives already
  parsed, as `Some(value)`, or as `None` when it is empty or not a number.
- `astype(str)` is modelled only for text cells and missing cells. `None`
  stands for any cell pandas reads as missing: an empty cell, or one whose
  text is a default NA marker such as `NA`, `N/A`, `NULL` or `nan`. Such a
  cell becomes `"nan"`. The text form of a number in a name or status
  column is not modelled.
- Reconcile.CellText: follows `astype(str)` as pandas 2.x performs it, where
  a missing cell becomes the text `"nan"`. app.py names no pandas version.
  Under pandas 3.0, whose default string dtype keeps missing values missing,
  two things differ. A transformer row with a missing name is dropped by the
  group-by at app.py:35 (its default `dropna=True`), whereas the model keys it
  `"NAN"` and keeps it. A missing generation-side name makes the prefixing
  lambda at app.py:30 call `startswith` on a float and raise, whereas the
  model keys it `"S/E NAN"`.
- The row types assume that all five columns exist (`Nombre Subestación`,
  `Capacidad`, `SUBESTACION`, `POTENCIA_MW`, `ESTADO_PMGD`). When one is
  missing, `app.py` indexes it outside its `try` (app.py:26-37) and aborts
  with an uncaught `KeyError`. That failure is not modelled.
- Row-order independence of the summary is not stated as a lemma.
