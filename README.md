# SCE survey importer: record-transformation engine

A Dafny model of the core of the SCE (Survey of Consumer Expectations)
importer. It covers `src/SCE/pandas_helpers.py` and `src/SCE/importer.py`.

The importer turns the raw survey table, one row per (respondent, wave)
interview, into two tables:

- the **full** table holds the raw answers. Magnitudes get sign normalisation, respondent constants are broadcast, and later answers are merged in.
- the **extract** table holds the renamed and derived analysis columns.

Here is what is modelled:

- **Reconciliation helpers** (`PandasHelpers`):
  - `merge_if_na` coalesces columns. It is a loop over columns with masked assignment.
  - `tile_const` broadcasts a respondent constant. It raises on any second non-missing entry, even an equal one.
  - `try_cast` is a best-effort integer cast. It applies to a Series, or column by column to a DataFrame.
- **flip_sign** (`SignNormalizer`): the three-way sign decision, done in place on an array. The outcome is returned as a status, as a log line would report it.
- **Per-row rules of process_sce** (`Rules`):
  - recode tables;
  - indicator flags;
  - "correct only if answered" literacy flags;
  - the two jobless-duration assertions;
  - the number of kids, a sum with a minimum count of four.
- **Household carry-forward** (`Household`):
  - the composition is overwritten in place at change waves (D1 = 2), positionally with D2new;
  - incomplete rows are dropped;
  - a forward fill runs over the whole sorted index. It is not grouped by respondent.
- **process_sce** (`Importer`):
  - the ten flip_sign calls;
  - the tile_const calls;
  - the Q38/DQ38 and Q47/D6 coalescing, and the DHH2 → HH2 merge loop;
  - assembly of both tables, with the failure conditions in source order. Extract `house_price_change` is taken from the raw, not the normalised, Q31v2part2.
- **merge_inc_rank** (`IncomeRank`):
  - the fiscal year from the interview date, including the month-start rollback on the first of a month;
  - rescaling of the rank table;
  - the many-to-one left join on (year, income bracket).

Data representation:

- A missing value (NaN) is `None` in a cell of type `Option<real>`.
- A table is a set of columns aligned with its index. The index is a sequence of (respondent, wave) keys.
- Fatal conditions are `Err` values: `ValueError`, `AssertionError`, `KeyError` and `MergeError`.
- Recoverable conditions are returned values: an ambiguous sign, or a cast warning with its count of missing values.

## Model

| member | source | states |
|---|---|---|
| `PandasHelpers.MergeIfNa` | src/SCE/pandas_helpers.py:20-28 | each row of the merged column is the first non-missing value among the inputs in argument order; length is that of the first input |
| `PandasHelpers.FirstPresentIsFirst` | src/SCE/pandas_helpers.py:22-26 | the merged value is missing iff every input is missing at that row; a present value comes from an input preceded only by missing ones |
| `PandasHelpers.MergeKeepsFirst` | src/SCE/pandas_helpers.py:22-28 | rows where the first input is present keep it; with a single input merging is the identity |
| `PandasHelpers.FirstPresentOfTwo` | src/SCE/pandas_helpers.py:22-26 | merging two columns gives the first where present, else the second |
| `PandasHelpers.TileConst` | src/SCE/pandas_helpers.py:50-56 | one row out per row in, and all rows of one respondent hold the same value; the only error is "multiple non-NA values" |
| `PandasHelpers.TileConstRaises` | src/SCE/pandas_helpers.py:51-54 | tile_const raises iff some respondent has two or more non-missing entries, whatever their values |
| `PandasHelpers.TileConstBroadcast` | src/SCE/pandas_helpers.py:50-56 | without a repeated entry every row holds its respondent's single non-missing entry, and is missing iff the respondent has none |
| `PandasHelpers.TileConstRaisesOnEqualEntries` | src/SCE/pandas_helpers.py:53-54 | two equal answers of one respondent still raise |
| `PandasHelpers.Truncate` | src/SCE/pandas_helpers.py:80 | the integer cast of a finite value truncates toward zero |
| `PandasHelpers.CountMissing` | src/SCE/pandas_helpers.py:82 | the count of missing values is at most the length, zero iff every value is present, and the length iff every value is missing |
| `PandasHelpers.TryCast` | src/SCE/pandas_helpers.py:78-93 | a cast warning is logged iff a float column holds a missing value, and then the input is returned unchanged; the warning reports the number of missing values; otherwise every value is truncated to an integer |
| `PandasHelpers.TryCastWholeNumbers` | src/SCE/pandas_helpers.py:78-80 | a column of present whole numbers casts without warning and reads back as the input |
| `PandasHelpers.CastColumns` | src/SCE/pandas_helpers.py:69-77 | try_cast on a DataFrame casts each column on its own, as a Series cast, keeping every column's length |
| `PandasHelpers.TryCastFrame` | src/SCE/pandas_helpers.py:69-77 | the loop leaves the array as CastColumns of its old contents: each DataFrame column, in place, becomes its own Series cast, and the warning logged for it is that column's; a failing column keeps its values while the others are still cast |
| `PandasHelpers.TileConstAs` | src/SCE/pandas_helpers.py:50-60 | tile_const with a dtype raises iff a respondent has a repeated entry; otherwise it returns the tiled column passed through try_cast, never raising for a cast failure |
| `PandasHelpers.FrameRow` | src/SCE/pandas_helpers.py:51 | a DataFrame row survives dropna iff every column is present in it |
| `PandasHelpers.TileConstFrame` | src/SCE/pandas_helpers.py:50-60 | tile_const on the race block raises iff a respondent has two complete rows, and the error is "multiple non-NA values"; otherwise every column has one value per row and the result is the DataFrame try_cast of the broadcast complete rows, column by column |
| `PandasHelpers.TileConstFrameBroadcast` | src/SCE/pandas_helpers.py:50-60 | on success, every row of every column holds entry c of the respondent's complete row (its truncation when the column was cast to int); a respondent with no complete row is missing in every column, which keeps those columns float with a warning |
| `SignNormalizer.NormalizeSign` | src/SCE/importer.py:24-33 | the decision keeps the length, never changes an unflagged row, and leaves the column as it was unless it flips it |
| `SignNormalizer.FlipSign` | src/SCE/importer.py:10-33 | the status and the new array contents are the sign decision of the old contents: unchanged, the flagged rows negated, or ambiguous and unchanged |
| `SignNormalizer.NormalizedCopy` | src/SCE/importer.py:74-78 | flip_sign on a copy of the magnitude column, with the rows flagged where the direction equals the code; the raw column is untouched |
| `SignNormalizer.NormalizeSignOutcome` | src/SCE/importer.py:24-33 | unchanged iff every flagged value is <= 0 (missing as 0); ambiguous iff flagged values of both signs exist; a flip negates exactly the flagged rows; unflagged rows never change; missing stays missing; after a decision every flagged value is <= 0 |
| `SignNormalizer.NormalizeSignIdempotent` | src/SCE/importer.py:24-33 | a second flip_sign changes nothing, and after a decision it reports the sign unchanged |
| `SignNormalizer.NormalizeSignExamples` | src/SCE/importer.py:25-33 | flagged {+5,+3,+2} are flipped, {-5,-3,-2} are kept, {+5,-3} are ambiguous |
| `Rules.Recode` | src/SCE/importer.py:148 | a mapped value is present iff the code is present and in the table |
| `Rules.SelfEmployed` | src/SCE/importer.py:148 | self_employed maps 1 to 0 and 2 to 1; any other or missing code gives missing |
| `Rules.YesNo` | src/SCE/importer.py:383 | female, hispanic and couple map 1 to 1 and 2 to 0; anything else gives missing |
| `Rules.Owner` | src/SCE/importer.py:429 | owner maps 1 to 1, and 2 and 3 to 0; anything else gives missing |
| `Rules.Educ` | src/SCE/importer.py:403-405 | educ maps 1 to 1, 2 to 2, 3 and 4 to 3, and 5 to 8 to 4; anything else gives missing |
| `Rules.College` | src/SCE/importer.py:399-401 | college is missing iff Q36 is missing; otherwise it is a 0/1 flag, 1 iff Q36 is in {5,6,7,8} and 0 for any other present code |
| `Rules.CollegeAgreesWithEduc` | src/SCE/importer.py:399-405 | college is 1 iff educ is 4, and 0 wherever educ is a lower tier or Q36 is present but outside the educ table |
| `Rules.Indicator` | src/SCE/importer.py:160 | looking_for_job and hh_changed are 1 iff the answer equals the code, and 0 otherwise, including missing |
| `Rules.Working` | src/SCE/importer.py:138 | working is 1 iff Q10_1 or Q10_2 equals 1, else 0 |
| `Rules.FillSentinel` | src/SCE/importer.py:48-52 | missing Q1 and Q2 answers become -1; present ones are cast to integer |
| `Rules.SameEmployer` | src/SCE/importer.py:492-494 | same_employer is missing iff DSAME is missing, else whether DSAME is 1 or 2 |
| `Rules.CorrectFlag` | src/SCE/importer.py:312-314 | a literacy flag is missing iff the answer is missing; otherwise it is 1 iff the answer equals the expected value |
| `Rules.CorrectWithinTolerance` | src/SCE/importer.py:319-323 | the QNUM2 flag is missing iff the answer is missing, 1 iff the answer is within 1e-6 of 242, and 0 iff the answer is present and outside that tolerance |
| `Rules.JoblessLength` | src/SCE/importer.py:165-181 | when both domain assertions hold, Q16 and Q19 are never both present; jobless_length is Q16 if Q15 = 1, Q19 if Q15 = 2, else missing |
| `Rules.NumKids` | src/SCE/importer.py:481-482 | num_kids of a row is present iff all four kid buckets Q45new_2 to Q45new_5 are present |
| `Rules.NumKidsAllOrNothing` | src/SCE/importer.py:481-482 | num_kids is present iff all four of Q45new_2 to Q45new_5 are present, and then it is their sum |
| `Rules.NumKidsExamples` | src/SCE/importer.py:482 | one missing bucket gives missing, never a partial sum |
| `Rules.NumKidsColumn` | src/SCE/importer.py:481-485 | the column is cast to int iff no row is missing; otherwise it keeps the float sums |
| `Household.LastCompleteIsNearest` | src/SCE/importer.py:474-476 | the fill source is the nearest complete row at or before the row; there is none iff no earlier row is complete |
| `Household.CarriedForwardWidth` | src/SCE/importer.py:476 | a filled row has the block's width |
| `Household.OverwriteChanged` | src/SCE/importer.py:471-472 | in place, rows where D1 = 2 take the D2new values position by position, and all other rows are unchanged |
| `Household.DropIncomplete` | src/SCE/importer.py:474 | kept rows are exactly the complete rows, in index order |
| `Household.ForwardFill` | src/SCE/importer.py:476 | each row gets the last kept row at or before it, or all missing |
| `Household.CarryForward` | src/SCE/importer.py:468-477 | each row of the final block is the nearest complete overwritten row at or before it, across respondents |
| `Household.CarryForwardCrossesRespondents` | src/SCE/importer.py:476 | the fill is not grouped by respondent: a dropped row takes the previous row's composition, whoever answered that row |
| `Household.CarryForwardExample` | src/SCE/importer.py:461-477 | waves with C1, not asked, change to C3, and no change give C1, C1, C3, C3 |
| `Importer.NormalizeSigns` | src/SCE/importer.py:73-301 | each of the ten magnitude columns is its flip_sign result under its direction code (2 for inflation, 3 for the others); the log lists the ten decisions in source order |
| `Importer.TileDemographics` | src/SCE/importer.py:376-454 | the tile_const calls succeed iff no respondent repeats Q32, Q33, Q34, a complete race row, Q36, Q46, QRA1 or QRA2, and the race block has a Q35_2 column; each result is tile_const with an integer cast. A failure is reported in source order: a repeated Q32, Q33, Q34 or complete race row gives "multiple non-NA values", failing that a missing Q35_2 gives its KeyError, failing that a repeated Q36, Q46, QRA1 or QRA2 gives "multiple non-NA values" |
| `Importer.MergeSpouseUpdates` | src/SCE/importer.py:502-507 | the loop succeeds iff every DHH2_k has an HH2_k; then each HH2_k is merge_if_na(HH2_k, DHH2_k) where DHH2_k exists, and untouched otherwise; otherwise the first DHH2_k without HH2_k raises KeyError |
| `Importer.HouseholdStage` | src/SCE/importer.py:461-477 | the block is carried forward from the rows overwritten where D1 = 2, and every row has exactly the block's width |
| `Importer.AssembleFull` | src/SCE/importer.py:48-515 | df_full holds the sentinel-filled Q1/Q2, the normalised magnitudes, the tiled constants, the raw race block, the merged Q38, HH2 and Q47, and the carried-forward composition |
| `Importer.AssembleExtract` | src/SCE/importer.py:49-516 | df_extract holds the derived columns, with house_price_change from the raw Q31v2part2 |
| `Importer.BuildFull` | src/SCE/importer.py:44-517 | the full-table computations, with the sign decisions logged in order |
| `Importer.BuildTables` | src/SCE/importer.py:36-521 | both tables and the log, once every check has passed |
| `Importer.CheckInputs` | src/SCE/importer.py:114-506 | reports the first failure of process_sce in source order (ReportsFirstFailure): when Q1a is asked, the table has rows and some Q9new2 bin column exists, the bin copy fails, with the lookup's ValueError if a bin cell holds an answer and the assignment's TypeError otherwise; then the Q16 assertion, the Q19 assertion, the error of TileDemographics, the KeyError of the first missing kid column, then the KeyError for HH2_k of the first DHH2_k without one; succeeds iff none happens, handing on the tiled constants of TileDemographics and the merged HH2 columns |
| `Importer.ProcessSce` | src/SCE/importer.py:36-521 | reports the same first failure as CheckInputs, in source order: the Q9new2 bin copy (when Q1a is asked, the table has rows and a bin column exists), then the Q16 assertion, then the Q19 assertion, then the error TileDemographics reports, then the first missing kid column, then HH2_k for the first DHH2_k without an HH2_k; succeeds iff the bin copy does nothing, both assertions hold, no tile_const input repeats, Q35_2 and Q45new_2..5 exist, and every DHH2_k has an HH2_k; on success both tables are as described |
| `Importer.JoblessLengthByStatus` | src/SCE/importer.py:163-181 | in the extract, jobless_length is Q16 for job seekers, Q19 for those not seeking, and missing otherwise |
| `Importer.HousePriceChangeKeepsRawSign` | src/SCE/importer.py:269-274 | house_price_change is the raw magnitude: where flip_sign negated Q31v2part2 in the full table, the extract keeps the positive value; house_price_change_3y is the normalised C2part2 |
| `Importer.TiledAnswerBroadcast` | src/SCE/pandas_helpers.py:50-60 | a tiled and cast constant is equal on all rows of a respondent; a single whole-number answer reaches every one of them; no answer gives missing |
| `Importer.YesNoBroadcast` | src/SCE/importer.py:382-389 | female and hispanic are constant within a respondent: 1 where the respondent answered 1, 0 where they answered 2, missing where they never answered |
| `Importer.BlackBroadcast` | src/SCE/importer.py:392-395 | black holds, on every row of a respondent, that respondent's Q35_2 from their complete race row (truncated when cast to int), and is missing, with the column left float, when there is no complete race row |
| `Importer.NumKidsAtReportedChange` | src/SCE/importer.py:463-485 | at a wave with D1 = 2 and a complete D2new row, the composition is that row and num_kids is the sum of its kid buckets |
| `Importer.InitialAnswerFirst` | src/SCE/importer.py:497-516 | couple and hh_inc take Q38 and Q47 where present, and DQ38 and D6 otherwise |
| `IncomeRank.MonthBeginBefore` | src/SCE/importer.py:547 | the shift lands on the first of a month strictly before the date, the previous month when the date is a first |
| `IncomeRank.FiscalYear` | src/SCE/importer.py:547-551 | the fiscal year is the interview year or the year before |
| `IncomeRank.FiscalYearRule` | src/SCE/importer.py:547-551 | the year is the interview year minus 1 iff the shifted month is at most June |
| `IncomeRank.FiscalYearByCalendar` | src/SCE/importer.py:547-551 | after a month's first day, January to June go to the previous year; on a first, February to July do, and 1 January keeps its year |
| `IncomeRank.FiscalYearExamples` | src/SCE/importer.py:547-551 | 15 Mar 2015 → 2014; 1 Jul → 2014 and 2 Jul → 2015; 1 Jan 2015 → 2015 and 2 Jan → 2014 |
| `IncomeRank.MaxRankIsMaximum` | src/SCE/importer.py:557 | the NaN-skipping maximum is an upper bound attained by some rank, and is missing iff no rank is present |
| `IncomeRank.MaxRank` | src/SCE/importer.py:557 | a present maximum is the rank of some record |
| `IncomeRank.Rescale` | src/SCE/importer.py:556-558 | the rescale keeps the records and their keys, and either leaves every rank or multiplies every rank by 100 |
| `IncomeRank.RescaleRule` | src/SCE/importer.py:557-558 | ranks are multiplied by 100 iff some rank is present and all present ranks are at most 1; keys never change |
| `IncomeRank.LookupFindsTheMatch` | src/SCE/importer.py:569-574 | with unique keys, the lookup returns the rank of the matching record, or missing when none matches |
| `IncomeRank.MergeIncRank` | src/SCE/importer.py:547-579 | the only error of the merge is the duplicate-key MergeError, and a successful merge gives one rank per panel row |
| `IncomeRank.MergeIncRankJoin` | src/SCE/importer.py:547-579 | the merge raises iff the rank table repeats a (year, bracket) key; otherwise there is one rank per row in row order: the rescaled rank for its fiscal year and bracket, or missing |

## Left out

- Sorting the index (src/SCE/importer.py:40 and the final `sort_index`) is not modelled. The raw table is taken as already sorted and unique by (respondent, wave). src/main.py:56 sorts the rows by respondent and date before calling process_sce.
- Importer.ProcessSce: requires the index to be strictly sorted, with column names unique and the D2new block as wide as the Q45new block. The pandas error for a D2new block of another shape is not modelled.
- Importer.MergeSpouseUpdates: requires distinct DHH2 item numbers, because pandas column names are unique.
- The full and extract tables are built as values from the transformed columns, not one column at a time. Plain copy and rename lines are left out. So are the Q9 and Q9c bin blocks and the Q9 distribution statistics, because each is an unchanged copy. The Q9new2 bin block is never copied: that statement either raises or does nothing (see Importer.CheckInputs).
- In-place updates of df_full (the Q38, Q47 and HH2_k overwrites) are modelled as new column values.
- PandasHelpers.TryCast: models a cast failure only for a missing value cast to an integer dtype. Integer widths (int8, uint8), wrap-around, and casts of infinite values are not modelled.
- Rules.FillSentinel: the int8 width of Q1 and Q2 is not modelled.
- Rules.CorrectWithinTolerance: the QNUM2 and QNUM6 constants use exact reals. 200·1.1² is exactly 242, and 10000·0.0005 is exactly 5. Double rounding is not modelled.
- The text of the log messages is not modelled. Sign decisions are returned as statuses, and cast warnings as counts of missing values. The tables keep the health cast's warning, and the full table keeps the warning of each tiled constant inside its cast value. No race-block warning reaches the tables: each column's warning stays in the race tile's result (TileDemographics), and the extract's black column is a bare series.
- Importer.ProcessSce: columns of a block are found by position, not by name. `races["Q35_2"]` (src/SCE/importer.py:395) is the second column of the race block, and `Q45new_2` to `Q45new_5` (src/SCE/importer.py:481-482) are positions 1 to 4 of the composition block. This matches the source only when the blocks are named Q35_1, Q35_2, … and Q45new_1, Q45new_2, … in that order with no gaps. The KeyError for a short composition block names only the first missing kid column (Importer.FirstMissingKidColumn), where pandas lists every missing column.
- Importer.CheckInputs: the Q9new2 bin copy (src/SCE/importer.py:128-129) indexes with a DataFrame, which pandas reads as a boolean mask. The two errors follow pandas 2: a bin cell holding a number makes the mask lookup raise ValueError. An all-missing block passes the lookup, but the assignment then raises TypeError on its non-boolean key. A bin column of boolean dtype, on which the assignment would go through, cannot occur here, because every cell is a float.
- The spouse_working block (src/SCE/importer.py:509-512) is not modelled. It runs only when df_full has an "HH_1" column, and process_sce never adds one.
- Dates are (year, month, day) triples assumed to be valid calendar dates. Timestamps and time zones are not modelled.
- In the left join a missing income bracket matches nothing, and rank-table brackets are integers.
- Reading, caching and writing files (src/main.py), plotting (src/main_plot_diag.py), command-line and logging setup (src/env.py), and the label enums (src/SCE/enums.py) are not part of this model.
