/** process_sce of src/SCE/importer.py: the raw survey table, sorted by
    (respondent, wave), becomes the full table (raw answers, sign-normalised
    and broadcast) and the extract table (renamed and derived analysis
    columns). Columns copied without change are not modelled. */
module Importer {
  import opened Panel
  import opened PandasHelpers
  import opened SignNormalizer
  import opened Rules
  import opened Household

  // ---------------------------------------------------------------------
  // Input
  // ---------------------------------------------------------------------

  /** A direction question (increase/decrease) and its magnitude part. */
  datatype SignPair = SignPair(direction: Column, magnitude: Column)

  /** The columns of the raw table that process_sce transforms. `q35` is the
      Q35_1, Q35_2, ... block in column order; `q45new` and `d2new` hold one
      row per interview with `hhWidth` household-composition columns
      (Q45new_1, Q45new_2, ... and D2new_1, D2new_2, ...); `hh2` maps k to
      HH2_k and `dhh2` lists (k, DHH2_k) in column order; `q9new2` holds the
      Q9new2_bin1 to Q9new2_bin10 columns the table has, possibly none.
      Optional survey questions are `Option`s. */
  datatype RawTable = RawTable(
    keys: seq<Key>,
    q1: Column, q2: Column,
    q8v2: SignPair, q9bv2: SignPair, q1a: Option<SignPair>, q9new2: seq<Column>,
    q10_1: Column, q10_2: Column, q12new: Column, q15: Column, q16: Column, q19: Column,
    q23v2: SignPair, q25v2: SignPair, q26v2: SignPair, q27v2: SignPair,
    q31v2: SignPair, c2: SignPair, c3: SignPair,
    qnum1: Column, qnum2: Column, qnum3: Column, qnum5: Column, qnum6: Column, qnum8: Column, qnum9: Column,
    q32: Column, q33: Column, q34: Column, q35: seq<Column>, q36: Column,
    q38: Column, hh2: map<nat, Column>, q43: Column,
    hhWidth: nat, q45new: seq<Row>, q45b: Column, q46: Column,
    qra1: Option<Column>, qra2: Option<Column>, q47: Column,
    d1: Column, d2new: seq<Row>, dsame: Column, dq38: Column, dhh2: seq<(nat, Column)>, d6: Column)

  predicate PairOfLength(p: SignPair, n: nat)
  {
    |p.direction| == n && |p.magnitude| == n
  }

  /** One table: every column has one cell per index entry, the index is
      sorted and unique, column names are unique, and the D2new block has
      the shape of the Q45new block. */
  predicate WellFormed(raw: RawTable)
  {
    var n := |raw.keys|;
    StrictlySorted(raw.keys)
    && |raw.q1| == n && |raw.q2| == n
    && PairOfLength(raw.q8v2, n) && PairOfLength(raw.q9bv2, n)
    && (raw.q1a.Some? ==> PairOfLength(raw.q1a.value, n)) && Aligned(raw.q9new2, n)
    && |raw.q10_1| == n && |raw.q10_2| == n && |raw.q12new| == n
    && |raw.q15| == n && |raw.q16| == n && |raw.q19| == n
    && PairOfLength(raw.q23v2, n) && PairOfLength(raw.q25v2, n) && PairOfLength(raw.q26v2, n)
    && PairOfLength(raw.q27v2, n) && PairOfLength(raw.q31v2, n)
    && PairOfLength(raw.c2, n) && PairOfLength(raw.c3, n)
    && |raw.qnum1| == n && |raw.qnum2| == n && |raw.qnum3| == n && |raw.qnum5| == n
    && |raw.qnum6| == n && |raw.qnum8| == n && |raw.qnum9| == n
    && |raw.q32| == n && |raw.q33| == n && |raw.q34| == n && Aligned(raw.q35, n) && |raw.q36| == n
    && |raw.q38| == n && (forall k :: k in raw.hh2 ==> |raw.hh2[k]| == n) && |raw.q43| == n
    && |raw.q45new| == n && (forall i :: 0 <= i < n ==> |raw.q45new[i]| == raw.hhWidth)
    && |raw.q45b| == n && |raw.q46| == n
    && (raw.qra1.Some? ==> |raw.qra1.value| == n) && (raw.qra2.Some? ==> |raw.qra2.value| == n)
    && |raw.q47| == n && |raw.d1| == n
    && |raw.d2new| == n && (forall i :: 0 <= i < n ==> |raw.d2new[i]| == raw.hhWidth)
    && |raw.dsame| == n && |raw.dq38| == n && |raw.d6| == n
    && (forall j :: 0 <= j < |raw.dhh2| ==> |raw.dhh2[j].1| == n)
    && (forall j, l :: 0 <= j < l < |raw.dhh2| ==> raw.dhh2[j].0 != raw.dhh2[l].0)
  }

  // ---------------------------------------------------------------------
  // Output
  // ---------------------------------------------------------------------

  /** The line flip_sign logs for one magnitude column. */
  datatype SignLog = SignLog(varname: string, resolution: SignResolution)

  /** The sign-normalised magnitude columns, as they stand in the full table:
      Q8v2part2, Q9bv2part2, Q1apart2, Q23v2part2, Q25v2part2, Q26v2part2,
      Q27v2part2, Q31v2part2, C2part2, C3part2. */
  datatype Signs = Signs(
    infl1y: Column, infl3y: Column, infl5y: Option<Column>,
    earnings: Column, hhIncome: Column, spending: Column, taxes: Column,
    housePrices: Column, housePrices3y: Column, govtDebt: Column)

  /** The respondent constants broadcast by tile_const: Q32 (age), Q33
      (gender), Q34 (hispanic), the Q35 race block, Q36 (education), Q46
      (financial decisions), QRA1 and QRA2 (risk attitudes). */
  datatype Demographics = Demographics(
    age: Cast, gender: Cast, hispanic: Cast, races: seq<Cast>, education: Cast,
    decisions: Cast, finRisk: Option<Cast>, dailyRisk: Option<Cast>)

  /** The transformed columns of df_full. The race block is the raw one. */
  datatype FullTable = FullTable(
    q1: seq<int>, q2: seq<int>, signs: Signs,
    q32: Cast, q33: Cast, q34: Cast, q35: seq<Column>, q36: Cast, q46: Cast,
    qra1: Option<Cast>, qra2: Option<Cast>,
    q38: Column, hh2: map<nat, Column>, q45new: seq<Row>, q47: Column)

  /** The derived columns of df_extract. */
  datatype ExtractTable = ExtractTable(
    financialPast12m: seq<int>, financial12m: seq<int>,
    infl1y: Column, infl3y: Column, infl5y: Option<Column>,
    working: seq<int>, selfEmployed: Column, lookingForJob: seq<int>, joblessLength: Column,
    earningsChange: Column, hhIncChange: Column, hhSpendingChange: Column, taxesChange: Column,
    housePriceChange: Column, housePriceChange3y: Column, govtDebtChange: Column,
    numLitQ1Correct: Column, numLitQ2Correct: Column, numLitQ3Correct: Column, numLitQ5Correct: Column,
    numLitQ6Correct: Column, numLitQ8Correct: Column, numLitQ9Correct: Column,
    ageInit: Series, female: Column, hispanic: Column, black: Series, college: Column, educ: Column,
    owner: Column, health: Series, takeFinRisk: Option<Series>,
    hhChanged: seq<int>, numKids: Series, sameEmployer: Column, couple: Column, hhInc: Column)

  /** Both tables with what process_sce logs: the sign decisions in order and
      the warning of the health cast. */
  datatype Tables = Tables(full: FullTable, extract: ExtractTable, signLog: seq<SignLog>, healthWarning: Option<nat>)

  // ---------------------------------------------------------------------
  // Sign normalisation
  // ---------------------------------------------------------------------

  const DeflationCode: real := 2.0   // Q8v2, Q9bv2, Q1a: 2 is "deflation"
  const DecreaseCode: real := 3.0    // Q23v2 ... C3: 3 is "decrease"

  function Normalize(p: SignPair, code: real): Normalized
    requires |p.direction| == |p.magnitude|
  {
    NormalizeSign(p.magnitude, CodeMask(p.direction, code))
  }

  /** Each magnitude column is the flip_sign result on a copy of the raw
      column, flagged by its direction question. */
  ghost predicate SignsNormalized(raw: RawTable, s: Signs)
    requires WellFormed(raw)
  {
    s.infl1y == Normalize(raw.q8v2, DeflationCode).values
    && s.infl3y == Normalize(raw.q9bv2, DeflationCode).values
    && (s.infl5y.Some? <==> raw.q1a.Some?)
    && (raw.q1a.Some? ==> s.infl5y.value == Normalize(raw.q1a.value, DeflationCode).values)
    && s.earnings == Normalize(raw.q23v2, DecreaseCode).values
    && s.hhIncome == Normalize(raw.q25v2, DecreaseCode).values
    && s.spending == Normalize(raw.q26v2, DecreaseCode).values
    && s.taxes == Normalize(raw.q27v2, DecreaseCode).values
    && s.housePrices == Normalize(raw.q31v2, DecreaseCode).values
    && s.housePrices3y == Normalize(raw.c2, DecreaseCode).values
    && s.govtDebt == Normalize(raw.c3, DecreaseCode).values
  }

  /** What the ten flip_sign calls log, in source order. */
  function SignDecisions(raw: RawTable): seq<SignLog>
    requires WellFormed(raw)
  {
    [SignLog("Q8v2part2", Normalize(raw.q8v2, DeflationCode).resolution),
     SignLog("Q9bv2part2", Normalize(raw.q9bv2, DeflationCode).resolution)]
    + (if raw.q1a.Some? then [SignLog("Q1apart2", Normalize(raw.q1a.value, DeflationCode).resolution)] else [])
    + [SignLog("Q23v2part2", Normalize(raw.q23v2, DecreaseCode).resolution),
       SignLog("Q25v2part2", Normalize(raw.q25v2, DecreaseCode).resolution),
       SignLog("Q26v2part2", Normalize(raw.q26v2, DecreaseCode).resolution),
       SignLog("Q27v2part2", Normalize(raw.q27v2, DecreaseCode).resolution),
       SignLog("Q31v2part2", Normalize(raw.q31v2, DecreaseCode).resolution),
       SignLog("C2part2", Normalize(raw.c2, DecreaseCode).resolution),
       SignLog("C3part2", Normalize(raw.c3, DecreaseCode).resolution)]
  }

  /** The ten flip_sign calls of process_sce, in source order, each on a
      fresh copy of its raw magnitude column. */
  method NormalizeSigns(raw: RawTable) returns (s: Signs, log: seq<SignLog>)
    requires WellFormed(raw)
    ensures SignsNormalized(raw, s)
    ensures log == SignDecisions(raw)
  {
    var infl1y, r1 := NormalizedCopy(raw.q8v2.direction, raw.q8v2.magnitude, DeflationCode);
    var infl3y, r2 := NormalizedCopy(raw.q9bv2.direction, raw.q9bv2.magnitude, DeflationCode);
    var infl5y: Option<Column> := None;
    var log5y: seq<SignLog> := [];
    if raw.q1a.Some? {
      var v, r := NormalizedCopy(raw.q1a.value.direction, raw.q1a.value.magnitude, DeflationCode);
      infl5y := Some(v);
      log5y := [SignLog("Q1apart2", r)];
    }
    var earnings, r4 := NormalizedCopy(raw.q23v2.direction, raw.q23v2.magnitude, DecreaseCode);
    var hhIncome, r5 := NormalizedCopy(raw.q25v2.direction, raw.q25v2.magnitude, DecreaseCode);
    var spending, r6 := NormalizedCopy(raw.q26v2.direction, raw.q26v2.magnitude, DecreaseCode);
    var taxes, r7 := NormalizedCopy(raw.q27v2.direction, raw.q27v2.magnitude, DecreaseCode);
    var housePrices, r8 := NormalizedCopy(raw.q31v2.direction, raw.q31v2.magnitude, DecreaseCode);
    var housePrices3y, r9 := NormalizedCopy(raw.c2.direction, raw.c2.magnitude, DecreaseCode);
    var govtDebt, r10 := NormalizedCopy(raw.c3.direction, raw.c3.magnitude, DecreaseCode);
    s := Signs(infl1y, infl3y, infl5y, earnings, hhIncome, spending, taxes, housePrices, housePrices3y, govtDebt);
    log := [SignLog("Q8v2part2", r1), SignLog("Q9bv2part2", r2)] + log5y
           + [SignLog("Q23v2part2", r4), SignLog("Q25v2part2", r5), SignLog("Q26v2part2", r6),
              SignLog("Q27v2part2", r7), SignLog("Q31v2part2", r8), SignLog("C2part2", r9),
              SignLog("C3part2", r10)];
  }

  // ---------------------------------------------------------------------
  // Respondent constants
  // ---------------------------------------------------------------------

  /** One of the tile_const calls before the race block's Q35_2 lookup
      (Q32, Q33, Q34, the race block) meets a respondent with two
      non-missing entries. */
  ghost predicate EarlyConstantRepeats(raw: RawTable)
    requires WellFormed(raw)
  {
    HasRepeatedEntry(raw.keys, raw.q32) || HasRepeatedEntry(raw.keys, raw.q33)
    || HasRepeatedEntry(raw.keys, raw.q34)
    || HasRepeatedEntry(raw.keys, FrameRows(raw.q35, |raw.keys|))
  }

  /** One of the tile_const calls after that lookup (Q36, Q46, QRA1, QRA2)
      meets a respondent with two non-missing entries. */
  ghost predicate LateConstantRepeats(raw: RawTable)
    requires WellFormed(raw)
  {
    HasRepeatedEntry(raw.keys, raw.q36) || HasRepeatedEntry(raw.keys, raw.q46)
    || (raw.qra1.Some? && HasRepeatedEntry(raw.keys, raw.qra1.value))
    || (raw.qra2.Some? && HasRepeatedEntry(raw.keys, raw.qra2.value))
  }

  /** No tile_const call of process_sce meets a respondent with two
      non-missing entries. */
  ghost predicate ConstantsUnique(raw: RawTable)
    requires WellFormed(raw)
  {
    !EarlyConstantRepeats(raw) && !LateConstantRepeats(raw)
  }

  /** The tile_const calls for Q32 to QRA2 in source order, every one with an
      integer dtype; selecting Q35_2 from the race tile fails with a KeyError
      when the race block has no second column. */
  function TileDemographics(raw: RawTable): (r: Result<Demographics, Error>)
    requires WellFormed(raw)
    ensures r.Ok? <==> ConstantsUnique(raw) && |raw.q35| >= 2
    ensures EarlyConstantRepeats(raw) ==> r == Err(MultipleNonMissing)
    ensures !EarlyConstantRepeats(raw) && |raw.q35| < 2 ==> r == Err(MissingColumn("Q35_2"))
    ensures !EarlyConstantRepeats(raw) && |raw.q35| >= 2 && LateConstantRepeats(raw) ==> r == Err(MultipleNonMissing)
    ensures r.Ok? ==>
              TileConstAs(raw.keys, raw.q32, true) == Ok(r.value.age)
              && TileConstAs(raw.keys, raw.q33, true) == Ok(r.value.gender)
              && TileConstAs(raw.keys, raw.q34, true) == Ok(r.value.hispanic)
              && TileConstFrame(raw.keys, raw.q35) == Ok(r.value.races)
              && TileConstAs(raw.keys, raw.q36, true) == Ok(r.value.education)
              && TileConstAs(raw.keys, raw.q46, true) == Ok(r.value.decisions)
              && (r.value.finRisk.Some? <==> raw.qra1.Some?)
              && (raw.qra1.Some? ==> TileConstAs(raw.keys, raw.qra1.value, true) == Ok(r.value.finRisk.value))
              && (r.value.dailyRisk.Some? <==> raw.qra2.Some?)
              && (raw.qra2.Some? ==> TileConstAs(raw.keys, raw.qra2.value, true) == Ok(r.value.dailyRisk.value))
  {
    var keys := raw.keys;
    var age := TileConstAs(keys, raw.q32, true);
    var gender := TileConstAs(keys, raw.q33, true);
    var hispanic := TileConstAs(keys, raw.q34, true);
    var races := TileConstFrame(keys, raw.q35);
    var education := TileConstAs(keys, raw.q36, true);
    var decisions := TileConstAs(keys, raw.q46, true);
    var finRisk := if raw.qra1.Some? then Some(TileConstAs(keys, raw.qra1.value, true)) else None;
    var dailyRisk := if raw.qra2.Some? then Some(TileConstAs(keys, raw.qra2.value, true)) else None;
    if age.Err? then Err(age.error)
    else if gender.Err? then Err(gender.error)
    else if hispanic.Err? then Err(hispanic.error)
    else if races.Err? then Err(races.error)
    else if |raw.q35| < 2 then Err(MissingColumn("Q35_2"))
    else if education.Err? then Err(education.error)
    else if decisions.Err? then Err(decisions.error)
    else if finRisk.Some? && finRisk.value.Err? then Err(finRisk.value.error)
    else if dailyRisk.Some? && dailyRisk.value.Err? then Err(dailyRisk.value.error)
    else
      Ok(Demographics(age.value, gender.value, hispanic.value, races.value, education.value, decisions.value,
                      if finRisk.Some? then Some(finRisk.value.value) else None,
                      if dailyRisk.Some? then Some(dailyRisk.value.value) else None))
  }

  // ---------------------------------------------------------------------
  // Spouse employment updates
  // ---------------------------------------------------------------------

  /** The DHH2 column for item `k`, the last one listed if any. */
  function SpouseUpdate(dhh2: seq<(nat, Column)>, k: nat): Option<Column>
  {
    if |dhh2| == 0 then None
    else if dhh2[|dhh2| - 1].0 == k then Some(dhh2[|dhh2| - 1].1)
    else SpouseUpdate(dhh2[..|dhh2| - 1], k)
  }

  /** The decimal digits of a column-name suffix. */
  function Digits(n: nat): string
  {
    if n < 10 then [('0' as int + n) as char] else Digits(n / 10) + [('0' as int + n % 10) as char]
  }

  /** HH2_k after the update: merge_if_na(HH2_k, DHH2_k) where DHH2_k exists. */
  ghost predicate SpouseMerged(hh2: map<nat, Column>, dhh2: seq<(nat, Column)>, merged: map<nat, Column>, n: nat)
  {
    merged.Keys == hh2.Keys
    && forall k :: k in hh2 ==>
         |merged[k]| == n
         && (SpouseUpdate(dhh2, k).None? ==> merged[k] == hh2[k])
         && (SpouseUpdate(dhh2, k).Some? ==>
               |hh2[k]| == n && |SpouseUpdate(dhh2, k).value| == n
               && forall i :: 0 <= i < n ==> merged[k][i] == FirstPresent([hh2[k], SpouseUpdate(dhh2, k).value], i))
  }

  /** The DHH2 loop: every DHH2_k column is merged into HH2_k; the first
      DHH2_k without an HH2_k column raises a KeyError. */
  method MergeSpouseUpdates(hh2: map<nat, Column>, dhh2: seq<(nat, Column)>, n: nat)
    returns (r: Result<map<nat, Column>, Error>)
    requires forall k :: k in hh2 ==> |hh2[k]| == n
    requires forall j :: 0 <= j < |dhh2| ==> |dhh2[j].1| == n
    requires forall j, l :: 0 <= j < l < |dhh2| ==> dhh2[j].0 != dhh2[l].0
    ensures r.Ok? <==> forall j :: 0 <= j < |dhh2| ==> dhh2[j].0 in hh2
    ensures r.Err? ==> exists j :: 0 <= j < |dhh2| && dhh2[j].0 !in hh2
                                   && (forall l :: 0 <= l < j ==> dhh2[l].0 in hh2)
                                   && r.error == MissingColumn("HH2_" + Digits(dhh2[j].0))
    ensures r.Ok? ==> SpouseMerged(hh2, dhh2, r.value, n)
  {
    var merged := hh2;
    var j := 0;
    while j < |dhh2|
      invariant 0 <= j <= |dhh2|
      invariant forall l :: 0 <= l < j ==> dhh2[l].0 in hh2
      invariant SpouseMerged(hh2, dhh2[..j], merged, n)
    {
      var (k, col) := dhh2[j];
      if k !in merged {
        return Err(MissingColumn("HH2_" + Digits(k)));
      }
      assert SpouseUpdate(dhh2[..j], k).None? by {
        SpouseUpdateListed(dhh2[..j], k);
      }
      var m := MergeIfNa([merged[k], col]);
      assert dhh2[..j + 1][..j] == dhh2[..j];
      forall k' | k' in hh2 && k' != k ensures SpouseUpdate(dhh2[..j + 1], k') == SpouseUpdate(dhh2[..j], k') { }
      merged := merged[k := m];
      j := j + 1;
    }
    assert dhh2[..|dhh2|] == dhh2;
    r := Ok(merged);
  }

  /** SpouseUpdate finds item `k` exactly when it is listed. */
  lemma {:induction false} SpouseUpdateListed(dhh2: seq<(nat, Column)>, k: nat)
    ensures SpouseUpdate(dhh2, k).None? <==> forall j :: 0 <= j < |dhh2| ==> dhh2[j].0 != k
    ensures SpouseUpdate(dhh2, k).Some? ==> exists j :: 0 <= j < |dhh2| && dhh2[j] == (k, SpouseUpdate(dhh2, k).value)
  {
    if |dhh2| > 0 {
      var init := dhh2[..|dhh2| - 1];
      SpouseUpdateListed(init, k);
      assert forall j :: 0 <= j < |init| ==> init[j] == dhh2[j];
    }
  }

  // ---------------------------------------------------------------------
  // process_sce
  // ---------------------------------------------------------------------

  /** The household composition after the carry-forward, and the mask of
      waves where D1 reports a change. */
  function HouseholdRows(raw: RawTable): seq<Row>
    requires WellFormed(raw)
  {
    Updated(raw.q45new, raw.d2new, CodeMask(raw.d1, 2.0))
  }

  /** What process_sce puts in df_full. */
  ghost predicate FullDescribed(raw: RawTable, d: Demographics, f: FullTable)
    requires WellFormed(raw)
  {
    var n := |raw.keys|;
    f.q1 == FillSentinel(raw.q1) && f.q2 == FillSentinel(raw.q2)
    && SignsNormalized(raw, f.signs)
    && f.q32 == d.age && f.q33 == d.gender && f.q34 == d.hispanic && f.q36 == d.education && f.q46 == d.decisions
    && f.qra1 == d.finRisk && f.qra2 == d.dailyRisk
    && f.q35 == raw.q35
    && |f.q38| == n && (forall i :: 0 <= i < n ==> f.q38[i] == FirstPresent([raw.q38, raw.dq38], i))
    && SpouseMerged(raw.hh2, raw.dhh2, f.hh2, n)
    && |f.q45new| == n
    && (forall i :: 0 <= i < n ==> f.q45new[i] == CarriedForward(HouseholdRows(raw), raw.hhWidth, i))
    && |f.q47| == n && (forall i :: 0 <= i < n ==> f.q47[i] == FirstPresent([raw.q47, raw.d6], i))
  }

  /** What process_sce puts in df_extract, in terms of df_full and the raw
      table. house_price_change is the raw Q31v2part2, not the normalised
      one. */
  ghost predicate ExtractDescribed(raw: RawTable, d: Demographics, f: FullTable, e: ExtractTable)
    requires WellFormed(raw)
  {
    var n := |raw.keys|;
    e.financialPast12m == f.q1 && e.financial12m == f.q2
    && e.infl1y == f.signs.infl1y && e.infl3y == f.signs.infl3y && e.infl5y == f.signs.infl5y
    && e.working == Working(raw.q10_1, raw.q10_2)
    && e.selfEmployed == SelfEmployed(raw.q12new)
    && e.lookingForJob == Indicator(raw.q15, 1.0)
    && |e.joblessLength| == n && (forall i :: 0 <= i < n ==> e.joblessLength[i] == FirstPresent([raw.q16, raw.q19], i))
    && e.earningsChange == f.signs.earnings && e.hhIncChange == f.signs.hhIncome
    && e.hhSpendingChange == f.signs.spending && e.taxesChange == f.signs.taxes
    && e.housePriceChange == raw.q31v2.magnitude
    && e.housePriceChange3y == f.signs.housePrices3y && e.govtDebtChange == f.signs.govtDebt
    && e.numLitQ1Correct == CorrectFlag(raw.qnum1, ExpectedQ1)
    && e.numLitQ2Correct == CorrectWithinTolerance(raw.qnum2)
    && e.numLitQ3Correct == CorrectFlag(raw.qnum3, ExpectedQ3)
    && e.numLitQ5Correct == CorrectFlag(raw.qnum5, ExpectedQ5)
    && e.numLitQ6Correct == CorrectFlag(raw.qnum6, ExpectedQ6)
    && e.numLitQ8Correct == CorrectFlag(raw.qnum8, ExpectedQ8)
    && e.numLitQ9Correct == CorrectFlag(raw.qnum9, ExpectedQ9)
    && e.ageInit == f.q32.values
    && e.female == YesNo(f.q33.values.Cells()) && e.hispanic == YesNo(f.q34.values.Cells())
    && |d.races| >= 2 && e.black == d.races[1].values
    && e.college == College(f.q36.values.Cells()) && e.educ == Educ(f.q36.values.Cells())
    && e.owner == Owner(raw.q43)
    && e.health == TryCast(Floats(raw.q45b)).values
    && (e.takeFinRisk.Some? <==> f.qra1.Some?) && (f.qra1.Some? ==> e.takeFinRisk.value == f.qra1.value.values)
    && e.hhChanged == Indicator(raw.d1, 2.0)
    && (forall i :: 0 <= i < |f.q45new| ==> |f.q45new[i]| >= 5) && e.numKids == NumKidsColumn(f.q45new)
    && e.sameEmployer == SameEmployer(raw.dsame)
    && e.couple == YesNo(f.q38) && e.hhInc == f.q47
  }

  /** The household block after the carry-forward: the D2new rows replace
      the Q45new rows where D1 is 2, then the complete rows are carried
      forward. */
  method HouseholdStage(raw: RawTable) returns (comp: seq<Row>)
    requires WellFormed(raw) && raw.hhWidth >= 5
    ensures |comp| == |raw.keys|
    ensures forall i :: 0 <= i < |comp| ==> comp[i] == CarriedForward(HouseholdRows(raw), raw.hhWidth, i)
    ensures forall i :: 0 <= i < |comp| ==> |comp[i]| == raw.hhWidth
  {
    comp := CarryForward(raw.q45new, raw.d2new, CodeMask(raw.d1, 2.0), raw.hhWidth);
    forall i | 0 <= i < |comp| ensures |comp[i]| == raw.hhWidth {
      CarriedForwardWidth(HouseholdRows(raw), raw.hhWidth, i);
    }
  }

  /** df_full from the computed pieces. */
  method AssembleFull(raw: RawTable, d: Demographics, signs: Signs, q38: Column, hh2: map<nat, Column>,
                      comp: seq<Row>, q47: Column)
    returns (f: FullTable)
    requires WellFormed(raw)
    requires SignsNormalized(raw, signs)
    requires |q38| == |raw.keys| && forall i :: 0 <= i < |q38| ==> q38[i] == FirstPresent([raw.q38, raw.dq38], i)
    requires SpouseMerged(raw.hh2, raw.dhh2, hh2, |raw.keys|)
    requires |comp| == |raw.keys|
    requires forall i :: 0 <= i < |comp| ==> comp[i] == CarriedForward(HouseholdRows(raw), raw.hhWidth, i)
    requires |q47| == |raw.keys| && forall i :: 0 <= i < |q47| ==> q47[i] == FirstPresent([raw.q47, raw.d6], i)
    ensures FullDescribed(raw, d, f)
  {
    f := FullTable(FillSentinel(raw.q1), FillSentinel(raw.q2), signs, d.age, d.gender, d.hispanic, raw.q35,
                   d.education, d.decisions, d.finRisk, d.dailyRisk, q38, hh2, comp, q47);
  }

  /** df_extract from df_full and the raw table, with the warning of the
      health cast. */
  method AssembleExtract(raw: RawTable, d: Demographics, f: FullTable)
    returns (e: ExtractTable, healthWarning: Option<nat>)
    requires WellFormed(raw) && FullDescribed(raw, d, f) && |d.races| >= 2
    requires forall i :: 0 <= i < |f.q45new| ==> |f.q45new[i]| >= 5
    ensures ExtractDescribed(raw, d, f, e)
    ensures healthWarning == TryCast(Floats(raw.q45b)).naWarning
  {
    var jobless := MergeIfNa([raw.q16, raw.q19]);
    var health := TryCast(Floats(raw.q45b));
    var signs := f.signs;
    e := ExtractTable(
      f.q1, f.q2, signs.infl1y, signs.infl3y, signs.infl5y,
      Working(raw.q10_1, raw.q10_2), SelfEmployed(raw.q12new), Indicator(raw.q15, 1.0), jobless,
      signs.earnings, signs.hhIncome, signs.spending, signs.taxes,
      raw.q31v2.magnitude, signs.housePrices3y, signs.govtDebt,
      CorrectFlag(raw.qnum1, ExpectedQ1), CorrectWithinTolerance(raw.qnum2), CorrectFlag(raw.qnum3, ExpectedQ3),
      CorrectFlag(raw.qnum5, ExpectedQ5), CorrectFlag(raw.qnum6, ExpectedQ6), CorrectFlag(raw.qnum8, ExpectedQ8),
      CorrectFlag(raw.qnum9, ExpectedQ9),
      f.q32.values, YesNo(f.q33.values.Cells()), YesNo(f.q34.values.Cells()), d.races[1].values,
      College(f.q36.values.Cells()), Educ(f.q36.values.Cells()),
      Owner(raw.q43), health.values, if f.qra1.Some? then Some(f.qra1.value.values) else None,
      Indicator(raw.d1, 2.0), NumKidsColumn(f.q45new), SameEmployer(raw.dsame), YesNo(f.q38), f.q47);
    healthWarning := health.naWarning;
  }

  /** The name of the first Q45new_2 ... Q45new_5 column the block lacks. */
  function FirstMissingKidColumn(width: nat): string
  {
    "Q45new_" + Digits(if width < 2 then 2 else width + 1)
  }

  /** The df_full computations once every check has passed, with the sign
      decisions logged on the way. */
  method BuildFull(raw: RawTable, d: Demographics, hh2: map<nat, Column>) returns (f: FullTable, signLog: seq<SignLog>)
    requires WellFormed(raw) && raw.hhWidth >= 5
    requires SpouseMerged(raw.hh2, raw.dhh2, hh2, |raw.keys|)
    ensures FullDescribed(raw, d, f)
    ensures forall i :: 0 <= i < |f.q45new| ==> |f.q45new[i]| >= 5
    ensures signLog == SignDecisions(raw)
  {
    var signs;
    signs, signLog := NormalizeSigns(raw);
    var comp := HouseholdStage(raw);
    var q38 := MergeIfNa([raw.q38, raw.dq38]);
    var q47 := MergeIfNa([raw.q47, raw.d6]);
    f := AssembleFull(raw, d, signs, q38, hh2, comp, q47);
  }

  /** The computations of process_sce once every check has passed. */
  method BuildTables(raw: RawTable, d: Demographics, hh2: map<nat, Column>) returns (t: Tables)
    requires WellFormed(raw) && raw.hhWidth >= 5
    requires TileDemographics(raw) == Ok(d)
    requires SpouseMerged(raw.hh2, raw.dhh2, hh2, |raw.keys|)
    ensures FullDescribed(raw, d, t.full) && ExtractDescribed(raw, d, t.full, t.extract)
    ensures t.signLog == SignDecisions(raw)
    ensures t.healthWarning == TryCast(Floats(raw.q45b)).naWarning
  {
    var full, signLog := BuildFull(raw, d, hh2);
    var extract, healthWarning := AssembleExtract(raw, d, full);
    t := Tables(full, extract, signLog, healthWarning);
  }

  /** Both jobless-duration assertions of process_sce hold: Q16 is answered
      only by job seekers and Q19 only by those not seeking. */
  predicate JoblessAssertionsHold(raw: RawTable)
    requires WellFormed(raw)
  {
    MissingUnless(raw.q16, raw.q15, 1.0) && MissingUnless(raw.q19, raw.q15, 2.0)
  }

  /** The Q9new2 bin copy of the Q1a block (src/SCE/importer.py:125-129)
      indexes with the filtered DataFrame itself instead of its column names,
      which pandas reads as a boolean mask. The statement only does nothing
      when Q1a is not asked, the table has no Q9new2 bin column, or the table
      has no rows. */
  predicate Q9new2CopyIsNoOp(raw: RawTable)
  {
    raw.q1a.None? || |raw.q9new2| == 0 || |raw.keys| == 0
  }

  /** Some Q9new2 bin cell holds an answer. */
  predicate Q9new2Answered(raw: RawTable)
  {
    exists k, i :: 0 <= k < |raw.q9new2| && 0 <= i < |raw.q9new2[k]| && raw.q9new2[k][i].Some?
  }

  /** The failure process_sce reports, in source order: the Q9new2 bin copy
      (the lookup rejects a mask holding a number; failing that, the
      assignment rejects the non-boolean key), the Q16 assertion,
      the Q19 assertion, the first tile_const failure or the missing Q35_2
      column (TileDemographics), a missing kid column, and the first DHH2_k
      without an HH2_k; it succeeds exactly when none of them happens, and
      "multiple non-NA values" is only ever reported for a repeated entry. */
  ghost predicate ReportsFirstFailure<T>(raw: RawTable, r: Result<T, Error>)
    requires WellFormed(raw)
  {
    (!Q9new2CopyIsNoOp(raw) && Q9new2Answered(raw) ==> r == Err(NonBooleanCondition))
    && (!Q9new2CopyIsNoOp(raw) && !Q9new2Answered(raw) ==> r == Err(NonBooleanFrameKey))
    && (Q9new2CopyIsNoOp(raw) && !MissingUnless(raw.q16, raw.q15, 1.0) ==> r == Err(AssertionFailed("Q16")))
    && (Q9new2CopyIsNoOp(raw) && MissingUnless(raw.q16, raw.q15, 1.0) && !MissingUnless(raw.q19, raw.q15, 2.0)
        ==> r == Err(AssertionFailed("Q19")))
    && (Q9new2CopyIsNoOp(raw) && JoblessAssertionsHold(raw) && TileDemographics(raw).Err?
        ==> r == Err(TileDemographics(raw).error))
    && (Q9new2CopyIsNoOp(raw) && JoblessAssertionsHold(raw) && TileDemographics(raw).Ok? && raw.hhWidth < 5
        ==> r == Err(MissingColumn(FirstMissingKidColumn(raw.hhWidth))))
    && (Q9new2CopyIsNoOp(raw) && JoblessAssertionsHold(raw) && TileDemographics(raw).Ok? && raw.hhWidth >= 5
        && (exists j :: 0 <= j < |raw.dhh2| && raw.dhh2[j].0 !in raw.hh2)
        ==> exists j :: 0 <= j < |raw.dhh2| && raw.dhh2[j].0 !in raw.hh2
                        && (forall l :: 0 <= l < j ==> raw.dhh2[l].0 in raw.hh2)
                        && r == Err(MissingColumn("HH2_" + Digits(raw.dhh2[j].0))))
    && (r.Ok? <==> Q9new2CopyIsNoOp(raw) && JoblessAssertionsHold(raw) && ConstantsUnique(raw)
                   && |raw.q35| >= 2 && raw.hhWidth >= 5
                   && forall j :: 0 <= j < |raw.dhh2| ==> raw.dhh2[j].0 in raw.hh2)
    && (r.Err? && r.error == MultipleNonMissing ==> !ConstantsUnique(raw))
  }

  /** What the checks of process_sce hand on to the computations. */
  datatype Checked = Checked(demo: Demographics, hh2: map<nat, Column>)

  /** The checks of process_sce in source order, with the tiled constants and
      the merged HH2 columns they produce. */
  method CheckInputs(raw: RawTable) returns (c: Result<Checked, Error>)
    requires WellFormed(raw)
    ensures ReportsFirstFailure(raw, c)
    ensures c.Ok? ==> TileDemographics(raw) == Ok(c.value.demo) && raw.hhWidth >= 5
                      && SpouseMerged(raw.hh2, raw.dhh2, c.value.hh2, |raw.keys|)
  {
    if !Q9new2CopyIsNoOp(raw) {
      if Q9new2Answered(raw) {
        return Err(NonBooleanCondition);
      }
      return Err(NonBooleanFrameKey);
    }
    if !MissingUnless(raw.q16, raw.q15, 1.0) {
      return Err(AssertionFailed("Q16"));
    }
    if !MissingUnless(raw.q19, raw.q15, 2.0) {
      return Err(AssertionFailed("Q19"));
    }
    var demo := TileDemographics(raw);
    if demo.Err? {
      return Err(demo.error);
    }
    if raw.hhWidth < 5 {
      return Err(MissingColumn(FirstMissingKidColumn(raw.hhWidth)));
    }
    var spouse := MergeSpouseUpdates(raw.hh2, raw.dhh2, |raw.keys|);
    if spouse.Err? {
      return Err(spouse.error);
    }
    c := Ok(Checked(demo.value, spouse.value));
  }

  /** process_sce on the sorted raw table: the first failure in source
      order, or both tables. */
  method ProcessSce(raw: RawTable) returns (r: Result<Tables, Error>)
    requires WellFormed(raw)
    ensures ReportsFirstFailure(raw, r)
    ensures r.Ok? ==> TileDemographics(raw).Ok?
                      && FullDescribed(raw, TileDemographics(raw).value, r.value.full)
                      && ExtractDescribed(raw, TileDemographics(raw).value, r.value.full, r.value.extract)
                      && r.value.signLog == SignDecisions(raw)
                      && r.value.healthWarning == TryCast(Floats(raw.q45b)).naWarning
  {
    var c := CheckInputs(raw);
    if c.Err? {
      return Err(c.error);
    }
    var tables := BuildTables(raw, c.value.demo, c.value.hh2);
    r := Ok(tables);
  }

  // ---------------------------------------------------------------------
  // What the tables promise
  // ---------------------------------------------------------------------

  /** With both jobless-duration assertions passed, jobless_length is Q16 for
      job seekers, Q19 for those not seeking, and missing otherwise. */
  lemma JoblessLengthByStatus(raw: RawTable, d: Demographics, f: FullTable, e: ExtractTable)
    requires WellFormed(raw) && ExtractDescribed(raw, d, f, e)
    requires JoblessAssertionsHold(raw)
    ensures forall i :: 0 <= i < |raw.keys| ==>
              e.joblessLength[i] == if raw.q15[i] == Some(1.0) then raw.q16[i]
                                    else if raw.q15[i] == Some(2.0) then raw.q19[i] else None
  {
    JoblessLength(raw.q15, raw.q16, raw.q19);
  }

  /** house_price_change is taken from the raw table, so where flip_sign
      negated Q31v2part2 in df_full the extract keeps the positive magnitude. */
  lemma HousePriceChangeKeepsRawSign(raw: RawTable, d: Demographics, f: FullTable, e: ExtractTable)
    requires WellFormed(raw) && FullDescribed(raw, d, f) && ExtractDescribed(raw, d, f, e)
    ensures e.housePriceChange == raw.q31v2.magnitude
    ensures Normalize(raw.q31v2, DecreaseCode).resolution == Flipped ==>
              forall i :: 0 <= i < |raw.keys| && raw.q31v2.direction[i] == Some(DecreaseCode)
                          && raw.q31v2.magnitude[i].Some? ==>
                            e.housePriceChange[i] == raw.q31v2.magnitude[i]
                            && f.signs.housePrices[i] == Some(-raw.q31v2.magnitude[i].value)
    ensures e.housePriceChange3y == Normalize(raw.c2, DecreaseCode).values
  {
    NormalizeSignOutcome(raw.q31v2.magnitude, CodeMask(raw.q31v2.direction, DecreaseCode));
  }

  /** A respondent constant cast to an integer dtype: every row of a
      respondent holds the same value; a respondent's single whole-number
      answer reaches every one of their rows; a respondent who never
      answered is missing everywhere. */
  lemma TiledAnswerBroadcast(keys: seq<Key>, values: Column, c: Cast)
    requires |keys| == |values| && TileConstAs(keys, values, true) == Ok(c)
    ensures |c.values.Cells()| == |keys|
    ensures forall i, j :: 0 <= i < |keys| && 0 <= j < |keys| && keys[i].id == keys[j].id
                           ==> c.values.Cells()[i] == c.values.Cells()[j]
    ensures forall i, j :: 0 <= i < |keys| && 0 <= j < |keys| && keys[i].id == keys[j].id
                           && values[j].Some? && values[j].value == values[j].value.Floor as real
                           ==> c.values.Cells()[i] == values[j]
    ensures forall i :: 0 <= i < |keys| && (forall j :: 0 <= j < |keys| && keys[j].id == keys[i].id ==> values[j].None?)
                        ==> c.values.Cells()[i].None?
  {
    var tiled := TileConst(keys, values).value;
    TileConstBroadcast(keys, values);
    var cells := c.values.Cells();
    forall i, j | 0 <= i < |keys| && 0 <= j < |keys| && keys[i].id == keys[j].id
                  && values[j].Some? && values[j].value == values[j].value.Floor as real
      ensures cells[i] == values[j]
    {
      if c.values.Ints? {
        var x := values[j].value;
        assert tiled[i] == Some(x);
        assert Truncate(x) == x.Floor;
      }
    }
  }

  /** female (and likewise hispanic) from the tiled answer: constant within a
      respondent; an answer of 1 gives 1 and an answer of 2 gives 0 on every
      row of that respondent, and no answer gives missing on every row. */
  lemma YesNoBroadcast(keys: seq<Key>, answers: Column, tiled: Cast, flag: Column)
    requires |keys| == |answers| && TileConstAs(keys, answers, true) == Ok(tiled)
    requires flag == YesNo(tiled.values.Cells())
    ensures |flag| == |keys|
    ensures forall i, j :: 0 <= i < |keys| && 0 <= j < |keys| && keys[i].id == keys[j].id
                           ==> flag[i] == flag[j]
    ensures forall i, j :: 0 <= i < |keys| && 0 <= j < |keys| && keys[i].id == keys[j].id ==>
              (answers[j] == Some(1.0) ==> flag[i] == Some(1.0))
              && (answers[j] == Some(2.0) ==> flag[i] == Some(0.0))
    ensures forall i :: 0 <= i < |keys|
                        && (forall j :: 0 <= j < |keys| && keys[j].id == keys[i].id ==> answers[j].None?)
                        ==> flag[i].None?
  {
    TiledAnswerBroadcast(keys, answers, tiled);
    YesNoOfBroadcast(keys, answers, tiled.values.Cells(), flag);
  }

  /** The recode step of YesNoBroadcast, on any column already constant
      within each respondent and carrying that respondent's whole-number
      answer. */
  lemma YesNoOfBroadcast(keys: seq<Key>, answers: Column, cells: Column, flag: Column)
    requires |keys| == |answers| == |cells|
    requires forall i, j :: 0 <= i < |keys| && 0 <= j < |keys| && keys[i].id == keys[j].id
                            ==> cells[i] == cells[j]
    requires forall i, j :: 0 <= i < |keys| && 0 <= j < |keys| && keys[i].id == keys[j].id
                            && answers[j].Some? && answers[j].value == answers[j].value.Floor as real
                            ==> cells[i] == answers[j]
    requires forall i :: 0 <= i < |keys| && (forall j :: 0 <= j < |keys| && keys[j].id == keys[i].id ==> answers[j].None?)
                         ==> cells[i].None?
    requires flag == YesNo(cells)
    ensures |flag| == |keys|
    ensures forall i, j :: 0 <= i < |keys| && 0 <= j < |keys| && keys[i].id == keys[j].id
                           ==> flag[i] == flag[j]
    ensures forall i, j :: 0 <= i < |keys| && 0 <= j < |keys| && keys[i].id == keys[j].id ==>
              (answers[j] == Some(1.0) ==> flag[i] == Some(1.0))
              && (answers[j] == Some(2.0) ==> flag[i] == Some(0.0))
    ensures forall i :: 0 <= i < |keys|
                        && (forall j :: 0 <= j < |keys| && keys[j].id == keys[i].id ==> answers[j].None?)
                        ==> flag[i].None?
  {
    forall i, j | 0 <= i < |keys| && 0 <= j < |keys| && keys[i].id == keys[j].id
      ensures answers[j] == Some(1.0) ==> flag[i] == Some(1.0)
      ensures answers[j] == Some(2.0) ==> flag[i] == Some(0.0)
    {
      if answers[j] == Some(1.0) {
        assert (1.0).Floor == 1;
        assert cells[i] == Some(1.0);
      } else if answers[j] == Some(2.0) {
        assert (2.0).Floor == 2;
        assert cells[i] == Some(2.0);
      }
    }
  }

  /** black is column Q35_2 of the tiled race block: on every row of a
      respondent it holds that respondent's Q35_2 from their complete race
      row (truncated when the column was cast to int), and it is missing,
      with the column left float, when the respondent has no complete race
      row. */
  lemma BlackBroadcast(keys: seq<Key>, q35: seq<Column>, races: seq<Cast>, black: Series)
    requires Aligned(q35, |keys|) && |q35| >= 2
    requires TileConstFrame(keys, q35) == Ok(races) && black == races[1].values
    ensures black.Length() == |keys|
    ensures forall i, j :: 0 <= i < |keys| && 0 <= j < |keys| && keys[j].id == keys[i].id
                           && FrameRow(q35, j).Some? ==>
              (black.Floats? ==> black.cells[i] == q35[1][j])
              && (black.Ints? ==> black.ints[i] == Truncate(q35[1][j].value))
    ensures forall i :: 0 <= i < |keys|
                        && (forall j :: 0 <= j < |keys| && keys[j].id == keys[i].id ==> FrameRow(q35, j).None?) ==>
              black.Floats? && black.cells[i].None?
  {
    forall i | 0 <= i < |keys|
      ensures forall j :: 0 <= j < |keys| && keys[j].id == keys[i].id && FrameRow(q35, j).Some? ==>
                (black.Floats? ==> black.cells[i] == q35[1][j])
                && (black.Ints? ==> black.ints[i] == Truncate(q35[1][j].value))
      ensures (forall j :: 0 <= j < |keys| && keys[j].id == keys[i].id ==> FrameRow(q35, j).None?) ==>
                black.Floats? && black.cells[i].None?
    {
      TiledCastAt(keys, q35, 1, i);
      assert BroadcastAt(keys, q35, races[1], 1, i);
    }
  }

  /** At a wave where D1 reports a changed household and the D2new row is
      complete, the composition is the D2new row and num_kids is the sum of
      its four kid buckets (truncated when the column is cast to int). */
  lemma NumKidsAtReportedChange(raw: RawTable, comp: seq<Row>, kids: Series)
    requires |raw.q45new| == |raw.d2new| == |raw.d1| == |raw.keys| == |comp| && raw.hhWidth >= 5
    requires forall i :: 0 <= i < |raw.d2new| ==> |raw.d2new[i]| == raw.hhWidth
    requires forall i :: 0 <= i < |comp| ==>
               comp[i] == CarriedForward(Updated(raw.q45new, raw.d2new, CodeMask(raw.d1, 2.0)), raw.hhWidth, i)
    requires forall i :: 0 <= i < |comp| ==> |comp[i]| >= 5
    requires kids == NumKidsColumn(comp)
    ensures forall i :: 0 <= i < |raw.keys| && raw.d1[i] == Some(2.0) && Complete(raw.d2new[i]) ==>
              var row := raw.d2new[i];
              var sum := row[1].value + row[2].value + row[3].value + row[4].value;
              comp[i] == row
              && (kids.Floats? ==> kids.cells[i] == Some(sum))
              && (kids.Ints? ==> kids.ints[i] == Truncate(sum))
  {
    forall i | 0 <= i < |raw.keys| && raw.d1[i] == Some(2.0) && Complete(raw.d2new[i]) {
      KidsAtChangeWave(raw.q45new, raw.d2new, raw.d1, raw.hhWidth, comp, kids, i);
    }
  }

  /** NumKidsAtReportedChange at one change wave. */
  lemma KidsAtChangeWave(q45new: seq<Row>, d2new: seq<Row>, d1: Column, width: nat,
                         comp: seq<Row>, kids: Series, i: nat)
    requires |q45new| == |d2new| == |d1| == |comp| && i < |comp|
    requires forall j :: 0 <= j < |comp| ==> |comp[j]| >= 5
    requires comp[i] == CarriedForward(Updated(q45new, d2new, CodeMask(d1, 2.0)), width, i)
    requires kids == NumKidsColumn(comp)
    requires d1[i] == Some(2.0) && Complete(d2new[i]) && |d2new[i]| >= 5
    ensures var row := d2new[i];
            var sum := row[1].value + row[2].value + row[3].value + row[4].value;
            comp[i] == row
            && (kids.Floats? ==> kids.cells[i] == Some(sum))
            && (kids.Ints? ==> kids.ints[i] == Truncate(sum))
  {
    CompositionAtChange(q45new, d2new, d1, width, i);
    KidsAt(comp, kids, i);
  }

  /** Row `i` of the num_kids column, when that row's composition is
      complete, is the sum of its four kid buckets, truncated when the
      column is cast to int. */
  lemma KidsAt(comp: seq<Row>, kids: Series, i: nat)
    requires forall j :: 0 <= j < |comp| ==> |comp[j]| >= 5
    requires kids == NumKidsColumn(comp) && i < |comp| && Complete(comp[i])
    ensures var sum := comp[i][1].value + comp[i][2].value + comp[i][3].value + comp[i][4].value;
            (kids.Floats? ==> kids.cells[i] == Some(sum))
            && (kids.Ints? ==> kids.ints[i] == Truncate(sum))
  {
    NumKidsAllOrNothing(comp[i]);
  }

  /** At a reported change with a complete D2new row, the carried-forward
      composition is that row. */
  lemma CompositionAtChange(q45new: seq<Row>, d2new: seq<Row>, d1: Column, width: nat, i: nat)
    requires |q45new| == |d2new| == |d1| && i < |d1|
    requires d1[i] == Some(2.0) && Complete(d2new[i])
    ensures CarriedForward(Updated(q45new, d2new, CodeMask(d1, 2.0)), width, i) == d2new[i]
  {
    assert Updated(q45new, d2new, CodeMask(d1, 2.0))[i] == d2new[i];
  }

  /** couple and hh_inc take the first-interview answer (Q38, Q47) where
      present and the repeat-interview update (DQ38, D6) otherwise. */
  lemma InitialAnswerFirst(raw: RawTable, d: Demographics, f: FullTable, e: ExtractTable)
    requires WellFormed(raw) && FullDescribed(raw, d, f) && ExtractDescribed(raw, d, f, e)
    ensures forall i :: 0 <= i < |raw.keys| ==>
              e.hhInc[i] == (if raw.q47[i].Some? then raw.q47[i] else raw.d6[i])
              && (e.couple[i] == Some(1.0) <==> raw.q38[i] == Some(1.0) || (raw.q38[i].None? && raw.dq38[i] == Some(1.0)))
              && (e.couple[i] == Some(0.0) <==> raw.q38[i] == Some(2.0) || (raw.q38[i].None? && raw.dq38[i] == Some(2.0)))
  {
    forall i | 0 <= i < |raw.keys|
      ensures e.hhInc[i] == (if raw.q47[i].Some? then raw.q47[i] else raw.d6[i])
      ensures f.q38[i] == (if raw.q38[i].Some? then raw.q38[i] else raw.dq38[i])
    {
      FirstPresentOfTwo(raw.q47, raw.d6, i);
      FirstPresentOfTwo(raw.q38, raw.dq38, i);
    }
  }
}
