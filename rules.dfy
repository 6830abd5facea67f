/** The small per-row rules of process_sce in src/SCE/importer.py: recode
    tables, indicator flags, literacy correctness flags, the jobless-duration
    domain checks and the number of kids. */
module Rules {
  import opened Panel
  import opened PandasHelpers

  // ---------------------------------------------------------------------
  // Recode tables: Series.map(table, na_action="ignore")
  // ---------------------------------------------------------------------

  /** A code outside the table, or a missing code, becomes missing. */
  function Recode(c: Column, table: map<real, real>): (r: Column)
    ensures |r| == |c|
    ensures forall i :: 0 <= i < |c| ==> (r[i].Some? <==> c[i].Some? && c[i].value in table)
  {
    seq(|c|, i requires 0 <= i < |c| =>
      if c[i].Some? && c[i].value in table then Some(table[c[i].value]) else None)
  }

  /** Q12new: 1 works for someone else, 2 self-employed. */
  function SelfEmployed(q12new: Column): (r: Column)
    ensures |r| == |q12new|
    ensures forall i :: 0 <= i < |r| ==>
              r[i] == if q12new[i] == Some(1.0) then Some(0.0)
                      else if q12new[i] == Some(2.0) then Some(1.0) else None
  {
    Recode(q12new, map[1.0 := 0.0, 2.0 := 1.0])
  }

  /** The yes/no recode {1 -> 1, 2 -> 0}: female from Q33, hispanic from Q34,
      couple from Q38. */
  function YesNo(c: Column): (r: Column)
    ensures |r| == |c|
    ensures forall i :: 0 <= i < |r| ==>
              r[i] == if c[i] == Some(1.0) then Some(1.0)
                      else if c[i] == Some(2.0) then Some(0.0) else None
  {
    Recode(c, map[1.0 := 1.0, 2.0 := 0.0])
  }

  /** Q43: 1 owns, 2 rents, 3 other. */
  function Owner(q43: Column): (r: Column)
    ensures |r| == |q43|
    ensures forall i :: 0 <= i < |r| ==>
              r[i] == if q43[i] == Some(1.0) then Some(1.0)
                      else if q43[i] == Some(2.0) || q43[i] == Some(3.0) then Some(0.0) else None
  {
    Recode(q43, map[1.0 := 1.0, 2.0 := 0.0, 3.0 := 0.0])
  }

  /** The four education tiers: less than high school, high school, some
      college, college degree. */
  function EducTier(x: real): Option<real>
  {
    if x == 1.0 then Some(1.0)
    else if x == 2.0 then Some(2.0)
    else if x == 3.0 || x == 4.0 then Some(3.0)
    else if x == 5.0 || x == 6.0 || x == 7.0 || x == 8.0 then Some(4.0)
    else None
  }

  /** educ from Q36 by the table {1:1, 2:2, 3:3, 4:3, 5:4, 6:4, 7:4, 8:4}. */
  function Educ(q36: Column): (r: Column)
    ensures |r| == |q36|
    ensures forall i :: 0 <= i < |r| ==> r[i] == if q36[i].Some? then EducTier(q36[i].value) else None
  {
    Recode(q36, map[1.0 := 1.0, 2.0 := 2.0, 3.0 := 3.0, 4.0 := 3.0,
                    5.0 := 4.0, 6.0 := 4.0, 7.0 := 4.0, 8.0 := 4.0])
  }

  /** college: missing where Q36 is missing, else whether Q36 is one of the
      degree codes 5 to 8. */
  function College(q36: Column): (r: Column)
    ensures |r| == |q36|
    ensures forall i :: 0 <= i < |r| ==>
              (r[i].None? <==> q36[i].None?)
              && (r[i] == Some(1.0) <==> q36[i].Some? && q36[i].value in {5.0, 6.0, 7.0, 8.0})
              && (r[i] == Some(0.0) <==> q36[i].Some? && q36[i].value !in {5.0, 6.0, 7.0, 8.0})
  {
    seq(|q36|, i requires 0 <= i < |q36| =>
      if q36[i].Some? then (if q36[i].value in {5.0, 6.0, 7.0, 8.0} then Some(1.0) else Some(0.0))
      else None)
  }

  /** college is 1 exactly where educ is the top tier, and 0 wherever educ
      is one of the lower tiers; a present Q36 outside the table has no educ
      but still has college 0. */
  lemma CollegeAgreesWithEduc(q36: Column)
    ensures |College(q36)| == |Educ(q36)| == |q36|
    ensures forall i :: 0 <= i < |q36| ==>
              (College(q36)[i] == Some(1.0) <==> Educ(q36)[i] == Some(4.0))
              && (Educ(q36)[i].Some? && Educ(q36)[i] != Some(4.0) ==> College(q36)[i] == Some(0.0))
              && (q36[i].Some? && Educ(q36)[i].None? ==> College(q36)[i] == Some(0.0))
  {
  }

  // ---------------------------------------------------------------------
  // Indicator flags
  // ---------------------------------------------------------------------

  /** A 0/1 indicator: 1 where the code is given, 0 elsewhere, including
      where the answer is missing. */
  function Indicator(c: Column, code: real): (r: seq<int>)
    ensures |r| == |c|
    ensures forall i :: 0 <= i < |r| ==> (r[i] == 1 <==> c[i] == Some(code)) && (r[i] == 0 || r[i] == 1)
  {
    seq(|c|, i requires 0 <= i < |c| => if c[i] == Some(code) then 1 else 0)
  }

  /** working: 1 where Q10_1 or Q10_2 answers 1, otherwise 0 (a missing
      answer counts as not 1). */
  function Working(q10_1: Column, q10_2: Column): (r: seq<int>)
    requires |q10_1| == |q10_2|
    ensures |r| == |q10_1|
    ensures forall i :: 0 <= i < |r| ==>
              (r[i] == 1 <==> q10_1[i] == Some(1.0) || q10_2[i] == Some(1.0)) && (r[i] == 0 || r[i] == 1)
  {
    seq(|q10_1|, i requires 0 <= i < |q10_1| =>
      if q10_1[i] == Some(1.0) || q10_2[i] == Some(1.0) then 1 else 0)
  }

  /** Q1 and Q2 as small integers: a missing answer becomes the code -1. */
  function FillSentinel(c: Column): (r: seq<int>)
    ensures |r| == |c|
    ensures forall i :: 0 <= i < |r| ==> if c[i].None? then r[i] == -1 else r[i] == Truncate(c[i].value)
  {
    seq(|c|, i requires 0 <= i < |c| => if c[i].Some? then Truncate(c[i].value) else -1)
  }

  /** same_employer: missing where DSAME is missing, otherwise 1 when DSAME
      is 1 or 2 and 0 for any other answer. */
  function SameEmployer(dsame: Column): (r: Column)
    ensures |r| == |dsame|
    ensures forall i :: 0 <= i < |r| ==>
              (r[i].None? <==> dsame[i].None?)
              && (r[i] == Some(1.0) <==> dsame[i] == Some(1.0) || dsame[i] == Some(2.0))
              && (r[i].Some? ==> r[i] == Some(0.0) || r[i] == Some(1.0))
  {
    seq(|dsame|, i requires 0 <= i < |dsame| =>
      if dsame[i].Some? then (if dsame[i].value in {1.0, 2.0} then Some(1.0) else Some(0.0)) else None)
  }

  // ---------------------------------------------------------------------
  // Numerical literacy correctness flags
  // ---------------------------------------------------------------------

  /** A correct-answer flag: 1 for the expected answer, 0 for any other
      answer; missing answers stay missing, never "incorrect". */
  function CorrectFlag(c: Column, expected: real): (r: Column)
    ensures |r| == |c|
    ensures forall i :: 0 <= i < |r| ==>
              (r[i].None? <==> c[i].None?)
              && (r[i] == Some(1.0) <==> c[i] == Some(expected))
              && (r[i] == Some(0.0) <==> c[i].Some? && c[i].value != expected)
  {
    seq(|c|, i requires 0 <= i < |c| =>
      if c[i].Some? then (if c[i].value == expected then Some(1.0) else Some(0.0)) else None)
  }

  /** QNUM2: the answer counts as right within 1e-6 of 200 * 1.1^2, which is
      exactly 242 here. */
  function CorrectWithinTolerance(c: Column): (r: Column)
    ensures |r| == |c|
    ensures forall i :: 0 <= i < |r| ==>
              (r[i].None? <==> c[i].None?)
              && (r[i] == Some(1.0) <==> c[i].Some? && 242.0 - 0.000001 < c[i].value < 242.0 + 0.000001)
              && (r[i] == Some(0.0) <==> c[i].Some? && !(242.0 - 0.000001 < c[i].value < 242.0 + 0.000001))
  {
    seq(|c|, i requires 0 <= i < |c| =>
      if c[i].Some? then
        (var d := c[i].value - 200.0 * 1.1 * 1.1;
         if (if d < 0.0 then -d else d) < 0.000001 then Some(1.0) else Some(0.0))
      else None)
  }

  // The expected answers: q1 150, q3 10, q5 100, q6 10000 * 0.0005 (exactly 5
  // in double precision), q8 3, q9 2.
  const ExpectedQ1: real := 150.0
  const ExpectedQ3: real := 10.0
  const ExpectedQ5: real := 100.0
  const ExpectedQ6: real := 10000.0 * 0.0005
  const ExpectedQ8: real := 3.0
  const ExpectedQ9: real := 2.0

  // ---------------------------------------------------------------------
  // Jobless duration
  // ---------------------------------------------------------------------

  /** The jobless assertions: the value is missing on every row whose status
      is not `code`, a missing status included. */
  predicate MissingUnless(value: Column, status: Column, code: real)
    requires |value| == |status|
  {
    forall i :: 0 <= i < |value| && status[i] != Some(code) ==> value[i].None?
  }

  /** When both assertions hold, at most one of Q16 and Q19 is present on a
      row, and jobless_length (merge_if_na of Q16 and Q19) is Q16 for job
      seekers, Q19 for those not seeking, missing otherwise. */
  lemma JoblessLength(q15: Column, q16: Column, q19: Column)
    requires |q15| == |q16| == |q19|
    requires MissingUnless(q16, q15, 1.0) && MissingUnless(q19, q15, 2.0)
    ensures forall i :: 0 <= i < |q15| ==> !(q16[i].Some? && q19[i].Some?)
    ensures forall i :: 0 <= i < |q15| ==>
              FirstPresent([q16, q19], i) == if q15[i] == Some(1.0) then q16[i]
                                             else if q15[i] == Some(2.0) then q19[i] else None
  {
    forall i | 0 <= i < |q15|
      ensures FirstPresent([q16, q19], i) == if q15[i] == Some(1.0) then q16[i]
                                             else if q15[i] == Some(2.0) then q19[i] else None
    {
      var cols := [q16, q19];
      assert FirstPresent([q19], i) == if q19[i].Some? then q19[i] else None by {
        assert [q19][0] == q19 && [q19][1..] == [];
      }
      assert cols[0] == q16 && cols[1..] == [q19];
    }
  }

  // ---------------------------------------------------------------------
  // Number of kids
  // ---------------------------------------------------------------------

  /** The number of present cells, the complement of the missing count. */
  function PresentCount(cs: seq<Cell>): nat
  {
    |cs| - CountMissing(cs)
  }

  /** The NaN-skipping sum. */
  function PresentSum(cs: seq<Cell>): real
  {
    if |cs| == 0 then 0.0 else FillZero(cs[0]) + PresentSum(cs[1..])
  }

  /** `sum(axis=1, min_count=m)`: missing unless at least m values are present. */
  function SumMinCount(cs: seq<Cell>, minCount: nat): Cell
  {
    if PresentCount(cs) < minCount then None else Some(PresentSum(cs))
  }

  /** The household row holds Q45new_1, Q45new_2, ...; kids are the four
      age buckets Q45new_2 to Q45new_5. */
  function NumKids(row: Row): (r: Cell)
    requires |row| >= 5
    ensures r.Some? <==> row[1].Some? && row[2].Some? && row[3].Some? && row[4].Some?
  {
    assert forall k :: 1 <= k <= 4 ==> row[k] == row[1..5][k - 1];
    SumMinCount(row[1..5], 4)
  }

  /** num_kids is the sum of the four buckets when all four are present and
      missing otherwise; a missing bucket never counts as 0. */
  lemma NumKidsAllOrNothing(row: Row)
    requires |row| >= 5
    ensures NumKids(row).Some? <==> forall k :: 1 <= k <= 4 ==> row[k].Some?
    ensures NumKids(row).Some? ==>
              NumKids(row).value == row[1].value + row[2].value + row[3].value + row[4].value
  {
    var b := row[1..5];
    assert forall k :: 1 <= k <= 4 ==> row[k] == b[k - 1];
    var b1, b2, b3 := b[1..], b[2..], b[3..];
    assert b[1..] == b1 && b1[1..] == b2 && b2[1..] == b3 && b3[1..] == [];
    assert PresentSum(b3) == FillZero(b[3]);
    assert PresentSum(b2) == FillZero(b[2]) + FillZero(b[3]);
    assert PresentSum(b1) == FillZero(b[1]) + FillZero(b[2]) + FillZero(b[3]);
  }

  /** Buckets {1, 2, missing, 0} give missing; {1, 2, 0, 0} give 3. */
  lemma NumKidsExamples()
    ensures NumKids([Some(2.0), Some(1.0), Some(2.0), None, Some(0.0)]) == None
    ensures NumKids([Some(2.0), Some(1.0), Some(2.0), Some(0.0), Some(0.0)]) == Some(3.0)
  {
    var gap := [Some(2.0), Some(1.0), Some(2.0), None, Some(0.0)];
    assert gap[3].None?;
    var full := [Some(2.0), Some(1.0), Some(2.0), Some(0.0), Some(0.0)];
    assert full[1] == Some(1.0) && full[2] == Some(2.0) && full[3] == Some(0.0) && full[4] == Some(0.0);
    NumKidsAllOrNothing(full);
  }

  /** num_kids over the table: the column becomes integer only when no row is
      missing; otherwise it stays float with its missing rows. */
  function NumKidsColumn(rows: seq<Row>): (r: Series)
    requires forall i :: 0 <= i < |rows| ==> |rows[i]| >= 5
    ensures r.Length() == |rows|
    ensures r.Ints? <==> forall i :: 0 <= i < |rows| ==> NumKids(rows[i]).Some?
    ensures r.Floats? ==> r.cells == seq(|rows|, i requires 0 <= i < |rows| => NumKids(rows[i]))
    ensures r.Ints? ==> forall i :: 0 <= i < |rows| ==> r.ints[i] == Truncate(NumKids(rows[i]).value)
  {
    var kids := seq(|rows|, i requires 0 <= i < |rows| => NumKids(rows[i]));
    assert forall i :: 0 <= i < |rows| ==> kids[i] == NumKids(rows[i]);
    TryCast(Floats(kids)).values
  }
}
