/** The sign normaliser of src/SCE/importer.py (flip_sign): a magnitude column
    whose decrease-flagged rows must end up non-positive. */
module SignNormalizer {
  import opened Panel

  /** What flip_sign logs: sign already right, sign flipped, or ambiguous. */
  datatype SignResolution = Unchanged | Flipped | Ambiguous

  /** `*= -1` on one cell: NaN stays NaN. */
  function Negate(c: Cell): Cell
  {
    match c
    case None => None
    case Some(x) => Some(-x)
  }

  /** Every flagged magnitude is <= 0, missing counted as 0. */
  predicate FlaggedNonPositive(m: Column, negative: seq<bool>)
    requires |m| == |negative|
  {
    forall i :: 0 <= i < |m| && negative[i] ==> FillZero(m[i]) <= 0.0
  }

  /** Every flagged magnitude is >= 0, missing counted as 0. */
  predicate FlaggedNonNegative(m: Column, negative: seq<bool>)
    requires |m| == |negative|
  {
    forall i :: 0 <= i < |m| && negative[i] ==> FillZero(m[i]) >= 0.0
  }

  datatype Normalized = Normalized(resolution: SignResolution, values: Column)

  /** The decision flip_sign takes and the column it leaves behind. */
  function NormalizeSign(m: Column, negative: seq<bool>): (r: Normalized)
    requires |m| == |negative|
    ensures |r.values| == |m|
    ensures forall i :: 0 <= i < |m| && !negative[i] ==> r.values[i] == m[i]
    ensures r.resolution != Flipped ==> r.values == m
  {
    if FlaggedNonPositive(m, negative) then Normalized(Unchanged, m)
    else if FlaggedNonNegative(m, negative) then
      Normalized(Flipped, seq(|m|, i requires 0 <= i < |m| => if negative[i] then Negate(m[i]) else m[i]))
    else Normalized(Ambiguous, m)
  }

  /** flip_sign: leave the column when the flagged rows are already
      non-positive; negate exactly the flagged rows, in place, when they are
      all non-negative; otherwise report an ambiguous sign and change
      nothing. */
  method FlipSign(col: array<Cell>, negative: seq<bool>) returns (res: SignResolution)
    requires col.Length == |negative|
    modifies col
    ensures res == NormalizeSign(old(col[..]), negative).resolution
    ensures col[..] == NormalizeSign(old(col[..]), negative).values
  {
    if FlaggedNonPositive(col[..], negative) {
      res := Unchanged;
    } else if FlaggedNonNegative(col[..], negative) {
      res := Flipped;
      ghost var before := col[..];
      var i := 0;
      while i < col.Length
        invariant 0 <= i <= col.Length
        invariant forall j :: 0 <= j < i ==> col[j] == if negative[j] then Negate(before[j]) else before[j]
        invariant forall j :: i <= j < col.Length ==> col[j] == before[j]
      {
        if negative[i] {
          col[i] := Negate(col[i]);
        }
        i := i + 1;
      }
      assert col[..] == NormalizeSign(before, negative).values;
    } else {
      res := Ambiguous;
    }
  }

  /** The sign normalisation of process_sce: the magnitude column is copied
      into the full table and flip_sign runs on the copy, with the rows whose
      direction answer equals the code as the negative rows; the raw column
      is not touched. */
  method NormalizedCopy(direction: Column, magnitude: Column, code: real)
    returns (values: Column, res: SignResolution)
    requires |direction| == |magnitude|
    ensures res == NormalizeSign(magnitude, CodeMask(direction, code)).resolution
    ensures values == NormalizeSign(magnitude, CodeMask(direction, code)).values
  {
    var col := new Cell[|magnitude|](i requires 0 <= i < |magnitude| => magnitude[i]);
    assert col[..] == magnitude;
    res := FlipSign(col, CodeMask(direction, code));
    values := col[..];
  }

  /** The three outcomes: unflagged rows never change, missing stays missing,
      the column is flipped exactly on the flagged rows or not at all, the
      sign is ambiguous exactly when the flagged rows hold both a positive
      and a negative value, and after a decision every flagged value is
      non-positive. */
  lemma NormalizeSignOutcome(m: Column, negative: seq<bool>)
    requires |m| == |negative|
    ensures var r := NormalizeSign(m, negative);
      && |r.values| == |m|
      && (r.resolution == Unchanged <==> FlaggedNonPositive(m, negative))
      && (r.resolution == Ambiguous <==>
            exists i, j :: 0 <= i < |m| && 0 <= j < |m| && negative[i] && negative[j]
                           && FillZero(m[i]) > 0.0 && FillZero(m[j]) < 0.0)
      && (r.resolution != Flipped ==> r.values == m)
      && (r.resolution == Flipped ==>
            forall i :: 0 <= i < |m| ==> r.values[i] == if negative[i] then Negate(m[i]) else m[i])
      && (forall i :: 0 <= i < |m| && !negative[i] ==> r.values[i] == m[i])
      && (forall i :: 0 <= i < |m| ==> (r.values[i].None? <==> m[i].None?))
      && (r.resolution != Ambiguous ==> FlaggedNonPositive(r.values, negative))
  {
    var r := NormalizeSign(m, negative);
    if !FlaggedNonPositive(m, negative) && !FlaggedNonNegative(m, negative) {
      var i :| 0 <= i < |m| && negative[i] && FillZero(m[i]) > 0.0;
      var j :| 0 <= j < |m| && negative[j] && FillZero(m[j]) < 0.0;
    }
  }

  /** Normalising a normalised column changes nothing: after a decision the
      second call leaves the sign unchanged, after an ambiguous call it is
      ambiguous again. */
  lemma NormalizeSignIdempotent(m: Column, negative: seq<bool>)
    requires |m| == |negative|
    ensures var r := NormalizeSign(m, negative);
      NormalizeSign(r.values, negative).values == r.values
      && (r.resolution != Ambiguous ==> NormalizeSign(r.values, negative).resolution == Unchanged)
  {
    NormalizeSignOutcome(m, negative);
  }

  /** Flagged magnitudes {+5, +3, +2} become {-5, -3, -2}; {-5, -3, -2} stay;
      {+5, -3} are ambiguous and stay. */
  lemma NormalizeSignExamples()
    ensures NormalizeSign([Some(5.0), Some(3.0), Some(2.0)], [true, true, true])
            == Normalized(Flipped, [Some(-5.0), Some(-3.0), Some(-2.0)])
    ensures NormalizeSign([Some(-5.0), Some(-3.0), Some(-2.0)], [true, true, true])
            == Normalized(Unchanged, [Some(-5.0), Some(-3.0), Some(-2.0)])
    ensures NormalizeSign([Some(5.0), Some(-3.0)], [true, true])
            == Normalized(Ambiguous, [Some(5.0), Some(-3.0)])
  {
    var m := [Some(5.0), Some(3.0), Some(2.0)];
    assert !FlaggedNonPositive(m, [true, true, true]) by { assert FillZero(m[0]) > 0.0; }
    var a := [Some(5.0), Some(-3.0)];
    assert !FlaggedNonPositive(a, [true, true]) by { assert FillZero(a[0]) > 0.0; }
    assert !FlaggedNonNegative(a, [true, true]) by { assert FillZero(a[1]) < 0.0; }
  }
}
