/** The household-composition carry-forward of process_sce in
    src/SCE/importer.py: overwrite the composition at the waves where the
    respondent reports a change, drop every row with a missing component,
    then forward-fill over the whole sorted (respondent, wave) index. */
module Household {
  import opened Panel

  /** A row with no missing component survives `dropna()`. */
  predicate Complete(row: Row)
  {
    forall k :: 0 <= k < |row| ==> row[k].Some?
  }

  /** The household update (src/SCE/importer.py, process_sce): at a change
      wave the D2new values replace the Q45new values position by position;
      elsewhere the Q45new values stay. */
  function Updated(comp: seq<Row>, d2new: seq<Row>, changed: seq<bool>): (r: seq<Row>)
    requires |comp| == |d2new| == |changed|
  {
    seq(|comp|, i requires 0 <= i < |comp| => if changed[i] then d2new[i] else comp[i])
  }

  /** The last complete row at or before row `i`, if any. */
  function LastComplete(rows: seq<Row>, i: int): Option<Row>
    requires i < |rows|
    decreases i + 1
  {
    if i < 0 then None
    else if Complete(rows[i]) then Some(rows[i])
    else LastComplete(rows, i - 1)
  }

  function MissingRow(width: nat): (r: Row)
  {
    seq(width, _ => None)
  }

  /** The composition row `i` holds after `reindex(index, method="ffill")`:
      the last kept row at or before it, or all missing. */
  function CarriedForward(rows: seq<Row>, width: nat, i: nat): Row
    requires i < |rows|
  {
    match LastComplete(rows, i)
    case Some(r) => r
    case None => MissingRow(width)
  }

  /** LastComplete is the nearest complete row at or before `i`: every row in
      between is incomplete, and there is none at all exactly when no row up
      to `i` is complete. */
  lemma {:induction false} LastCompleteIsNearest(rows: seq<Row>, i: int)
    requires i < |rows|
    ensures LastComplete(rows, i).None? <==> forall j :: 0 <= j <= i ==> !Complete(rows[j])
    ensures LastComplete(rows, i).Some? ==>
              exists j :: 0 <= j <= i && Complete(rows[j]) && LastComplete(rows, i) == Some(rows[j])
                          && forall l :: j < l <= i ==> !Complete(rows[l])
    decreases i + 1
  {
    if i >= 0 && !Complete(rows[i]) {
      LastCompleteIsNearest(rows, i - 1);
      if LastComplete(rows, i).Some? {
        var j :| 0 <= j <= i - 1 && Complete(rows[j]) && LastComplete(rows, i - 1) == Some(rows[j])
                 && forall l :: j < l <= i - 1 ==> !Complete(rows[l]);
        assert forall l :: j < l <= i ==> !Complete(rows[l]);
      }
    }
  }

  /** When every row has `width` columns, so has every carried-forward row. */
  lemma CarriedForwardWidth(rows: seq<Row>, width: nat, i: nat)
    requires i < |rows| && forall j :: 0 <= j < |rows| ==> |rows[j]| == width
    ensures |CarriedForward(rows, width, i)| == width
  {
    LastCompleteIsNearest(rows, i);
  }

  /** The in-place overwrite of the copied Q45new block at the change waves,
      row by row. */
  method OverwriteChanged(block: array<Row>, d2new: seq<Row>, changed: seq<bool>)
    requires block.Length == |d2new| == |changed|
    modifies block
    ensures block[..] == Updated(old(block[..]), d2new, changed)
  {
    ghost var before := block[..];
    var i := 0;
    while i < block.Length
      invariant 0 <= i <= block.Length
      invariant forall j :: 0 <= j < i ==> block[j] == if changed[j] then d2new[j] else before[j]
      invariant forall j :: i <= j < block.Length ==> block[j] == before[j]
    {
      if changed[i] {
        block[i] := d2new[i];
      }
      i := i + 1;
    }
  }

  /** `dropna()`: the complete rows, with their positions in the index, in
      index order. */
  method DropIncomplete(rows: seq<Row>) returns (keptAt: seq<nat>, kept: seq<Row>)
    ensures |kept| == |keptAt|
    ensures forall q :: 0 <= q < |keptAt| ==>
              keptAt[q] < |rows| && Complete(rows[keptAt[q]]) && kept[q] == rows[keptAt[q]]
    ensures forall q1, q2 :: 0 <= q1 < q2 < |keptAt| ==> keptAt[q1] < keptAt[q2]
    ensures forall j :: 0 <= j < |rows| && Complete(rows[j]) ==> j in keptAt
  {
    keptAt, kept := [], [];
    var i := 0;
    while i < |rows|
      invariant 0 <= i <= |rows| && |kept| == |keptAt|
      invariant forall q :: 0 <= q < |keptAt| ==>
                  keptAt[q] < i && Complete(rows[keptAt[q]]) && kept[q] == rows[keptAt[q]]
      invariant forall q1, q2 :: 0 <= q1 < q2 < |keptAt| ==> keptAt[q1] < keptAt[q2]
      invariant forall j :: 0 <= j < i && Complete(rows[j]) ==> j in keptAt
    {
      if Complete(rows[i]) {
        keptAt := keptAt + [i];
        kept := kept + [rows[i]];
      }
      i := i + 1;
    }
  }

  /** The cursor into the kept positions points at row `i` exactly when row
      `i` is complete. */
  lemma KeptCursor(rows: seq<Row>, keptAt: seq<nat>, p: nat, i: nat)
    requires i < |rows| && p <= |keptAt|
    requires forall q :: 0 <= q < |keptAt| ==> keptAt[q] < |rows| && Complete(rows[keptAt[q]])
    requires forall j :: 0 <= j < |rows| && Complete(rows[j]) ==> j in keptAt
    requires forall q :: 0 <= q < p ==> keptAt[q] < i
    requires forall q :: p <= q < |keptAt| ==> keptAt[q] >= i
    requires forall q1, q2 :: 0 <= q1 < q2 < |keptAt| ==> keptAt[q1] < keptAt[q2]
    ensures Complete(rows[i]) <==> p < |keptAt| && keptAt[p] == i
  {
    if Complete(rows[i]) {
      var q :| 0 <= q < |keptAt| && keptAt[q] == i;
      assert p <= q;
      assert keptAt[p] >= i;
    }
  }

  /** `reindex(index, method="ffill")` of the kept rows over the full index:
      each row takes the last kept row at or before it, or all missing. The
      index is the table's sorted (respondent, wave) index, so "at or before"
      by label is "at or before" by position. */
  method ForwardFill(rows: seq<Row>, keptAt: seq<nat>, kept: seq<Row>, width: nat)
    returns (filled: seq<Row>)
    requires |kept| == |keptAt|
    requires forall q :: 0 <= q < |keptAt| ==>
               keptAt[q] < |rows| && Complete(rows[keptAt[q]]) && kept[q] == rows[keptAt[q]]
    requires forall q1, q2 :: 0 <= q1 < q2 < |keptAt| ==> keptAt[q1] < keptAt[q2]
    requires forall j :: 0 <= j < |rows| && Complete(rows[j]) ==> j in keptAt
    ensures |filled| == |rows|
    ensures forall i :: 0 <= i < |rows| ==> filled[i] == CarriedForward(rows, width, i)
  {
    filled := [];
    var p := 0;
    var last: Option<Row> := None;
    var i := 0;
    while i < |rows|
      invariant 0 <= i <= |rows| && 0 <= p <= |keptAt| && |filled| == i
      invariant forall q :: 0 <= q < p ==> keptAt[q] < i
      invariant forall q :: p <= q < |keptAt| ==> keptAt[q] >= i
      invariant last == LastComplete(rows, i - 1)
      invariant forall j :: 0 <= j < i ==> filled[j] == CarriedForward(rows, width, j)
    {
      KeptCursor(rows, keptAt, p, i);
      if p < |keptAt| && keptAt[p] == i {
        last := Some(kept[p]);
        p := p + 1;
      }
      var row := match last case Some(r) => r case None => MissingRow(width);
      filled := filled + [row];
      i := i + 1;
    }
  }

  /** The carry-forward as process_sce does it: copy the Q45new block,
      overwrite it at the change waves, drop incomplete rows, then
      forward-fill the kept rows over the full index, across respondents. */
  method CarryForward(comp: seq<Row>, d2new: seq<Row>, changed: seq<bool>, width: nat)
    returns (filled: seq<Row>)
    requires |comp| == |d2new| == |changed|
    ensures |filled| == |comp|
    ensures forall i :: 0 <= i < |comp| ==>
              filled[i] == CarriedForward(Updated(comp, d2new, changed), width, i)
  {
    var block := new Row[|comp|](i requires 0 <= i < |comp| => comp[i]);
    assert block[..] == comp;
    OverwriteChanged(block, d2new, changed);
    var keptAt, kept := DropIncomplete(block[..]);
    filled := ForwardFill(block[..], keptAt, kept, width);
  }

  /** The fill is not grouped by respondent: a dropped row takes the previous
      row's composition, whoever answered that row. */
  lemma CarryForwardCrossesRespondents()
    ensures var a := [Some(1.0), Some(0.0), Some(2.0), Some(0.0), Some(0.0)];
            var b := [Some(1.0), None, None, None, None];
            CarriedForward(Updated([a, b], [MissingRow(5), MissingRow(5)], [false, false]), 5, 1) == a
  {
    var a := [Some(1.0), Some(0.0), Some(2.0), Some(0.0), Some(0.0)];
    var b := [Some(1.0), None, None, None, None];
    var rows := Updated([a, b], [MissingRow(5), MissingRow(5)], [false, false]);
    assert rows[1] == b && !Complete(b) by { assert b[1].None?; }
    assert rows[0] == a;
  }

  /** A respondent interviewed four times, composition C1 at the first wave,
      not asked again at the second, a reported change to C3 at the third and
      no change at the fourth ends with C1, C1, C3, C3. */
  lemma CarryForwardExample(c1: Row, c3: Row)
    requires |c1| == |c3| == 5 && Complete(c1) && Complete(c3)
    ensures var rows := Updated([c1, MissingRow(5), MissingRow(5), MissingRow(5)],
                                [MissingRow(5), MissingRow(5), c3, MissingRow(5)],
                                [false, false, true, false]);
      && CarriedForward(rows, 5, 0) == c1 && CarriedForward(rows, 5, 1) == c1
      && CarriedForward(rows, 5, 2) == c3 && CarriedForward(rows, 5, 3) == c3
  {
    var missing := MissingRow(5);
    assert !Complete(missing) by { assert missing[0].None?; }
    var rows := Updated([c1, missing, missing, missing], [missing, missing, c3, missing],
                        [false, false, true, false]);
    assert rows[0] == c1 && rows[1] == missing && rows[2] == c3 && rows[3] == missing;
  }
}
