/** Shared vocabulary of the survey importer: nullable cells, columns, the
    (respondent, wave) panel index, and the failures that stop a run. */
module Panel {

  datatype Option<+T> = None | Some(value: T)

  datatype Result<+T, +E> = Ok(value: T) | Err(error: E)

  /** The fatal conditions of the engine. Recoverable conditions (an ambiguous
      sign, a failed cast) are reported as values, never as errors. */
  datatype Error =
    | MultipleNonMissing                // tile_const: ValueError
    | AssertionFailed(column: string)   // a jobless-duration domain assertion
    | MissingColumn(name: string)       // KeyError on a column that is absent
    | DuplicateRankKey                  // merge(validate="m:1"): MergeError
    | NonBooleanCondition               // a DataFrame key read as a mask holds a number: ValueError
    | NonBooleanFrameKey                // a non-boolean DataFrame used as an assignment key: TypeError

  /** One pandas float64 cell: `None` is NaN. */
  type Cell = Option<real>

  /** A cell with NaN read as 0, as fillna(0.0) and a NaN-skipping sum do. */
  function FillZero(c: Cell): real
  {
    match c
    case None => 0.0
    case Some(x) => x
  }

  /** One column of a table, aligned with the table's index. */
  type Column = seq<Cell>

  /** The values of several columns at one row, in column order. */
  type Row = seq<Cell>

  /** A column after a cast: still float (may hold NaN), or integer (no NaN). */
  datatype Series = Floats(cells: Column) | Ints(ints: seq<int>)
  {
    function Length(): nat
    {
      match this
      case Floats(c) => |c|
      case Ints(n) => |n|
    }

    /** The values as cells, whatever the dtype: what `.map`, `.isin` and
        `.notna` look at. */
    function Cells(): (r: Column)
      ensures |r| == Length()
      ensures Ints? ==> forall i :: 0 <= i < |r| ==> r[i] == Some(ints[i] as real)
    {
      match this
      case Floats(c) => c
      case Ints(n) => seq(|n|, i requires 0 <= i < |n| => Some(n[i] as real))
    }
  }

  /** The panel index: respondent identifier and wave identifier. */
  datatype Key = Key(id: int, wave: int)

  predicate KeyLess(a: Key, b: Key)
  {
    a.id < b.id || (a.id == b.id && a.wave < b.wave)
  }

  /** The index after `sort_index` on a unique (id, wave) MultiIndex. */
  predicate StrictlySorted(keys: seq<Key>)
  {
    forall i, j :: 0 <= i < j < |keys| ==> KeyLess(keys[i], keys[j])
  }

  /** pandas `col == code` as a row mask: a missing cell never equals a code. */
  function CodeMask(c: Column, code: real): (mask: seq<bool>)
    ensures |mask| == |c|
  {
    seq(|c|, i requires 0 <= i < |c| => c[i] == Some(code))
  }
}
