/** The value-reconciliation primitives of src/SCE/pandas_helpers.py:
    coalescing columns (merge_if_na), broadcasting a respondent constant
    (tile_const) and the best-effort cast (try_cast). */
module PandasHelpers {
  import opened Panel

  // ---------------------------------------------------------------------
  // merge_if_na
  // ---------------------------------------------------------------------

  /** Every column has exactly `n` rows (the columns share one index). */
  predicate Aligned<T>(cols: seq<seq<Option<T>>>, n: nat)
  {
    forall k :: 0 <= k < |cols| ==> |cols[k]| == n
  }

  /** The first non-missing value at row `i` among `cols`, in argument order;
      missing when every column is missing there. */
  function FirstPresent<T>(cols: seq<seq<Option<T>>>, i: nat): Option<T>
    requires forall k :: 0 <= k < |cols| ==> i < |cols[k]|
    decreases |cols|
  {
    if |cols| == 0 then None
    else if cols[0][i].Some? then cols[0][i]
    else FirstPresent(cols[1..], i)
  }

  /** Adding one more column only fills the rows that are still missing. */
  lemma {:induction false} FirstPresentSnoc<T>(cols: seq<seq<Option<T>>>, i: nat, k: nat)
    requires k < |cols|
    requires forall c :: 0 <= c < |cols| ==> i < |cols[c]|
    ensures FirstPresent(cols[..k + 1], i)
            == if FirstPresent(cols[..k], i).Some? then FirstPresent(cols[..k], i) else cols[k][i]
  {
    if k == 0 {
      assert cols[..1][1..] == [];
    } else {
      assert cols[..k + 1][0] == cols[0] && cols[..k][0] == cols[0];
      assert cols[..k + 1][1..] == cols[1..][..k];
      assert cols[..k][1..] == cols[1..][..k - 1];
      FirstPresentSnoc(cols[1..], i, k - 1);
    }
  }

  /** merge_if_na: start from a copy of the first column, then for each later
      column assign its values where the merged column is still missing. */
  method MergeIfNa<T>(cols: seq<seq<Option<T>>>) returns (merged: seq<Option<T>>)
    requires |cols| > 0 && Aligned(cols, |cols[0]|)
    ensures |merged| == |cols[0]|
    ensures forall i :: 0 <= i < |merged| ==> merged[i] == FirstPresent(cols, i)
  {
    var n := |cols[0]|;
    var m := new Option<T>[n](i requires 0 <= i < n => cols[0][i]);
    assert forall i :: 0 <= i < n ==> m[i] == FirstPresent(cols[..1], i) by {
      forall i | 0 <= i < n ensures m[i] == FirstPresent(cols[..1], i) {
        assert cols[..1][1..] == [];
      }
    }
    var k := 1;
    while k < |cols|
      invariant 1 <= k <= |cols|
      invariant forall i :: 0 <= i < n ==> m[i] == FirstPresent(cols[..k], i)
    {
      var i := 0;
      while i < n
        invariant 0 <= i <= n
        invariant forall j :: 0 <= j < i ==> m[j] == FirstPresent(cols[..k + 1], j)
        invariant forall j :: i <= j < n ==> m[j] == FirstPresent(cols[..k], j)
      {
        FirstPresentSnoc(cols, i, k);
        if m[i].None? && cols[k][i].Some? {
          m[i] := cols[k][i];
        }
        i := i + 1;
      }
      k := k + 1;
    }
    assert cols[..|cols|] == cols;
    merged := m[..];
  }

  /** The merged value is missing exactly when all inputs are missing; when
      present it comes from the first input that is present at that row. */
  lemma {:induction false} FirstPresentIsFirst<T>(cols: seq<seq<Option<T>>>, i: nat)
    requires forall k :: 0 <= k < |cols| ==> i < |cols[k]|
    ensures FirstPresent(cols, i).None? <==> forall k :: 0 <= k < |cols| ==> cols[k][i].None?
    ensures FirstPresent(cols, i).Some? ==>
              exists k :: 0 <= k < |cols| && cols[k][i] == FirstPresent(cols, i)
                          && forall l :: 0 <= l < k ==> cols[l][i].None?
    decreases |cols|
  {
    if |cols| > 0 && cols[0][i].None? {
      FirstPresentIsFirst(cols[1..], i);
      if FirstPresent(cols, i).Some? {
        var k :| 0 <= k < |cols[1..]| && cols[1..][k][i] == FirstPresent(cols[1..], i)
                 && forall l :: 0 <= l < k ==> cols[1..][l][i].None?;
        assert cols[k + 1][i] == FirstPresent(cols, i);
        assert forall l :: 0 <= l < k + 1 ==> cols[l][i].None? by {
          forall l | 0 <= l < k + 1 ensures cols[l][i].None? {
            if l > 0 { assert cols[l] == cols[1..][l - 1]; }
          }
        }
      } else {
        forall k | 0 <= k < |cols| ensures cols[k][i].None? {
          if k > 0 { assert cols[k] == cols[1..][k - 1]; }
        }
      }
    }
  }

  /** Rows where the first input is present keep it, and a single input is
      returned unchanged. */
  lemma MergeKeepsFirst<T>(cols: seq<seq<Option<T>>>, i: nat)
    requires |cols| > 0 && forall k :: 0 <= k < |cols| ==> i < |cols[k]|
    ensures cols[0][i].Some? ==> FirstPresent(cols, i) == cols[0][i]
    ensures |cols| == 1 ==> FirstPresent(cols, i) == cols[0][i]
  {
  }

  /** merge_if_na of two columns: the first where present, else the second. */
  lemma FirstPresentOfTwo<T>(a: seq<Option<T>>, b: seq<Option<T>>, i: nat)
    requires i < |a| && i < |b|
    ensures FirstPresent([a, b], i) == if a[i].Some? then a[i] else b[i]
  {
    assert FirstPresent([b], i) == b[i] by {
      assert [b][0] == b && [b][1..] == [];
    }
    assert [a, b][0] == a && [a, b][1..] == [b];
  }

  // ---------------------------------------------------------------------
  // tile_const
  // ---------------------------------------------------------------------

  /** `values.dropna()`: the present entries with their index labels, in
      index order. */
  function DropMissing<T>(keys: seq<Key>, values: seq<Option<T>>): seq<(Key, T)>
    requires |keys| == |values|
  {
    if |keys| == 0 then []
    else (if values[0].Some? then [(keys[0], values[0].value)] else [])
         + DropMissing(keys[1..], values[1..])
  }

  /** `groupby(by).size()` at one respondent. */
  function GroupSize<T>(entries: seq<(Key, T)>, id: int): nat
  {
    if |entries| == 0 then 0
    else (if entries[0].0.id == id then 1 else 0) + GroupSize(entries[1..], id)
  }

  /** `groupby(by).first()` at one respondent, missing for a respondent that
      has no entry (which is what the reindex fills in). */
  function GroupFirst<T>(entries: seq<(Key, T)>, id: int): Option<T>
  {
    if |entries| == 0 then None
    else if entries[0].0.id == id then Some(entries[0].1)
    else GroupFirst(entries[1..], id)
  }

  /** tile_const: drop missing entries, raise when a respondent has a group
      size other than one, then give every row its respondent's value. */
  function TileConst<T>(keys: seq<Key>, values: seq<Option<T>>): (r: Result<seq<Option<T>>, Error>)
    requires |keys| == |values|
    ensures r.Ok? ==> |r.value| == |keys|
    ensures r.Ok? ==> forall i, j :: 0 <= i < |keys| && 0 <= j < |keys| && keys[i].id == keys[j].id
                                     ==> r.value[i] == r.value[j]
    ensures r.Err? ==> r.error == MultipleNonMissing
  {
    var entries := DropMissing(keys, values);
    if exists p :: 0 <= p < |entries| && GroupSize(entries, entries[p].0.id) != 1 then
      Err(MultipleNonMissing)
    else
      Ok(seq(|keys|, i requires 0 <= i < |keys| => GroupFirst(entries, keys[i].id)))
  }

  // Reference definitions on the original rows, with no dropping step.

  /** Some respondent has two or more rows with a non-missing entry, whether
      or not the entries are equal. */
  ghost predicate HasRepeatedEntry<T>(keys: seq<Key>, values: seq<Option<T>>)
    requires |keys| == |values|
  {
    exists i, j :: 0 <= i < j < |keys| && keys[i].id == keys[j].id
                   && values[i].Some? && values[j].Some?
  }

  /** Number of rows of respondent `id` with a non-missing entry. */
  function CountPresent<T>(keys: seq<Key>, values: seq<Option<T>>, id: int): nat
    requires |keys| == |values|
  {
    if |keys| == 0 then 0
    else (if keys[0].id == id && values[0].Some? then 1 else 0)
         + CountPresent(keys[1..], values[1..], id)
  }

  /** The first non-missing entry of respondent `id`, in row order. */
  function GroupValue<T>(keys: seq<Key>, values: seq<Option<T>>, id: int): Option<T>
    requires |keys| == |values|
  {
    if |keys| == 0 then None
    else if keys[0].id == id && values[0].Some? then values[0]
    else GroupValue(keys[1..], values[1..], id)
  }

  lemma {:induction false} GroupSizeOfDropped<T>(keys: seq<Key>, values: seq<Option<T>>, id: int)
    requires |keys| == |values|
    ensures GroupSize(DropMissing(keys, values), id) == CountPresent(keys, values, id)
    decreases |keys|
  {
    if |keys| > 0 {
      GroupSizeOfDropped(keys[1..], values[1..], id);
      var rest := DropMissing(keys[1..], values[1..]);
      if values[0].Some? {
        var e := [(keys[0], values[0].value)] + rest;
        assert e[0] == (keys[0], values[0].value) && e[1..] == rest;
      } else {
        assert DropMissing(keys, values) == rest;
      }
    }
  }

  lemma {:induction false} GroupFirstOfDropped<T>(keys: seq<Key>, values: seq<Option<T>>, id: int)
    requires |keys| == |values|
    ensures GroupFirst(DropMissing(keys, values), id) == GroupValue(keys, values, id)
    decreases |keys|
  {
    if |keys| > 0 {
      GroupFirstOfDropped(keys[1..], values[1..], id);
      var rest := DropMissing(keys[1..], values[1..]);
      if values[0].Some? {
        var e := [(keys[0], values[0].value)] + rest;
        assert e[0] == (keys[0], values[0].value) && e[1..] == rest;
      } else {
        assert DropMissing(keys, values) == rest;
      }
    }
  }

  lemma {:induction false} GroupSizeOfMember<T>(entries: seq<(Key, T)>, id: int)
    ensures GroupSize(entries, id) >= 1 <==> exists p :: 0 <= p < |entries| && entries[p].0.id == id
    decreases |entries|
  {
    if |entries| > 0 {
      GroupSizeOfMember(entries[1..], id);
      if exists p :: 0 <= p < |entries[1..]| && entries[1..][p].0.id == id {
        var p :| 0 <= p < |entries[1..]| && entries[1..][p].0.id == id;
        assert entries[p + 1].0.id == id;
      }
      if exists p :: 0 <= p < |entries| && entries[p].0.id == id {
        var p :| 0 <= p < |entries| && entries[p].0.id == id;
        if p > 0 { assert entries[1..][p - 1].0.id == id; }
      }
    }
  }

  lemma {:induction false} CountPresentAtLeastOne<T>(keys: seq<Key>, values: seq<Option<T>>, id: int)
    requires |keys| == |values|
    ensures CountPresent(keys, values, id) >= 1
            <==> exists j :: 0 <= j < |keys| && keys[j].id == id && values[j].Some?
    decreases |keys|
  {
    if |keys| > 0 {
      CountPresentAtLeastOne(keys[1..], values[1..], id);
      if exists j :: 0 <= j < |keys| - 1 && keys[1..][j].id == id && values[1..][j].Some? {
        var j :| 0 <= j < |keys| - 1 && keys[1..][j].id == id && values[1..][j].Some?;
        assert keys[j + 1].id == id && values[j + 1].Some?;
      }
      if exists j :: 0 <= j < |keys| && keys[j].id == id && values[j].Some? {
        var j :| 0 <= j < |keys| && keys[j].id == id && values[j].Some?;
        if j > 0 { assert keys[1..][j - 1].id == id && values[1..][j - 1].Some?; }
      }
    }
  }

  lemma {:induction false} CountPresentAtLeastTwo<T>(keys: seq<Key>, values: seq<Option<T>>, id: int)
    requires |keys| == |values|
    ensures CountPresent(keys, values, id) >= 2
            <==> exists i, j :: 0 <= i < j < |keys| && keys[i].id == id && keys[j].id == id
                                && values[i].Some? && values[j].Some?
    decreases |keys|
  {
    if |keys| > 0 {
      var ks, vs := keys[1..], values[1..];
      CountPresentAtLeastTwo(ks, vs, id);
      CountPresentAtLeastOne(ks, vs, id);
      if CountPresent(keys, values, id) >= 2 {
        if CountPresent(ks, vs, id) >= 2 {
          var i, j :| 0 <= i < j < |ks| && ks[i].id == id && ks[j].id == id && vs[i].Some? && vs[j].Some?;
          assert keys[i + 1].id == id && keys[j + 1].id == id && values[i + 1].Some? && values[j + 1].Some?;
        } else {
          var j :| 0 <= j < |ks| && ks[j].id == id && vs[j].Some?;
          assert keys[j + 1].id == id && values[j + 1].Some?;
        }
      }
      if exists i, j :: 0 <= i < j < |keys| && keys[i].id == id && keys[j].id == id
                        && values[i].Some? && values[j].Some? {
        var i, j :| 0 <= i < j < |keys| && keys[i].id == id && keys[j].id == id
                    && values[i].Some? && values[j].Some?;
        assert ks[j - 1].id == id && vs[j - 1].Some?;
        if i > 0 { assert ks[i - 1].id == id && vs[i - 1].Some?; }
      }
    }
  }

  /** tile_const raises exactly when some respondent has two or more
      non-missing entries; equal entries raise too. */
  lemma TileConstRaises<T>(keys: seq<Key>, values: seq<Option<T>>)
    requires |keys| == |values|
    ensures TileConst(keys, values).Err? <==> HasRepeatedEntry(keys, values)
  {
    var e := DropMissing(keys, values);
    if exists p :: 0 <= p < |e| && GroupSize(e, e[p].0.id) != 1 {
      var p :| 0 <= p < |e| && GroupSize(e, e[p].0.id) != 1;
      var id := e[p].0.id;
      GroupSizeOfMember(e, id);
      GroupSizeOfDropped(keys, values, id);
      CountPresentAtLeastTwo(keys, values, id);
    }
    if HasRepeatedEntry(keys, values) {
      var i, j :| 0 <= i < j < |keys| && keys[i].id == keys[j].id && values[i].Some? && values[j].Some?;
      var id := keys[i].id;
      CountPresentAtLeastTwo(keys, values, id);
      GroupSizeOfDropped(keys, values, id);
      GroupSizeOfMember(e, id);
      var p :| 0 <= p < |e| && e[p].0.id == id;
      assert GroupSize(e, e[p].0.id) >= 2;
    }
  }

  lemma {:induction false} GroupValueOfGroup<T>(keys: seq<Key>, values: seq<Option<T>>, id: int)
    requires |keys| == |values|
    ensures GroupValue(keys, values, id).None?
            <==> forall j :: 0 <= j < |keys| && keys[j].id == id ==> values[j].None?
    ensures !HasRepeatedEntry(keys, values) ==>
              forall j :: 0 <= j < |keys| && keys[j].id == id && values[j].Some?
                          ==> GroupValue(keys, values, id) == values[j]
    decreases |keys|
  {
    if |keys| > 0 {
      var ks, vs := keys[1..], values[1..];
      GroupValueOfGroup(ks, vs, id);
      forall j | 0 <= j < |keys| - 1 ensures ks[j] == keys[j + 1] && vs[j] == values[j + 1] { }
      RepeatedEntryOfTail(keys, values);
    }
  }

  /** A repeated entry among the later rows is a repeated entry of the whole. */
  lemma RepeatedEntryOfTail<T>(keys: seq<Key>, values: seq<Option<T>>)
    requires |keys| == |values| && |keys| > 0
    ensures HasRepeatedEntry(keys[1..], values[1..]) ==> HasRepeatedEntry(keys, values)
  {
    var ks, vs := keys[1..], values[1..];
    if HasRepeatedEntry(ks, vs) {
      var i, j :| 0 <= i < j < |ks| && ks[i].id == ks[j].id && vs[i].Some? && vs[j].Some?;
      assert keys[i + 1].id == keys[j + 1].id && values[i + 1].Some? && values[j + 1].Some?;
    }
  }

  /** Without a repeated entry, every row carries its respondent's single
      non-missing entry, or stays missing when the respondent has none; the
      row count and order are those of the input. */
  lemma TileConstBroadcast<T>(keys: seq<Key>, values: seq<Option<T>>)
    requires |keys| == |values| && TileConst(keys, values).Ok?
    ensures |TileConst(keys, values).value| == |keys|
    ensures forall i, j :: 0 <= i < |keys| && 0 <= j < |keys| && keys[j].id == keys[i].id && values[j].Some?
                           ==> TileConst(keys, values).value[i] == values[j]
    ensures forall i :: 0 <= i < |keys| ==>
              (TileConst(keys, values).value[i].None?
               <==> forall j :: 0 <= j < |keys| && keys[j].id == keys[i].id ==> values[j].None?)
  {
    TileConstRaises(keys, values);
    var r := TileConst(keys, values).value;
    forall i | 0 <= i < |keys|
      ensures forall j :: 0 <= j < |keys| && keys[j].id == keys[i].id && values[j].Some? ==> r[i] == values[j]
      ensures r[i].None? <==> forall j :: 0 <= j < |keys| && keys[j].id == keys[i].id ==> values[j].None?
    {
      GroupFirstOfDropped(keys, values, keys[i].id);
      GroupValueOfGroup(keys, values, keys[i].id);
    }
  }

  /** A respondent who answered twice with the same value still raises. */
  lemma TileConstRaisesOnEqualEntries()
    ensures TileConst([Key(7, 1), Key(7, 2)], [Some(3.0), Some(3.0)]).Err?
  {
    TileConstRaises([Key(7, 1), Key(7, 2)], [Some(3.0), Some(3.0)]);
    assert [Key(7, 1), Key(7, 2)][0].id == [Key(7, 1), Key(7, 2)][1].id;
  }

  // ---------------------------------------------------------------------
  // try_cast
  // ---------------------------------------------------------------------

  /** `astype(int)` on a finite float: truncation toward zero. */
  function Truncate(x: real): (n: int)
    ensures x >= 0.0 ==> n as real <= x < n as real + 1.0
    ensures x < 0.0 ==> n as real - 1.0 < x <= n as real
  {
    if x >= 0.0 then x.Floor else -((-x).Floor)
  }

  /** `isna().sum()`: the number of missing cells. */
  function CountMissing(c: Column): (n: nat)
    ensures n <= |c|
    ensures n == 0 <==> forall i :: 0 <= i < |c| ==> c[i].Some?
    ensures n == |c| <==> forall i :: 0 <= i < |c| ==> c[i].None?
  {
    if |c| == 0 then 0
    else (if c[0].None? then 1 else 0) + CountMissing(c[1..])
  }

  /** What try_cast returns and whether it logged a warning, with the number
      of missing values the warning reports. */
  datatype Cast = Cast(values: Series, naWarning: Option<nat>)

  /** try_cast on one column, cast to an integer dtype: a float column with a
      missing value cannot be cast, is returned unchanged and a warning is
      logged; otherwise every value is truncated. An integer column casts to
      itself. */
  function TryCast(s: Series): (r: Cast)
    ensures r.values.Length() == s.Length()
    ensures r.naWarning.Some? <==> s.Floats? && exists i :: 0 <= i < |s.cells| && s.cells[i].None?
    ensures r.naWarning.Some? ==> r.values == s && r.naWarning.value == CountMissing(s.cells) >= 1
    ensures r.naWarning.None? ==> r.values.Ints?
    ensures r.naWarning.None? ==>
              forall i :: 0 <= i < s.Length() ==> r.values.ints[i] == Truncate(s.Cells()[i].value)
  {
    match s
    case Ints(_) => Cast(s, None)
    case Floats(c) =>
      var missing := CountMissing(c);
      if missing == 0 then Cast(Ints(seq(|c|, i requires 0 <= i < |c| => Truncate(c[i].value))), None)
      else Cast(s, Some(missing))
  }

  /** A column of whole numbers survives the cast: viewed as cells again it
      is the input. */
  lemma TryCastWholeNumbers(c: Column)
    requires forall i :: 0 <= i < |c| ==> c[i].Some? && c[i].value == c[i].value.Floor as real
    ensures TryCast(Floats(c)).naWarning.None?
    ensures TryCast(Floats(c)).values.Cells() == c
  {
    var r := TryCast(Floats(c)).values;
    forall i | 0 <= i < |c| ensures r.Cells()[i] == c[i] {
      var x := c[i].value;
      if x < 0.0 { assert (-x).Floor == -(x.Floor); }
    }
  }

  /** try_cast on a DataFrame: each column is cast on its own; a column that
      fails keeps its values and logs its own warning, and the others are
      still cast. */
  function CastColumns(frame: seq<Series>): (r: seq<Cast>)
    ensures |r| == |frame|
    ensures forall k :: 0 <= k < |frame| ==> r[k].values.Length() == frame[k].Length()
    ensures forall k :: 0 <= k < |frame| ==> r[k] == TryCast(frame[k])
  {
    seq(|frame|, k requires 0 <= k < |frame| => TryCast(frame[k]))
  }

  /** The DataFrame path of try_cast as the source runs it: a loop over the
      columns assigning each cast column back in place. `warnings[k]` is the
      warning logged for column `k`, if any. */
  method TryCastFrame(frame: array<Series>) returns (warnings: seq<Option<nat>>)
    modifies frame
    ensures |warnings| == frame.Length
    ensures forall k :: 0 <= k < frame.Length ==>
              frame[k] == CastColumns(old(frame[..]))[k].values
              && warnings[k] == CastColumns(old(frame[..]))[k].naWarning
  {
    warnings := [];
    var k := 0;
    while k < frame.Length
      invariant 0 <= k <= frame.Length && |warnings| == k
      invariant forall j :: 0 <= j < k ==>
                  frame[j] == TryCast(old(frame[j])).values && warnings[j] == TryCast(old(frame[j])).naWarning
      invariant forall j :: k <= j < frame.Length ==> frame[j] == old(frame[j])
    {
      var cast := TryCast(frame[k]);
      frame[k] := cast.values;
      warnings := warnings + [cast.naWarning];
      k := k + 1;
    }
  }

  // ---------------------------------------------------------------------
  // tile_const with a dtype
  // ---------------------------------------------------------------------

  /** tile_const(values, by, dtype) on a Series: the tiled column, passed
      through try_cast when a dtype is given. Only the repeated-entry check
      raises; a cast failure is a warning. */
  function TileConstAs(keys: seq<Key>, values: Column, castToInt: bool): (r: Result<Cast, Error>)
    requires |keys| == |values|
    ensures r.Err? <==> HasRepeatedEntry(keys, values)
    ensures r.Ok? ==> r.value.values.Length() == |keys|
    ensures r.Ok? ==> TileConst(keys, values).Ok?
    ensures r.Ok? && !castToInt ==> r.value == Cast(Floats(TileConst(keys, values).value), None)
    ensures r.Ok? && castToInt ==> r.value == TryCast(Floats(TileConst(keys, values).value))
  {
    TileConstRaises(keys, values);
    match TileConst(keys, values)
    case Err(e) => Err(e)
    case Ok(tiled) => if castToInt then Ok(TryCast(Floats(tiled))) else Ok(Cast(Floats(tiled), None))
  }

  /** One DataFrame row as a single entry: `DataFrame.dropna()` keeps a row
      only when every column is present in it. */
  function FrameRow(cols: seq<Column>, i: nat): (r: Option<seq<real>>)
    requires forall c :: 0 <= c < |cols| ==> i < |cols[c]|
    ensures r.Some? <==> forall c :: 0 <= c < |cols| ==> cols[c][i].Some?
    ensures r.Some? ==> |r.value| == |cols| && forall c :: 0 <= c < |cols| ==> cols[c][i] == Some(r.value[c])
  {
    if forall c :: 0 <= c < |cols| ==> cols[c][i].Some? then
      Some(seq(|cols|, c requires 0 <= c < |cols| => cols[c][i].value))
    else None
  }

  function FrameRows(cols: seq<Column>, n: nat): (rows: seq<Option<seq<real>>>)
    requires Aligned(cols, n)
    ensures |rows| == n
    ensures forall i :: 0 <= i < n ==> rows[i] == FrameRow(cols, i)
  {
    seq(n, i requires 0 <= i < n => FrameRow(cols, i))
  }

  /** Column `c` of a tiled DataFrame: the broadcast row's entry, missing
      where no row was broadcast. */
  function TiledColumn(tiled: seq<Option<seq<real>>>, c: nat): Column
  {
    seq(|tiled|, i requires 0 <= i < |tiled| =>
      if tiled[i].Some? && c < |tiled[i].value| then Some(tiled[i].value[c]) else None)
  }

  /** tile_const on a DataFrame with a dtype: rows that are incomplete are
      dropped, each respondent may keep at most one complete row, and that
      row is broadcast; the DataFrame path of try_cast then casts column by
      column. */
  function TileConstFrame(keys: seq<Key>, cols: seq<Column>): (r: Result<seq<Cast>, Error>)
    requires Aligned(cols, |keys|)
    ensures r.Err? <==> HasRepeatedEntry(keys, FrameRows(cols, |keys|))
    ensures r.Err? ==> r.error == MultipleNonMissing
    ensures r.Ok? ==> |r.value| == |cols|
    ensures r.Ok? ==> forall c :: 0 <= c < |cols| ==> r.value[c].values.Length() == |keys|
    ensures r.Ok? ==> (TileConst(keys, FrameRows(cols, |keys|)).Ok?
                       && r.value == CastColumns(seq(|cols|, c requires 0 <= c < |cols| =>
                                       Floats(TiledColumn(TileConst(keys, FrameRows(cols, |keys|)).value, c)))))
  {
    var rows := FrameRows(cols, |keys|);
    TileConstRaises(keys, rows);
    match TileConst(keys, rows)
    case Err(e) => Err(e)
    case Ok(tiled) =>
      Ok(CastColumns(seq(|cols|, c requires 0 <= c < |cols| => Floats(TiledColumn(tiled, c)))))
  }

  /** Row `i` of one column of a tiled DataFrame holds the entry `c` of any
      complete row of the same respondent (truncated when the column was
      cast to int), and is missing, leaving the column float with a warning,
      when the respondent has no complete row. */
  ghost predicate BroadcastAt(keys: seq<Key>, cols: seq<Column>, cast: Cast, c: nat, i: nat)
    requires Aligned(cols, |keys|) && c < |cols| && i < |keys| && cast.values.Length() == |keys|
  {
    (forall j :: 0 <= j < |keys| && keys[j].id == keys[i].id && FrameRow(cols, j).Some? ==>
       (cast.values.Floats? ==> cast.values.cells[i] == cols[c][j])
       && (cast.values.Ints? ==> cast.values.ints[i] == Truncate(cols[c][j].value)))
    && ((forall j :: 0 <= j < |keys| && keys[j].id == keys[i].id ==> FrameRow(cols, j).None?) ==>
       cast.values.Floats? && cast.values.cells[i].None? && cast.naWarning.Some?)
  }

  /** What the race block's tile holds: every row of a respondent carries
      that respondent's complete row, column by column, and a respondent
      with no complete row is missing in every column. */
  lemma TileConstFrameBroadcast(keys: seq<Key>, cols: seq<Column>)
    requires Aligned(cols, |keys|) && TileConstFrame(keys, cols).Ok?
    ensures forall c, i :: 0 <= c < |cols| && 0 <= i < |keys| ==>
              BroadcastAt(keys, cols, TileConstFrame(keys, cols).value[c], c, i)
  {
    forall c, i | 0 <= c < |cols| && 0 <= i < |keys| {
      TiledCastAt(keys, cols, c, i);
    }
  }

  /** TileConstFrameBroadcast for one column and one row. */
  lemma TiledCastAt(keys: seq<Key>, cols: seq<Column>, c: nat, i: nat)
    requires Aligned(cols, |keys|) && TileConstFrame(keys, cols).Ok?
    requires c < |cols| && i < |keys|
    ensures BroadcastAt(keys, cols, TileConstFrame(keys, cols).value[c], c, i)
  {
    var tiled := TileConst(keys, FrameRows(cols, |keys|)).value;
    var col := TiledColumn(tiled, c);
    TiledColumnAt(keys, cols, c, i);
    assert TileConstFrame(keys, cols).value[c] == TryCast(Floats(col));
    CastAt(col, i);
  }

  /** Row `i` of tiled column `c`: the entry of any complete row of the same
      respondent, or missing when the respondent has none. */
  lemma TiledColumnAt(keys: seq<Key>, cols: seq<Column>, c: nat, i: nat)
    requires Aligned(cols, |keys|) && TileConst(keys, FrameRows(cols, |keys|)).Ok?
    requires c < |cols| && i < |keys|
    ensures var col := TiledColumn(TileConst(keys, FrameRows(cols, |keys|)).value, c);
            |col| == |keys|
            && (forall j :: 0 <= j < |keys| && keys[j].id == keys[i].id && FrameRow(cols, j).Some? ==> col[i] == cols[c][j])
            && ((forall j :: 0 <= j < |keys| && keys[j].id == keys[i].id ==> FrameRow(cols, j).None?) ==> col[i].None?)
  {
    var rows := FrameRows(cols, |keys|);
    TileConstBroadcast(keys, rows);
  }

  /** try_cast at one row: a float column keeps the cell, an int column holds
      its truncation, and a missing cell keeps the column float with a
      warning. */
  lemma CastAt(col: Column, i: nat)
    requires i < |col|
    ensures var r := TryCast(Floats(col));
            (r.values.Floats? ==> r.values.cells[i] == col[i])
            && (r.values.Ints? ==> col[i].Some? && r.values.ints[i] == Truncate(col[i].value))
            && (col[i].None? ==> r.values.Floats? && r.naWarning.Some?)
  {
  }
}
