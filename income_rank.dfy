/** The income rank merger of src/SCE/importer.py (merge_inc_rank): assign
    each interview to a fiscal year, rescale the rank table to [0, 100] when
    it is on [0, 1], and left-join many-to-one on (year, income bracket). */
module IncomeRank {
  import opened Panel

  datatype Date = Date(year: int, month: int, day: int)

  predicate ValidDate(d: Date)
  {
    1 <= d.month <= 12 && 1 <= d.day <= 31
  }

  /** The interview date moved back to a month beginning: the first of the
      date's month, or the first of the previous month when the date already
      is a first. */
  function MonthBeginBefore(d: Date): (b: Date)
    requires ValidDate(d)
    ensures b.day == 1 && 1 <= b.month <= 12
    ensures b.year < d.year || (b.year == d.year && (b.month < d.month || (b.month == d.month && b.day < d.day)))
  {
    if d.day == 1 then
      (if d.month == 1 then Date(d.year - 1, 12, 1) else Date(d.year, d.month - 1, 1))
    else Date(d.year, d.month, 1)
  }

  /** The share of the trailing twelve months that falls in the current
      year: the month of the shifted date less one, over eleven. */
  function CurrentYearShare(d: Date): real
    requires ValidDate(d)
  {
    (MonthBeginBefore(d).month - 1) as real / 11.0
  }

  /** The fiscal year: the interview year, less one when under half of the
      trailing months fall in it; the year used is the interview date's own
      year, not the shifted date's. */
  function FiscalYear(d: Date): (y: int)
    requires ValidDate(d)
    ensures y == d.year - 1 || y == d.year
  {
    d.year - (if CurrentYearShare(d) < 0.5 then 1 else 0)
  }

  /** The fiscal year is the previous year exactly when the shifted month is
      at most June, and the interview year otherwise. */
  lemma FiscalYearRule(d: Date)
    requires ValidDate(d)
    ensures FiscalYear(d) == d.year - 1 <==> MonthBeginBefore(d).month <= 6
    ensures FiscalYear(d) == d.year <==> MonthBeginBefore(d).month >= 7
  {
    var m := MonthBeginBefore(d).month;
    assert CurrentYearShare(d) < 0.5 <==> 2 * (m - 1) < 11;
  }

  /** In calendar terms: after the first of a month, January to June go to
      the previous year; on the first, February to July do, while 1 January
      shifts to December and keeps the interview year. */
  lemma FiscalYearByCalendar(d: Date)
    requires ValidDate(d)
    ensures d.day > 1 ==> (FiscalYear(d) == d.year - 1 <==> d.month <= 6)
    ensures d.day == 1 ==> (FiscalYear(d) == d.year - 1 <==> 2 <= d.month <= 7)
    ensures d.day == 1 && d.month == 1 ==> FiscalYear(d) == d.year
  {
    FiscalYearRule(d);
  }

  /** The boundary dates: 15 March 2015 goes to 2014; 1 and 2 July 2015 to
      2014 and 2015; 1 and 2 January 2015 to 2015 and 2014. */
  lemma FiscalYearExamples()
    ensures FiscalYear(Date(2015, 3, 15)) == 2014
    ensures FiscalYear(Date(2015, 7, 1)) == 2014 && FiscalYear(Date(2015, 7, 2)) == 2015
    ensures FiscalYear(Date(2015, 1, 1)) == 2015 && FiscalYear(Date(2015, 1, 2)) == 2014
  {
    FiscalYearByCalendar(Date(2015, 3, 15));
    FiscalYearByCalendar(Date(2015, 7, 1));
    FiscalYearByCalendar(Date(2015, 7, 2));
    FiscalYearByCalendar(Date(2015, 1, 1));
    FiscalYearByCalendar(Date(2015, 1, 2));
  }

  // ---------------------------------------------------------------------
  // The rank table
  // ---------------------------------------------------------------------

  /** One row of the external table: year, income bracket, rank. */
  datatype RankRecord = RankRecord(year: int, ibin: int, rank: Cell)

  /** The largest rank: NaN values are skipped; NaN when there is no value
      at all. */
  function MaxRank(ranks: seq<RankRecord>): (r: Cell)
    ensures r.Some? ==> exists i :: 0 <= i < |ranks| && ranks[i].rank == r
  {
    if |ranks| == 0 then None
    else
      var rest := MaxRank(ranks[1..]);
      match ranks[0].rank
      case None => rest
      case Some(x) => if rest.Some? && rest.value > x then rest else Some(x)
  }

  lemma {:induction false} MaxRankIsMaximum(ranks: seq<RankRecord>)
    ensures MaxRank(ranks).None? <==> forall i :: 0 <= i < |ranks| ==> ranks[i].rank.None?
    ensures MaxRank(ranks).Some? ==>
              (forall i :: 0 <= i < |ranks| && ranks[i].rank.Some? ==> ranks[i].rank.value <= MaxRank(ranks).value)
              && exists i :: 0 <= i < |ranks| && ranks[i].rank == MaxRank(ranks)
  {
    if |ranks| > 0 {
      MaxRankIsMaximum(ranks[1..]);
      assert forall i :: 1 <= i < |ranks| ==> ranks[i] == ranks[1..][i - 1];
      if MaxRank(ranks).Some? && MaxRank(ranks) != ranks[0].rank {
        var i :| 0 <= i < |ranks[1..]| && ranks[1..][i].rank == MaxRank(ranks[1..]);
        assert ranks[i + 1].rank == MaxRank(ranks);
      }
    }
  }

  function Times100(c: Cell): Cell
  {
    match c
    case None => None
    case Some(x) => Some(x * 100.0)
  }

  /** Ranks given as shares are turned into percentiles: when the largest
      rank is at most 1, every rank is multiplied by 100; otherwise the
      ranks stay as they are. */
  function Rescale(ranks: seq<RankRecord>): (r: seq<RankRecord>)
    ensures |r| == |ranks|
    ensures forall i :: 0 <= i < |ranks| ==> r[i].year == ranks[i].year && r[i].ibin == ranks[i].ibin
    ensures r == ranks || forall i :: 0 <= i < |ranks| ==> r[i].rank == Times100(ranks[i].rank)
  {
    var mx := MaxRank(ranks);
    if mx.Some? && mx.value <= 1.0 then
      seq(|ranks|, i requires 0 <= i < |ranks| => ranks[i].(rank := Times100(ranks[i].rank)))
    else ranks
  }

  /** Ranks are multiplied by 100 exactly when some rank is present and every
      present rank is at most 1; the keys never change. */
  lemma RescaleRule(ranks: seq<RankRecord>)
    ensures |Rescale(ranks)| == |ranks|
    ensures forall i :: 0 <= i < |ranks| ==>
              Rescale(ranks)[i].year == ranks[i].year && Rescale(ranks)[i].ibin == ranks[i].ibin
    ensures var onUnit := (exists i :: 0 <= i < |ranks| && ranks[i].rank.Some?)
                          && (forall i :: 0 <= i < |ranks| && ranks[i].rank.Some? ==> ranks[i].rank.value <= 1.0);
            (onUnit ==> forall i :: 0 <= i < |ranks| ==> Rescale(ranks)[i].rank == Times100(ranks[i].rank))
            && (!onUnit ==> Rescale(ranks) == ranks)
  {
    MaxRankIsMaximum(ranks);
  }

  // ---------------------------------------------------------------------
  // The left join
  // ---------------------------------------------------------------------

  /** Whether a rank record is the one for a panel row's year and bracket;
      a missing bracket matches nothing. */
  predicate Matches(rec: RankRecord, year: int, bin: Cell)
  {
    rec.year == year && bin == Some(rec.ibin as real)
  }

  /** `validate="m:1"` fails on a repeated (year, bracket) key in the rank
      table, whether or not any panel row uses it. */
  predicate HasDuplicateKey(ranks: seq<RankRecord>)
  {
    exists i, j :: 0 <= i < j < |ranks| && ranks[i].year == ranks[j].year && ranks[i].ibin == ranks[j].ibin
  }

  /** The rank of the first record for (year, bracket), missing when none. */
  function Lookup(ranks: seq<RankRecord>, year: int, bin: Cell): Cell
  {
    if |ranks| == 0 then None
    else if Matches(ranks[0], year, bin) then ranks[0].rank
    else Lookup(ranks[1..], year, bin)
  }

  lemma {:induction false} LookupFindsTheMatch(ranks: seq<RankRecord>, year: int, bin: Cell)
    requires !HasDuplicateKey(ranks)
    ensures forall k :: 0 <= k < |ranks| && Matches(ranks[k], year, bin) ==> Lookup(ranks, year, bin) == ranks[k].rank
    ensures (forall k :: 0 <= k < |ranks| ==> !Matches(ranks[k], year, bin)) ==> Lookup(ranks, year, bin) == None
  {
    if |ranks| > 0 {
      var rest := ranks[1..];
      assert forall k :: 1 <= k < |ranks| ==> ranks[k] == rest[k - 1];
      assert !HasDuplicateKey(rest);
      LookupFindsTheMatch(rest, year, bin);
    }
  }

  /** merge_inc_rank: one rank per panel row, in row order. */
  function MergeIncRank(dates: seq<Date>, bins: Column, ranks: seq<RankRecord>): (r: Result<Column, Error>)
    requires |dates| == |bins|
    requires forall i :: 0 <= i < |dates| ==> ValidDate(dates[i])
    ensures r.Err? ==> r.error == DuplicateRankKey
    ensures r.Ok? ==> |r.value| == |dates|
  {
    if HasDuplicateKey(ranks) then
      Err(DuplicateRankKey)
    else
      var scaled := Rescale(ranks);
      Ok(seq(|dates|, i requires 0 <= i < |dates| => Lookup(scaled, FiscalYear(dates[i]), bins[i])))
  }

  /** The merge raises exactly on a duplicate key; otherwise every panel row
      gets exactly one rank: the rescaled rank of the record for its fiscal
      year and bracket, or missing when there is no such record. */
  lemma MergeIncRankJoin(dates: seq<Date>, bins: Column, ranks: seq<RankRecord>)
    requires |dates| == |bins|
    requires forall i :: 0 <= i < |dates| ==> ValidDate(dates[i])
    ensures MergeIncRank(dates, bins, ranks).Err? <==> HasDuplicateKey(ranks)
    ensures MergeIncRank(dates, bins, ranks).Ok? ==>
              var r := MergeIncRank(dates, bins, ranks).value;
              |r| == |dates|
              && (forall i, k :: 0 <= i < |dates| && 0 <= k < |ranks| && Matches(ranks[k], FiscalYear(dates[i]), bins[i])
                                 ==> r[i] == Rescale(ranks)[k].rank)
              && (forall i :: 0 <= i < |dates| && (forall k :: 0 <= k < |ranks| ==> !Matches(ranks[k], FiscalYear(dates[i]), bins[i]))
                              ==> r[i] == None)
  {
    if !HasDuplicateKey(ranks) {
      var scaled := Rescale(ranks);
      RescaleRule(ranks);
      assert !HasDuplicateKey(scaled);
      forall i | 0 <= i < |dates| {
        LookupFindsTheMatch(scaled, FiscalYear(dates[i]), bins[i]);
      }
    }
  }
}
