/** `procesar_base_datos`: keep the monthly rows, then derive AÑO and MES from
    the parsed date. */
module Normalize {
  import opened Wrappers
  import opened Records

  /** The `Periodo` value of the rows that are kept. */
  const MONTHLY: string := "MES"

  /** The rows whose `Periodo` is "MES", in their input order. */
  function KeepMonthly(raw: seq<RawRecord>): seq<RawRecord>
    decreases |raw|
  {
    if raw == [] then []
    else
      var n := |raw| - 1;
      var kept := KeepMonthly(raw[..n]);
      if raw[n].period == MONTHLY then kept + [raw[n]] else kept
  }

  /** The input positions of the monthly rows, in increasing order. */
  function MonthlyPositions(raw: seq<RawRecord>): seq<nat>
    decreases |raw|
  {
    if raw == [] then []
    else
      var n := |raw| - 1;
      var kept := MonthlyPositions(raw[..n]);
      if raw[n].period == MONTHLY then kept + [n] else kept
  }

  /** `kept` is the subsequence of `raw` at the increasing positions `idx`,
      and `idx` holds exactly the positions of the monthly rows. */
  ghost predicate SelectsMonthly(raw: seq<RawRecord>, idx: seq<nat>, kept: seq<RawRecord>) {
    && |idx| == |kept|
    && (forall k :: 0 <= k < |idx| ==> idx[k] < |raw| && kept[k] == raw[idx[k]])
    && (forall k, l :: 0 <= k < l < |idx| ==> idx[k] < idx[l])
    && (forall i :: 0 <= i < |raw| ==> (raw[i].period == MONTHLY <==> i in idx))
  }

  /** The filter keeps exactly the monthly rows, unchanged and in order. */
  lemma {:induction false} KeepMonthlyExactly(raw: seq<RawRecord>)
    ensures SelectsMonthly(raw, MonthlyPositions(raw), KeepMonthly(raw))
    decreases |raw|
  {
    if raw != [] {
      var n := |raw| - 1;
      KeepMonthlyExactly(raw[..n]);
      var idx := MonthlyPositions(raw[..n]);
      assert forall k :: 0 <= k < |idx| ==> idx[k] < n;
      forall i | 0 <= i < n
        ensures raw[i] == raw[..n][i]
      {
      }
    }
  }

  /** The normalised row of a kept input row whose date parsed: AÑO and MES
      come from the date, the other columns are copied. */
  function Normalized(rec: RawRecord): Row {
    Row(rec.brand, rec.region, Some(rec.period), Some(rec.date),
        rec.date.year, Some(rec.date.month), rec.category, rec.volume, rec.sales)
  }

  /** `procesar_base_datos`: filter on `Periodo`, then parse every kept date;
      one unparseable date makes the whole call fail (None). */
  function ProcessDatabase(raw: seq<RawRecord>): Option<seq<Row>> {
    var kept := KeepMonthly(raw);
    if forall k :: 0 <= k < |kept| ==> ValidDate(kept[k].date) then
      Some(seq(|kept|, k requires 0 <= k < |kept| => Normalized(kept[k])))
    else
      None
  }

  /** The call fails exactly when some monthly row has a date that does not
      parse; rows of other periods are never parsed. */
  lemma ProcessDatabaseFails(raw: seq<RawRecord>)
    ensures ProcessDatabase(raw).None? <==>
      exists i :: 0 <= i < |raw| && raw[i].period == MONTHLY && !ValidDate(raw[i].date)
  {
    KeepMonthlyExactly(raw);
    var idx, kept := MonthlyPositions(raw), KeepMonthly(raw);
    if ProcessDatabase(raw).None? {
      var k :| 0 <= k < |kept| && !ValidDate(kept[k].date);
      assert raw[idx[k]].period == MONTHLY;
    } else {
      forall i | 0 <= i < |raw| && raw[i].period == MONTHLY
        ensures ValidDate(raw[i].date)
      {
        var k :| 0 <= k < |idx| && idx[k] == i;
        assert kept[k] == raw[i];
      }
    }
  }

  /** On success the table has one row per monthly input row, in input order:
      row k comes from input row `MonthlyPositions(raw)[k]`, whose columns it
      copies, and its AÑO and MES are the year and month of that row's date,
      so MES lies in 1..12. */
  lemma ProcessDatabaseRows(raw: seq<RawRecord>, k: nat)
    requires ProcessDatabase(raw).Some?
    requires k < |ProcessDatabase(raw).value|
    ensures |ProcessDatabase(raw).value| == |MonthlyPositions(raw)|
    ensures MonthlyPositions(raw)[k] < |raw|
    ensures
      var row, rec := ProcessDatabase(raw).value[k], raw[MonthlyPositions(raw)[k]];
      && rec.period == MONTHLY
      && row.year == rec.date.year
      && row.month == Some(rec.date.month)
      && 1 <= rec.date.month <= 12
      && row.brand == rec.brand && row.region == rec.region
      && row.period == Some(rec.period) && row.date == Some(rec.date)
      && row.category == rec.category
      && row.volume == rec.volume && row.sales == rec.sales
  {
    KeepMonthlyExactly(raw);
    var idx := MonthlyPositions(raw);
    assert idx[k] in idx;
  }
}
