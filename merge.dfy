/** The tail of `procesar_licores`: zero-fill the synthesized rows and append
    them after the observed ones. */
module Merging {
  import opened Wrappers
  import opened Records

  /** A synthesized row as a table row: CajasVirt and Venta set to 0, and the
      columns it never had (Periodo, Fecha, MES) left empty. */
  function ZeroFilled(row: NewRow): Row {
    Row(row.brand, row.region, None, None, row.year, None, row.category, 0, 0)
  }

  /** `pd.concat([bebidas_df, bebidas_empty_df])`: the observed rows first,
      unchanged and in order, then every synthesized row in grid order with
      its brand, region, year and category, zero measures and no period,
      date or month. */
  function Merge(observed: seq<Row>, newRows: seq<NewRow>): (out: seq<Row>)
    ensures |out| == |observed| + |newRows|
    ensures out[..|observed|] == observed
    ensures forall k :: 0 <= k < |newRows| ==>
      var row := out[|observed| + k];
      && NewRowKey(newRows[k]) == RowKey(row)
      && row.category == newRows[k].category
      && row.volume == 0 && row.sales == 0
      && row.period == None && row.date == None && row.month == None
  {
    observed + seq(|newRows|, k requires 0 <= k < |newRows| => ZeroFilled(newRows[k]))
  }

  /** Nothing is deduplicated: the output's keys are the observed keys followed
      by the synthesized keys, so a key carried by both an observed and a
      synthesized row occurs once for each of them. */
  lemma MergeKeepsDuplicates(observed: seq<Row>, newRows: seq<NewRow>, key: Key)
    ensures Keys(Merge(observed, newRows)) == Keys(observed) + NewRowKeys(newRows)
    ensures multiset(Keys(Merge(observed, newRows)))[key] ==
      multiset(Keys(observed))[key] + multiset(NewRowKeys(newRows))[key]
  {
    var out := Merge(observed, newRows);
    var left, right := Keys(observed), NewRowKeys(newRows);
    forall i | 0 <= i < |out| ensures Keys(out)[i] == (left + right)[i] {
      if i < |observed| {
        assert out[..|observed|][i] == out[i];
      } else {
        assert RowKey(out[|observed| + (i - |observed|)]) == NewRowKey(newRows[i - |observed|]);
      }
    }
    assert Keys(out) == left + right;
  }
}
