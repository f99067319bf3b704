/** `procesar_licores` without its loading step: normalise the loaded rows,
    synthesize the full brand x region x year grid, backfill categories, and
    append the synthesized rows after the observed ones. */
module Pipeline {
  import opened Wrappers
  import opened Sequences
  import opened Records
  import opened Normalize
  import opened GridGeneration
  import opened Categories
  import opened Merging

  /** The synthesized rows once stamped, in grid order. */
  function StampedGrid(observed: seq<Row>): seq<NewRow> {
    Stamped(Grid(Brands(observed), Regions(observed), Years(observed)), CategoryMap(observed))
  }

  /** The table `procesar_licores` builds from the normalised rows. */
  function Complete(observed: seq<Row>): seq<Row> {
    Merge(observed, StampedGrid(observed))
  }

  /** What `procesar_licores` returns for the loaded rows `raw`; None when
      `procesar_base_datos` fails on a date. */
  function Process(raw: seq<RawRecord>): Option<seq<Row>> {
    match ProcessDatabase(raw)
    case None => None
    case Some(observed) => Some(Complete(observed))
  }

  /** `procesar_licores` from line 74 on: the synthesized rows are built in a
      list, stamped in place, zero-filled and concatenated. */
  method ProcessLiquors(raw: seq<RawRecord>) returns (result: Option<seq<Row>>)
    ensures result == Process(raw)
  {
    var normalized := ProcessDatabase(raw);
    if normalized.None? {
      return None;
    }
    var bebidas := normalized.value;
    var newRows := GenerateNewRows(bebidas);
    var table := new NewRow[|newRows|](i requires 0 <= i < |newRows| => newRows[i]);
    assert table[..] == newRows;
    AssignCategories(table, bebidas);
    result := Some(Merge(bebidas, table[..]));
  }

  /** The run fails exactly when a monthly row has a date that does not parse. */
  lemma ProcessFails(raw: seq<RawRecord>)
    ensures Process(raw).None? <==>
      exists i :: 0 <= i < |raw| && raw[i].period == MONTHLY && !ValidDate(raw[i].date)
  {
    ProcessDatabaseFails(raw);
  }

  /** Where the row synthesized for brand i, region j and year k lands in the
      output: after the observed rows, at its row-major grid position. */
  function SynthesizedIndex(observed: seq<Row>, i: nat, j: nat, k: nat): nat {
    |observed| + Position(i, j, k, |Regions(observed)|, |Years(observed)|)
  }

  /** The output holds the observed rows first, unchanged and in order,
      followed by |marcas| * |regiones| * |años| synthesized rows. */
  lemma CompleteShape(observed: seq<Row>)
    ensures |Complete(observed)| ==
      |observed| + |Brands(observed)| * |Regions(observed)| * |Years(observed)|
    ensures Complete(observed)[..|observed|] == observed
  {
    GridSize(Brands(observed), Regions(observed), Years(observed));
  }

  /** Row `Position(i, j, k)` of the stamped grid is brand i, region j and
      year k, carrying the category of brand i when the map has one. */
  lemma StampedGridAt(ms: seq<Brand>, rs: seq<Region>, ys: seq<int>, m: map<Brand, Category>, i: nat, j: nat, k: nat)
    requires i < |ms| && j < |rs| && k < |ys|
    ensures Position(i, j, k, |rs|, |ys|) < |Stamped(Grid(ms, rs, ys), m)|
    ensures Stamped(Grid(ms, rs, ys), m)[Position(i, j, k, |rs|, |ys|)] ==
      NewRow(ms[i], rs[j], ys[k], if ms[i] in m then Some(m[ms[i]]) else None)
  {
    var grid := Grid(ms, rs, ys);
    var offset := Position(i, j, k, |rs|, |ys|);
    GridAt(ms, rs, ys, i, j, k);
    assert Stamped(grid, m)[offset] == StampRow(grid[offset], m);
  }

  /** Synthesized row `(i*|regiones| + j)*|años| + k` is brand i, region j and
      year k, with zero measures, and it carries the category of its brand
      exactly when `categorias_por_marca` has an entry for the brand. */
  lemma CompleteSynthesizedRow(observed: seq<Row>, i: nat, j: nat, k: nat)
    requires i < |Brands(observed)| && j < |Regions(observed)| && k < |Years(observed)|
    ensures SynthesizedIndex(observed, i, j, k) < |Complete(observed)|
    ensures RowKey(Complete(observed)[SynthesizedIndex(observed, i, j, k)]) ==
      Key(Brands(observed)[i], Regions(observed)[j], Years(observed)[k])
    ensures Complete(observed)[SynthesizedIndex(observed, i, j, k)].volume == 0
    ensures Complete(observed)[SynthesizedIndex(observed, i, j, k)].sales == 0
    ensures Complete(observed)[SynthesizedIndex(observed, i, j, k)].category ==
      if Brands(observed)[i] in CategoryMap(observed)
      then Some(CategoryMap(observed)[Brands(observed)[i]]) else None
  {
    var ms, rs, ys := Brands(observed), Regions(observed), Years(observed);
    StampedGridAt(ms, rs, ys, CategoryMap(observed), i, j, k);
  }

  /** Every (brand, region, year) combination of the dimension lists is
      synthesized exactly once, and observed rows are never removed: a key
      occurs in the output once per observed row carrying it, plus one when
      it is a combination of the dimension lists. */
  lemma CompleteKeyCount(observed: seq<Row>, key: Key)
    ensures multiset(Keys(Complete(observed)))[key] ==
      multiset(Keys(observed))[key] +
      (if key.brand in Brands(observed) && key.region in Regions(observed) && key.year in Years(observed)
       then 1 else 0)
  {
    var ms, rs, ys := Brands(observed), Regions(observed), Years(observed);
    var grid := Grid(ms, rs, ys);
    var stamped := StampedGrid(observed);
    BrandsListed(observed);
    RegionsListed(observed);
    YearsListed(observed);
    GridNoDup(ms, rs, ys);
    assert NewRowKeys(stamped) == NewRowKeys(grid);
    NoDupCount(NewRowKeys(grid), key);
    MergeKeepsDuplicates(observed, stamped, key);
    var x := NewRow(key.brand, key.region, key.year, None);
    GridContains(ms, rs, ys, x);
    if key in NewRowKeys(grid) {
      var p :| 0 <= p < |grid| && NewRowKeys(grid)[p] == key;
      GridContains(ms, rs, ys, grid[p]);
      assert grid[p] == x;
    }
    if x in grid {
      var p :| 0 <= p < |grid| && grid[p] == x;
      assert NewRowKeys(grid)[p] == key;
    }
  }

  /** Completeness and duplication: the key of every observed row is a
      combination of the dimension lists, so it is synthesized again and
      occurs at least twice in the output. */
  lemma ObservedKeysDuplicated(observed: seq<Row>, p: nat)
    requires p < |observed|
    ensures multiset(Keys(Complete(observed)))[RowKey(observed[p])] ==
      multiset(Keys(observed))[RowKey(observed[p])] + 1
    ensures multiset(Keys(Complete(observed)))[RowKey(observed[p])] >= 2
  {
    var key := RowKey(observed[p]);
    BrandsListed(observed);
    RegionsListed(observed);
    YearsListed(observed);
    CompleteKeyCount(observed, key);
    assert Keys(observed)[p] == key;
  }

  /** Completeness: every combination of a listed brand, region and year has
      a zero-filled synthesized row in the output. */
  lemma CompleteCoversGrid(observed: seq<Row>, b: Brand, r: Region, y: int)
    requires b in Brands(observed) && r in Regions(observed) && y in Years(observed)
    ensures exists n ::
      && |observed| <= n < |Complete(observed)|
      && RowKey(Complete(observed)[n]) == Key(b, r, y)
      && Complete(observed)[n].volume == 0
      && Complete(observed)[n].sales == 0
  {
    var i := FirstIndex(Brands(observed), b);
    var j := FirstIndex(Regions(observed), r);
    var k := FirstIndex(Years(observed), y);
    CompleteSynthesizedRow(observed, i, j, k);
    var n := SynthesizedIndex(observed, i, j, k);
    assert |observed| <= n < |Complete(observed)|;
  }

  /** One observed monthly row of brand A, region North, year 2023. */
  function SingleSample(): seq<Row> {
    [Row("A", "North", Some(MONTHLY), Some(Date(15, 3, 2023)), 2023, Some(3), Some("Spirits"), 5, 100)]
  }

  lemma SingleDimensions()
    ensures Brands(SingleSample()) == ["A"]
    ensures Regions(SingleSample()) == ["North"]
    ensures Years(SingleSample()) == [2023]
  {
    assert BrandColumn(SingleSample()) == ["A"];
    assert RegionColumn(SingleSample()) == ["North"];
    assert YearColumn(SingleSample()) == [2023];
  }

  /** For a single observed row the output is that row followed by its
      synthesized twin, which carries the same key and category and zero
      measures. */
  lemma SingleRowScenario()
    ensures Complete(SingleSample()) ==
      SingleSample() + [Row("A", "North", None, None, 2023, None, Some("Spirits"), 0, 0)]
  {
    var observed := SingleSample();
    var out := Complete(observed);
    SingleDimensions();
    SingleCategory(observed, "A", "Spirits");
    CompleteShape(observed);
    assert |Brands(observed)| * |Regions(observed)| * |Years(observed)| == 1;
    CompleteSynthesizedRow(observed, 0, 0, 0);
    assert SynthesizedIndex(observed, 0, 0, 0) == 1;
    assert out[1] == Row("A", "North", None, None, 2023, None, Some("Spirits"), 0, 0);
    assert out == out[..1] + [out[1]];
  }

  /** Three observed monthly rows over brands A and B, regions North and
      South and years 2022 and 2023: 3 of the 8 combinations. */
  function SparseSample(): seq<Row> {
    [ Row("A", "North", Some(MONTHLY), Some(Date(1, 1, 2022)), 2022, Some(1), Some("Spirits"), 5, 100),
      Row("B", "South", Some(MONTHLY), Some(Date(1, 6, 2023)), 2023, Some(6), Some("Wine"), 2, 40),
      Row("A", "South", Some(MONTHLY), Some(Date(1, 9, 2023)), 2023, Some(9), Some("Spirits"), 1, 20) ]
  }

  lemma SparseBrands()
    ensures Brands(SparseSample()) == ["A", "B"]
  {
    assert BrandColumn(SparseSample()) == ["A", "B", "A"];
    assert BrandColumn(SparseSample())[..2] == ["A", "B"];
    assert Distinct(["A", "B"]) == ["A", "B"];
  }

  lemma SparseRegions()
    ensures Regions(SparseSample()) == ["North", "South"]
  {
    assert RegionColumn(SparseSample()) == ["North", "South", "South"];
    assert RegionColumn(SparseSample())[..2] == ["North", "South"];
    assert Distinct(["North", "South"]) == ["North", "South"];
  }

  lemma SparseYears()
    ensures Years(SparseSample()) == [2022, 2023]
  {
    assert YearColumn(SparseSample()) == [2022, 2023, 2023];
    assert YearColumn(SparseSample())[..2] == [2022, 2023];
    assert Distinct([2022, 2023]) == [2022, 2023];
  }

  lemma SparseKeyCounts()
    ensures multiset(Keys(SparseSample()))[Key("A", "North", 2022)] == 1
    ensures multiset(Keys(SparseSample()))[Key("B", "South", 2023)] == 1
    ensures multiset(Keys(SparseSample()))[Key("A", "South", 2023)] == 1
    ensures multiset(Keys(SparseSample()))[Key("B", "North", 2022)] == 0
  {
    var keys := Keys(SparseSample());
    assert keys[0] == Key("A", "North", 2022);
    assert keys[1] == Key("B", "South", 2023);
    assert keys[2] == Key("A", "South", 2023);
    assert keys == [keys[0], keys[1], keys[2]];
  }

  /** For the sparse sample the output has 3 + 8 rows; each of the three
      observed keys occurs twice and a missing combination once. */
  lemma SparseScenario()
    ensures |Complete(SparseSample())| == 11
    ensures multiset(Keys(Complete(SparseSample())))[Key("A", "North", 2022)] == 2
    ensures multiset(Keys(Complete(SparseSample())))[Key("B", "South", 2023)] == 2
    ensures multiset(Keys(Complete(SparseSample())))[Key("A", "South", 2023)] == 2
    ensures multiset(Keys(Complete(SparseSample())))[Key("B", "North", 2022)] == 1
  {
    var observed := SparseSample();
    SparseBrands();
    SparseRegions();
    SparseYears();
    CompleteShape(observed);
    assert |Brands(observed)| * |Regions(observed)| * |Years(observed)| == 2 * 2 * 2;
    SparseKeyCounts();
    CompleteKeyCount(observed, Key("A", "North", 2022));
    CompleteKeyCount(observed, Key("B", "South", 2023));
    CompleteKeyCount(observed, Key("A", "South", 2023));
    CompleteKeyCount(observed, Key("B", "North", 2022));
  }
}
