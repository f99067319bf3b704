/** `generar_nuevas_filas`: the distinct brands, regions and years of the
    normalised table, and one synthesized row per combination of them. */
module GridGeneration {
  import opened Wrappers
  import opened Sequences
  import opened Records

  /** The `Marca` column. */
  function BrandColumn(rows: seq<Row>): seq<Brand> {
    seq(|rows|, i requires 0 <= i < |rows| => rows[i].brand)
  }

  /** The `Region` column. */
  function RegionColumn(rows: seq<Row>): seq<Region> {
    seq(|rows|, i requires 0 <= i < |rows| => rows[i].region)
  }

  /** The `AÑO` column. */
  function YearColumn(rows: seq<Row>): seq<int> {
    seq(|rows|, i requires 0 <= i < |rows| => rows[i].year)
  }

  /** `bebidas_df['Marca'].unique()`. */
  function Brands(rows: seq<Row>): seq<Brand> {
    Distinct(BrandColumn(rows))
  }

  /** `bebidas_df['Region'].unique()`. */
  function Regions(rows: seq<Row>): seq<Region> {
    Distinct(RegionColumn(rows))
  }

  /** `bebidas_df['AÑO'].unique()`. */
  function Years(rows: seq<Row>): seq<int> {
    Distinct(YearColumn(rows))
  }

  /** `marcas` has no repetitions, lists the brands in the order they are
      first seen, and holds a brand exactly when some row carries it. */
  lemma BrandsListed(rows: seq<Row>)
    ensures ListsFirstSeen(BrandColumn(rows), Brands(rows))
    ensures forall b :: b in Brands(rows) <==> exists i :: 0 <= i < |rows| && rows[i].brand == b
  {
    var col := BrandColumn(rows);
    DistinctListsFirstSeen(col);
    forall b ensures b in col <==> exists i :: 0 <= i < |rows| && rows[i].brand == b {
      if b in col {
        var i :| 0 <= i < |col| && col[i] == b;
      }
      if exists i :: 0 <= i < |rows| && rows[i].brand == b {
        var i :| 0 <= i < |rows| && rows[i].brand == b;
        assert col[i] == b;
      }
    }
  }

  /** The same for `regiones`. */
  lemma RegionsListed(rows: seq<Row>)
    ensures ListsFirstSeen(RegionColumn(rows), Regions(rows))
    ensures forall r :: r in Regions(rows) <==> exists i :: 0 <= i < |rows| && rows[i].region == r
  {
    var col := RegionColumn(rows);
    DistinctListsFirstSeen(col);
    forall r ensures r in col <==> exists i :: 0 <= i < |rows| && rows[i].region == r {
      if r in col {
        var i :| 0 <= i < |col| && col[i] == r;
      }
      if exists i :: 0 <= i < |rows| && rows[i].region == r {
        var i :| 0 <= i < |rows| && rows[i].region == r;
        assert col[i] == r;
      }
    }
  }

  /** The same for `años`. */
  lemma YearsListed(rows: seq<Row>)
    ensures ListsFirstSeen(YearColumn(rows), Years(rows))
    ensures forall y :: y in Years(rows) <==> exists i :: 0 <= i < |rows| && rows[i].year == y
  {
    var col := YearColumn(rows);
    DistinctListsFirstSeen(col);
    forall y ensures y in col <==> exists i :: 0 <= i < |rows| && rows[i].year == y {
      if y in col {
        var i :| 0 <= i < |col| && col[i] == y;
      }
      if exists i :: 0 <= i < |rows| && rows[i].year == y {
        var i :| 0 <= i < |rows| && rows[i].year == y;
        assert col[i] == y;
      }
    }
  }

  /** The rows of the innermost loop: one per year, for one brand and region. */
  function YearRun(b: Brand, r: Region, ys: seq<int>): (run: seq<NewRow>)
    ensures |run| == |ys|
  {
    seq(|ys|, k requires 0 <= k < |ys| => NewRow(b, r, ys[k], None))
  }

  /** The rows of the middle loop: all regions and years for one brand. */
  function BrandBlock(b: Brand, rs: seq<Region>, ys: seq<int>): seq<NewRow>
    decreases |rs|
  {
    if rs == [] then []
    else
      var n := |rs| - 1;
      BrandBlock(b, rs[..n], ys) + YearRun(b, rs[n], ys)
  }

  /** The rows the three nested loops append, brand by region by year. */
  function Grid(ms: seq<Brand>, rs: seq<Region>, ys: seq<int>): seq<NewRow>
    decreases |ms|
  {
    if ms == [] then []
    else
      var n := |ms| - 1;
      Grid(ms[..n], rs, ys) + BrandBlock(ms[n], rs, ys)
  }

  /** One turn of the inner loop: appending year k extends the run. */
  lemma YearRunStep(prior: seq<NewRow>, b: Brand, r: Region, ys: seq<int>, k: nat)
    requires k < |ys|
    ensures prior + YearRun(b, r, ys[..k]) + [NewRow(b, r, ys[k], None)] == prior + YearRun(b, r, ys[..k + 1])
  {
    assert YearRun(b, r, ys[..k + 1]) == YearRun(b, r, ys[..k]) + [NewRow(b, r, ys[k], None)];
  }

  /** One turn of the middle loop: a finished run of years extends the block. */
  lemma BrandBlockStep(prior: seq<NewRow>, b: Brand, rs: seq<Region>, ys: seq<int>, j: nat)
    requires j < |rs|
    ensures prior + BrandBlock(b, rs[..j], ys) + YearRun(b, rs[j], ys) == prior + BrandBlock(b, rs[..j + 1], ys)
  {
    assert rs[..j + 1][..j] == rs[..j];
  }

  /** One turn of the outer loop: a finished block extends the grid. */
  lemma GridStep(ms: seq<Brand>, rs: seq<Region>, ys: seq<int>, i: nat)
    requires i < |ms|
    ensures Grid(ms[..i], rs, ys) + BrandBlock(ms[i], rs, ys) == Grid(ms[..i + 1], rs, ys)
  {
    assert ms[..i + 1][..i] == ms[..i];
  }

  /** `generar_nuevas_filas`: append one {Marca, Region, AÑO} row for every
      brand, region and year, in that loop order. */
  method GenerateNewRows(rows: seq<Row>) returns (newRows: seq<NewRow>)
    ensures newRows == Grid(Brands(rows), Regions(rows), Years(rows))
  {
    var marcas, regiones, anos := Brands(rows), Regions(rows), Years(rows);
    newRows := [];
    for i := 0 to |marcas|
      invariant newRows == Grid(marcas[..i], regiones, anos)
    {
      ghost var before := newRows;
      for j := 0 to |regiones|
        invariant newRows == before + BrandBlock(marcas[i], regiones[..j], anos)
      {
        ghost var middle := newRows;
        for k := 0 to |anos|
          invariant newRows == middle + YearRun(marcas[i], regiones[j], anos[..k])
        {
          newRows := newRows + [NewRow(marcas[i], regiones[j], anos[k], None)];
          YearRunStep(middle, marcas[i], regiones[j], anos, k);
        }
        assert anos[..|anos|] == anos;
        BrandBlockStep(before, marcas[i], regiones, anos, j);
      }
      assert regiones[..|regiones|] == regiones;
      GridStep(marcas, regiones, anos, i);
    }
    assert marcas[..|marcas|] == marcas;
  }

  /** Row-major offsets: the arithmetic behind the grid's index formula. */
  lemma RowMajorOffset(i: nat, j: nat, k: nat, regions: nat, years: nat)
    requires j < regions && k < years
    ensures (i * regions + j) * years + k == i * (regions * years) + (j * years + k)
    ensures j * years + k < regions * years
    ensures (i + 1) * (regions * years) == i * (regions * years) + regions * years
  {
    MulDistributes(i * regions, j, years);
    MulAssociative(i, regions, years);
    MulDistributes(j, 1, years);
    MulMonotone(j + 1, regions, years);
    MulDistributes(i, 1, regions * years);
  }

  lemma MulDistributes(a: nat, b: nat, c: nat)
    ensures (a + b) * c == a * c + b * c
  {
  }

  lemma MulSucc(n: nat, a: nat, b: nat)
    ensures (n + 1) * a * b == n * a * b + a * b
  {
    assert (n + 1) * a == n * a + a;
    assert (n * a + a) * b == n * a * b + a * b;
  }

  lemma MulAssociative(a: nat, b: nat, c: nat)
    ensures a * b * c == a * (b * c)
  {
  }

  lemma MulMonotone(a: nat, b: nat, c: nat)
    requires a <= b
    ensures a * c <= b * c
  {
    assert b * c == a * c + (b - a) * c;
  }

  /** The middle loop appends |rs| * |ys| rows. */
  lemma {:induction false} BrandBlockSize(b: Brand, rs: seq<Region>, ys: seq<int>)
    ensures |BrandBlock(b, rs, ys)| == |rs| * |ys|
    decreases |rs|
  {
    if rs != [] {
      var n := |rs| - 1;
      BrandBlockSize(b, rs[..n], ys);
      MulSucc(n, 1, |ys|);
    }
  }

  /** The grid has |marcas| * |regiones| * |años| rows, so it is empty as
      soon as one dimension is. */
  lemma {:induction false} GridSize(ms: seq<Brand>, rs: seq<Region>, ys: seq<int>)
    ensures |Grid(ms, rs, ys)| == |ms| * |rs| * |ys|
    decreases |ms|
  {
    if ms != [] {
      var n := |ms| - 1;
      GridSize(ms[..n], rs, ys);
      BrandBlockSize(ms[n], rs, ys);
      MulSucc(n, |rs|, |ys|);
    }
  }

  lemma {:induction false} BrandBlockAt(b: Brand, rs: seq<Region>, ys: seq<int>, j: nat, k: nat)
    requires j < |rs| && k < |ys|
    ensures j * |ys| + k < |BrandBlock(b, rs, ys)|
    ensures BrandBlock(b, rs, ys)[j * |ys| + k] == NewRow(b, rs[j], ys[k], None)
    decreases |rs|
  {
    var n := |rs| - 1;
    BrandBlockSize(b, rs[..n], ys);
    RowMajorOffset(0, j, k, n + 1, |ys|);
    if j < n {
      BrandBlockAt(b, rs[..n], ys, j, k);
    } else {
      assert j * |ys| == |BrandBlock(b, rs[..n], ys)|;
    }
  }

  /** The row-major position of brand i, region j and year k in a grid of
      `regions` regions and `years` years per brand. */
  function Position(i: nat, j: nat, k: nat, regions: nat, years: nat): nat {
    (i * regions + j) * years + k
  }

  /** The arithmetic behind GridAt: position i*regions*years + offset lies in
      the first n blocks when i < n, and in block n when i == n. */
  lemma GridIndexArithmetic(i: nat, j: nat, k: nat, n: nat, regions: nat, years: nat, prefixLen: nat, blockLen: nat)
    requires i <= n && j < regions && k < years
    requires prefixLen == n * regions * years && blockLen == regions * years
    ensures 0 <= j * years + k < blockLen
    ensures i < n ==> Position(i, j, k, regions, years) < prefixLen
    ensures i == n ==> Position(i, j, k, regions, years) == prefixLen + (j * years + k)
  {
    RowMajorOffset(i, j, k, regions, years);
    MulAssociative(n, regions, years);
    if i < n {
      MulMonotone(i + 1, n, regions * years);
    }
  }

  /** Row `(i*|rs| + j)*|ys| + k` of the grid is brand i, region j, year k. */
  lemma {:induction false} GridAt(ms: seq<Brand>, rs: seq<Region>, ys: seq<int>, i: nat, j: nat, k: nat)
    requires i < |ms| && j < |rs| && k < |ys|
    ensures Position(i, j, k, |rs|, |ys|) < |Grid(ms, rs, ys)|
    ensures Grid(ms, rs, ys)[Position(i, j, k, |rs|, |ys|)] == NewRow(ms[i], rs[j], ys[k], None)
    decreases |ms|
  {
    var n := |ms| - 1;
    var offset := j * |ys| + k;
    var index := Position(i, j, k, |rs|, |ys|);
    var prefix, block := Grid(ms[..n], rs, ys), BrandBlock(ms[n], rs, ys);
    assert Grid(ms, rs, ys) == prefix + block;
    GridSize(ms[..n], rs, ys);
    BrandBlockSize(ms[n], rs, ys);
    GridIndexArithmetic(i, j, k, n, |rs|, |ys|, |prefix|, |block|);
    if i < n {
      GridAt(ms[..n], rs, ys, i, j, k);
      assert ms[..n][i] == ms[i];
      assert Grid(ms, rs, ys)[index] == prefix[index];
    } else {
      BrandBlockAt(ms[n], rs, ys, j, k);
      assert index == |prefix| + offset;
      assert Grid(ms, rs, ys)[index] == block[offset];
    }
  }

  /** The middle loop emits exactly the rows of brand `b` over `rs` and `ys`. */
  lemma {:induction false} BrandBlockContains(b: Brand, rs: seq<Region>, ys: seq<int>, x: NewRow)
    ensures x in BrandBlock(b, rs, ys) <==>
      x.brand == b && x.region in rs && x.year in ys && x.category == None
    decreases |rs|
  {
    if rs != [] {
      var n := |rs| - 1;
      BrandBlockContains(b, rs[..n], ys, x);
      assert rs == rs[..n] + [rs[n]];
      if x in YearRun(b, rs[n], ys) {
        var k :| 0 <= k < |ys| && YearRun(b, rs[n], ys)[k] == x;
      }
      if x.brand == b && x.region == rs[n] && x.year in ys && x.category == None {
        var k :| 0 <= k < |ys| && ys[k] == x.year;
        assert YearRun(b, rs[n], ys)[k] == x;
      }
    }
  }

  /** Every combination of the three lists is in the grid, and nothing else. */
  lemma {:induction false} GridContains(ms: seq<Brand>, rs: seq<Region>, ys: seq<int>, x: NewRow)
    ensures x in Grid(ms, rs, ys) <==>
      x.brand in ms && x.region in rs && x.year in ys && x.category == None
    decreases |ms|
  {
    if ms != [] {
      var n := |ms| - 1;
      GridContains(ms[..n], rs, ys, x);
      BrandBlockContains(ms[n], rs, ys, x);
      assert ms == ms[..n] + [ms[n]];
    }
  }

  lemma {:induction false} YearRunNoDup(b: Brand, r: Region, ys: seq<int>)
    requires NoDup(ys)
    ensures NoDup(YearRun(b, r, ys))
  {
    var run := YearRun(b, r, ys);
    forall i, j | 0 <= i < j < |run| ensures run[i] != run[j] {
      assert run[i].year == ys[i] && run[j].year == ys[j];
    }
  }

  lemma {:induction false} BrandBlockNoDup(b: Brand, rs: seq<Region>, ys: seq<int>)
    requires NoDup(rs) && NoDup(ys)
    ensures NoDup(BrandBlock(b, rs, ys))
    decreases |rs|
  {
    if rs != [] {
      var n := |rs| - 1;
      BrandBlockNoDup(b, rs[..n], ys);
      YearRunNoDup(b, rs[n], ys);
      forall x | x in BrandBlock(b, rs[..n], ys) ensures x !in YearRun(b, rs[n], ys) {
        BrandBlockContains(b, rs[..n], ys, x);
        assert rs[n] !in rs[..n];
      }
      NoDupConcat(BrandBlock(b, rs[..n], ys), YearRun(b, rs[n], ys));
    }
  }

  /** Over duplicate-free lists every generated (brand, region, year) triple
      is different. */
  lemma {:induction false} GridNoDup(ms: seq<Brand>, rs: seq<Region>, ys: seq<int>)
    requires NoDup(ms) && NoDup(rs) && NoDup(ys)
    ensures NoDup(Grid(ms, rs, ys))
    ensures NoDup(NewRowKeys(Grid(ms, rs, ys)))
    decreases |ms|
  {
    var grid := Grid(ms, rs, ys);
    if ms != [] {
      var n := |ms| - 1;
      GridNoDup(ms[..n], rs, ys);
      BrandBlockNoDup(ms[n], rs, ys);
      forall x | x in Grid(ms[..n], rs, ys) ensures x !in BrandBlock(ms[n], rs, ys) {
        GridContains(ms[..n], rs, ys, x);
        BrandBlockContains(ms[n], rs, ys, x);
        assert ms[n] !in ms[..n];
      }
      NoDupConcat(Grid(ms[..n], rs, ys), BrandBlock(ms[n], rs, ys));
    }
    var keys := NewRowKeys(grid);
    forall i, j | 0 <= i < j < |keys| ensures keys[i] != keys[j] {
      GridContains(ms, rs, ys, grid[i]);
      GridContains(ms, rs, ys, grid[j]);
      assert grid[i] != grid[j];
    }
  }
}
