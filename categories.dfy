/** `asignar_categorias_nuevas_filas`: build the brand -> category dictionary
    from the observed rows, then stamp it onto the synthesized rows. */
module Categories {
  import opened Wrappers
  import opened Sequences
  import opened Records

  /** The `Categoria` column; None is an empty (NaN) cell. */
  function CategoryColumn(rows: seq<Row>): seq<Option<Category>> {
    seq(|rows|, i requires 0 <= i < |rows| => rows[i].category)
  }

  /** `bebidas_df['Categoria'] == categoria` for one cell: pandas compares a
      NaN category unequal to everything, itself included. */
  predicate Matches(cell: Option<Category>, categoria: Option<Category>) {
    categoria.Some? && cell == categoria
  }

  /** `bebidas_df[bebidas_df['Categoria'] == categoria]['Marca']`. */
  function BrandsMatching(rows: seq<Row>, categoria: Option<Category>): seq<Brand>
    decreases |rows|
  {
    if rows == [] then []
    else
      var n := |rows| - 1;
      var earlier := BrandsMatching(rows[..n], categoria);
      if Matches(rows[n].category, categoria) then earlier + [rows[n].brand] else earlier
  }

  /** `marcas_categoria`: the distinct brands under one category. */
  function BrandsUnder(rows: seq<Row>, categoria: Option<Category>): seq<Brand> {
    Distinct(BrandsMatching(rows, categoria))
  }

  /** Brand `b` is listed under `categoria`: some row carries both. */
  ghost predicate OccursUnder(rows: seq<Row>, b: Brand, categoria: Option<Category>) {
    exists i :: 0 <= i < |rows| && rows[i].brand == b && Matches(rows[i].category, categoria)
  }

  /** Brand `b` occurs under at least one of the categories `cs`. */
  ghost predicate OccursUnderSome(rows: seq<Row>, b: Brand, cs: seq<Option<Category>>) {
    exists i :: 0 <= i < |cs| && OccursUnder(rows, b, cs[i])
  }

  /** `cs[i]` is the last category of `cs` under which brand `b` occurs. */
  ghost predicate LastOccurrence(rows: seq<Row>, b: Brand, cs: seq<Option<Category>>, i: int) {
    && 0 <= i < |cs|
    && OccursUnder(rows, b, cs[i])
    && forall j :: i < j < |cs| ==> !OccursUnder(rows, b, cs[j])
  }

  /** The inner loop: `categorias_por_marca[marca] = categoria` for each brand
      of `bs` in turn. */
  function AssignAll(m: map<Brand, Category>, bs: seq<Brand>, c: Category): (r: map<Brand, Category>)
    ensures forall b :: b in r <==> b in m || b in bs
    ensures forall b :: b in r ==> r[b] == if b in bs then c else m[b]
    decreases |bs|
  {
    if bs == [] then m
    else
      var n := |bs| - 1;
      assert bs == bs[..n] + [bs[n]];
      AssignAll(m, bs[..n], c)[bs[n] := c]
  }

  /** The outer loop over the categories `cs`, each overwriting what earlier
      categories wrote for its brands. */
  function FoldCategories(rows: seq<Row>, cs: seq<Option<Category>>): map<Brand, Category>
    decreases |cs|
  {
    if cs == [] then map[]
    else
      var n := |cs| - 1;
      var m := FoldCategories(rows, cs[..n]);
      match cs[n]
      case None => m
      case Some(c) => AssignAll(m, BrandsUnder(rows, cs[n]), c)
  }

  /** `bebidas_df['Categoria'].unique()`: the categories in first-seen order. */
  function CategoryList(rows: seq<Row>): seq<Option<Category>> {
    Distinct(CategoryColumn(rows))
  }

  /** `categorias_por_marca` once both loops have run. */
  function CategoryMap(rows: seq<Row>): map<Brand, Category> {
    FoldCategories(rows, CategoryList(rows))
  }

  /** A brand is listed under a category exactly when some row carries both. */
  lemma {:induction false} BrandsMatchingContains(rows: seq<Row>, categoria: Option<Category>, b: Brand)
    ensures b in BrandsMatching(rows, categoria) <==> OccursUnder(rows, b, categoria)
    decreases |rows|
  {
    if rows != [] {
      var n := |rows| - 1;
      BrandsMatchingContains(rows[..n], categoria, b);
      if OccursUnder(rows[..n], b, categoria) {
        var i :| 0 <= i < n && rows[..n][i].brand == b && Matches(rows[..n][i].category, categoria);
        assert rows[i] == rows[..n][i];
      }
      if OccursUnder(rows, b, categoria) {
        var i :| 0 <= i < |rows| && rows[i].brand == b && Matches(rows[i].category, categoria);
        if i < n {
          assert rows[..n][i] == rows[i];
        }
      }
    }
  }

  lemma BrandsUnderContains(rows: seq<Row>, categoria: Option<Category>, b: Brand)
    ensures b in BrandsUnder(rows, categoria) <==> OccursUnder(rows, b, categoria)
  {
    BrandsMatchingContains(rows, categoria, b);
    DistinctListsFirstSeen(BrandsMatching(rows, categoria));
  }

  /** A NaN category selects no rows, so it lists no brands. */
  lemma NoBrandsUnderMissing(rows: seq<Row>)
    ensures BrandsUnder(rows, None) == []
  {
    var bs := BrandsUnder(rows, None);
    if bs != [] {
      BrandsUnderContains(rows, None, bs[0]);
    }
  }

  /** One turn of the outer loop: the brands listed under the new category
      get it, every other entry stays. */
  lemma FoldCategoriesStep(rows: seq<Row>, cs: seq<Option<Category>>, b: Brand)
    requires cs != []
    ensures
      var m, result := FoldCategories(rows, cs[..|cs| - 1]), FoldCategories(rows, cs);
      if OccursUnder(rows, b, cs[|cs| - 1]) then
        cs[|cs| - 1].Some? && b in result && result[b] == cs[|cs| - 1].value
      else
        (b in result <==> b in m) && (b in m ==> result[b] == m[b])
  {
    BrandsUnderContains(rows, cs[|cs| - 1], b);
  }

  /** The brand occurs under one of `cs` exactly when it occurs under one of
      its prefix or under its last element. */
  lemma OccursUnderSomeStep(rows: seq<Row>, b: Brand, cs: seq<Option<Category>>)
    requires cs != []
    ensures OccursUnderSome(rows, b, cs) <==>
      OccursUnderSome(rows, b, cs[..|cs| - 1]) || OccursUnder(rows, b, cs[|cs| - 1])
  {
    var n := |cs| - 1;
    var prefix := cs[..n];
    if exists i :: 0 <= i < |cs| && OccursUnder(rows, b, cs[i]) {
      var i :| 0 <= i < |cs| && OccursUnder(rows, b, cs[i]);
      if i < n {
        assert prefix[i] == cs[i];
      }
    }
    if exists i :: 0 <= i < n && OccursUnder(rows, b, prefix[i]) {
      var i :| 0 <= i < n && OccursUnder(rows, b, prefix[i]);
      assert cs[i] == prefix[i];
    }
  }

  /** After the outer loop over `cs`, a brand is mapped exactly when it occurs
      under one of `cs`. */
  lemma {:induction false} FoldCategoriesKeys(rows: seq<Row>, cs: seq<Option<Category>>, b: Brand)
    ensures b in FoldCategories(rows, cs) <==> exists i :: 0 <= i < |cs| && OccursUnder(rows, b, cs[i])
    decreases |cs|
  {
    if cs != [] {
      var n := |cs| - 1;
      var prefix := cs[..n];
      FoldCategoriesKeys(rows, prefix, b);
      FoldCategoriesStep(rows, cs, b);
      OccursUnderSomeStep(rows, b, cs);
    }
  }

  /** A category under which the brand does not occur leaves its last
      occurrence where it was. */
  lemma LastOccurrenceExtend(rows: seq<Row>, b: Brand, cs: seq<Option<Category>>, i: int)
    requires cs != []
    requires LastOccurrence(rows, b, cs[..|cs| - 1], i)
    requires !OccursUnder(rows, b, cs[|cs| - 1])
    ensures LastOccurrence(rows, b, cs, i)
  {
    var prefix := cs[..|cs| - 1];
    assert cs[i] == prefix[i];
    forall j | i < j < |cs| ensures !OccursUnder(rows, b, cs[j]) {
      if j < |cs| - 1 {
        assert cs[j] == prefix[j];
      }
    }
  }

  /** After the outer loop over `cs`, a mapped brand is mapped to the last of
      `cs` under which it occurs. */
  lemma {:induction false} FoldCategoriesLastWins(rows: seq<Row>, cs: seq<Option<Category>>, b: Brand)
    requires b in FoldCategories(rows, cs)
    ensures exists i :: LastOccurrence(rows, b, cs, i) && cs[i] == Some(FoldCategories(rows, cs)[b])
    decreases |cs|
  {
    var n := |cs| - 1;
    var prefix := cs[..n];
    var m := FoldCategories(rows, prefix);
    var result := FoldCategories(rows, cs);
    FoldCategoriesStep(rows, cs, b);
    if OccursUnder(rows, b, cs[n]) {
      assert LastOccurrence(rows, b, cs, n);
    } else {
      FoldCategoriesLastWins(rows, prefix, b);
      var i :| LastOccurrence(rows, b, prefix, i) && prefix[i] == Some(m[b]);
      LastOccurrenceExtend(rows, b, cs, i);
      assert cs[i] == Some(result[b]);
    }
  }

  /** In `categorias_por_marca` a brand has an entry exactly when some row
      gives it a (non-NaN) category. */
  lemma CategoryMapKeys(rows: seq<Row>, b: Brand)
    ensures b in CategoryMap(rows) <==>
      exists k :: 0 <= k < |rows| && rows[k].brand == b && rows[k].category.Some?
  {
    var col := CategoryColumn(rows);
    var cs := Distinct(col);
    DistinctListsFirstSeen(col);
    FoldCategoriesKeys(rows, cs, b);
    if exists k :: 0 <= k < |rows| && rows[k].brand == b && rows[k].category.Some? {
      var k :| 0 <= k < |rows| && rows[k].brand == b && rows[k].category.Some?;
      assert col[k] in cs;
      var i :| 0 <= i < |cs| && cs[i] == col[k];
      assert OccursUnder(rows, b, cs[i]);
    }
    if b in CategoryMap(rows) {
      var i :| 0 <= i < |cs| && OccursUnder(rows, b, cs[i]);
      var k :| 0 <= k < |rows| && rows[k].brand == b && Matches(rows[k].category, cs[i]);
    }
  }

  /** A mapped brand is mapped to the last category, in first-seen category
      order, under which it occurs: later categories overwrite earlier ones. */
  lemma CategoryMapLastWins(rows: seq<Row>, b: Brand)
    requires b in CategoryMap(rows)
    ensures exists i ::
      LastOccurrence(rows, b, CategoryList(rows), i) && CategoryList(rows)[i] == Some(CategoryMap(rows)[b])
  {
    FoldCategoriesLastWins(rows, CategoryList(rows), b);
  }

  /** A brand observed under exactly one category is mapped to it. */
  lemma SingleCategory(rows: seq<Row>, b: Brand, c: Category)
    requires exists k :: 0 <= k < |rows| && rows[k].brand == b && rows[k].category == Some(c)
    requires forall k :: 0 <= k < |rows| && rows[k].brand == b && rows[k].category.Some? ==>
      rows[k].category == Some(c)
    ensures b in CategoryMap(rows) && CategoryMap(rows)[b] == c
  {
    CategoryMapKeys(rows, b);
    CategoryMapLastWins(rows, b);
    var cs := CategoryList(rows);
    var i :| LastOccurrence(rows, b, cs, i) && cs[i] == Some(CategoryMap(rows)[b]);
    var k :| 0 <= k < |rows| && rows[k].brand == b && Matches(rows[k].category, cs[i]);
  }

  /** Building `categorias_por_marca`: for each distinct category, in order,
      and each of its distinct brands, write the category for the brand. */
  method BuildCategoryMap(rows: seq<Row>) returns (categoriasPorMarca: map<Brand, Category>)
    ensures categoriasPorMarca == CategoryMap(rows)
  {
    var categorias := CategoryList(rows);
    categoriasPorMarca := map[];
    for i := 0 to |categorias|
      invariant categoriasPorMarca == FoldCategories(rows, categorias[..i])
    {
      var categoria := categorias[i];
      var marcasCategoria := BrandsUnder(rows, categoria);
      if categoria.None? {
        NoBrandsUnderMissing(rows);
      }
      ghost var before := categoriasPorMarca;
      for j := 0 to |marcasCategoria|
        invariant categoria.Some? ==>
          categoriasPorMarca == AssignAll(before, marcasCategoria[..j], categoria.value)
        invariant categoria.None? ==> categoriasPorMarca == before
      {
        categoriasPorMarca := categoriasPorMarca[marcasCategoria[j] := categoria.value];
        assert marcasCategoria[..j + 1][..j] == marcasCategoria[..j];
      }
      assert marcasCategoria[..|marcasCategoria|] == marcasCategoria;
      assert categorias[..i + 1][..i] == categorias[..i];
    }
    assert categorias[..|categorias|] == categorias;
  }

  /** One synthesized row after stamping: `row['Categoria'] = ...` when its
      brand has an entry. */
  function StampRow(row: NewRow, categoriasPorMarca: map<Brand, Category>): NewRow {
    if row.brand in categoriasPorMarca then row.(category := Some(categoriasPorMarca[row.brand])) else row
  }

  /** The synthesized rows after the stamping loop: same number and order,
      same brand, region and year; a row gets the category of its brand
      exactly when the brand has an entry, and is otherwise unchanged. */
  function Stamped(newRows: seq<NewRow>, categoriasPorMarca: map<Brand, Category>): (r: seq<NewRow>)
    ensures |r| == |newRows|
    ensures forall i :: 0 <= i < |newRows| ==>
      && r[i].brand == newRows[i].brand
      && r[i].region == newRows[i].region
      && r[i].year == newRows[i].year
      && (newRows[i].brand in categoriasPorMarca ==> r[i].category == Some(categoriasPorMarca[newRows[i].brand]))
      && (newRows[i].brand !in categoriasPorMarca ==> r[i] == newRows[i])
  {
    seq(|newRows|, i requires 0 <= i < |newRows| => StampRow(newRows[i], categoriasPorMarca))
  }

  /** A list whose every row is the stamped counterpart of the original's
      row at the same place is the stamped list. */
  lemma StampedPointwise(original: seq<NewRow>, updated: seq<NewRow>, categoriasPorMarca: map<Brand, Category>)
    requires |updated| == |original|
    requires forall k :: 0 <= k < |original| ==> updated[k] == StampRow(original[k], categoriasPorMarca)
    ensures updated == Stamped(original, categoriasPorMarca)
  {
  }

  /** The second loop of `asignar_categorias_nuevas_filas`: every row whose
      brand has an entry gets that entry as its category, in place. */
  method StampRows(newRows: array<NewRow>, categoriasPorMarca: map<Brand, Category>)
    modifies newRows
    ensures newRows[..] == Stamped(old(newRows[..]), categoriasPorMarca)
  {
    ghost var original := newRows[..];
    for i := 0 to newRows.Length
      invariant forall k :: 0 <= k < i ==> newRows[k] == StampRow(original[k], categoriasPorMarca)
      invariant forall k :: i <= k < newRows.Length ==> newRows[k] == original[k]
    {
      var marca := newRows[i].brand;
      if marca in categoriasPorMarca {
        newRows[i] := newRows[i].(category := Some(categoriasPorMarca[marca]));
      }
    }
    StampedPointwise(original, newRows[..], categoriasPorMarca);
  }

  /** `asignar_categorias_nuevas_filas`: build the dictionary, then update
      each synthesized row of the list in place. */
  method AssignCategories(newRows: array<NewRow>, rows: seq<Row>)
    modifies newRows
    ensures newRows[..] == Stamped(old(newRows[..]), CategoryMap(rows))
  {
    var categoriasPorMarca := BuildCategoryMap(rows);
    StampRows(newRows, categoriasPorMarca);
  }
}
