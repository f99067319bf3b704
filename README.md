# Liquor sales grid completion, modelled in Dafny

`Prueba-1.py` reads monthly liquor sales tables (brand, region, period, date,
category, virtual cases, sales) and writes one completed table. This project
models the core of that completion step. The core has four transforms:

1. **Normalise** (`procesar_base_datos`). Keep the rows whose `Periodo` is
   `"MES"`. Then derive the year (`AÑO`) and month (`MES`) of each kept row from
   its `Fecha` date. A single unparseable date makes the whole call fail.
2. **Grid** (`generar_nuevas_filas`). Take the distinct brands, regions and
   years in first-seen order, which is what pandas' `unique()` returns. Then
   append one `{Marca, Region, AÑO}` row per combination, in brand, region,
   year loop order.
3. **Category backfill** (`asignar_categorias_nuevas_filas`). First build the
   brand to category dictionary: for each distinct category, each of its
   distinct brands is assigned that category, overwriting any earlier entry.
   Then, in place, give every synthesized row whose brand is in the dictionary
   that brand's category.
4. **Merge** (the tail of `procesar_licores`). Set `CajasVirt` and `Venta` to 0
   on the synthesized rows. Then concatenate the observed rows and the
   synthesized rows, in that order, without deduplication.

The modules, one file each:

- `wrappers.dfy` (`Wrappers`): `Option`. `None` stands for an empty (NaN) cell
  or for a failed run.
- `sequences.dfy` (`Sequences`): `Distinct`, which models `Series.unique()`,
  and facts about duplicate-free sequences.
- `records.dfy` (`Records`): the row types, keys and calendar dates.
- `normalize.dfy` (`Normalize`): `procesar_base_datos`.
- `grid.dfy` (`GridGeneration`): `generar_nuevas_filas`. It is an imperative
  method with three nested loops, proved equal to the specification function
  `Grid`.
- `categories.dfy` (`Categories`): `asignar_categorias_nuevas_filas`.
  - It has two imperative methods. `BuildCategoryMap` builds the dictionary
    with nested loops. `StampRows` updates an `array` of synthesized rows in
    place.
  - Both are proved equal to specification functions (`CategoryMap`,
    `Stamped`).
- `merge.dfy` (`Merging`): zero-filling and concatenation.
- `pipeline.dfy` (`Pipeline`): `procesar_licores` from normalisation on.
  - It states the whole-pipeline properties: output shape, the synthesized row
    at each grid position, key counts and completeness.
  - It also proves two worked examples: one observed row gives 2 output rows;
    3 observed rows over 2 brands, 2 regions and 2 years give 11 output rows.

Where descriptions of this tool and its code differ, the model follows the
code:

- **Observed keys are synthesized again.** The grid is not filtered against
  the observed keys, so every observed (brand, region, year) key occurs at
  least twice in the output (`Pipeline.ObservedKeysDuplicated`).
- **The last category wins.** The category dictionary keeps the last category
  written for a brand, in first-seen category order, not the first one
  (`Categories.CategoryMapLastWins`).

The pipeline is a set of Dafny functions and methods with no hidden state.
Running it twice on the same rows therefore gives the same output.

## Model

| member | source | states |
|---|---|---|
| Sequences.DistinctListsFirstSeen | Prueba-1.py:42-44 | `unique()` as modelled lists each value of the column exactly once, lists only values of the column, and keeps their first-occurrence order |
| Sequences.DistinctIsUnique | Prueba-1.py:42-44 | any listing that is duplicate-free, has the column's values and keeps first-occurrence order is `Distinct` of the column, so the dimension lists are fully determined |
| Records.DaysInMonth | Prueba-1.py:27 | the day count `%d/%m/%Y` parsing allows in a month is 28 to 31, and it is 29 exactly for February of a Gregorian leap year |
| Normalize.KeepMonthlyExactly | Prueba-1.py:24 | the `Periodo == 'MES'` filter keeps a row if and only if its period is MES; the kept rows are unchanged and keep their input order |
| Normalize.ProcessDatabaseFails | Prueba-1.py:24-27 | normalisation fails exactly when some monthly row has a date that does not parse; dates of other periods are never parsed |
| Normalize.ProcessDatabaseRows | Prueba-1.py:24-29 | on success, row k comes from the k-th monthly input row: AÑO is its date's year, MES its month (so 1..12), and every other column is copied |
| GridGeneration.BrandsListed | Prueba-1.py:42 | `marcas` is duplicate-free, in first-seen order, and holds a brand exactly when some row carries it |
| GridGeneration.RegionsListed | Prueba-1.py:43 | the same for `regiones` |
| GridGeneration.YearsListed | Prueba-1.py:44 | the same for `años` |
| GridGeneration.GenerateNewRows | Prueba-1.py:37-53 | the three nested append loops produce exactly `Grid(marcas, regiones, años)` |
| GridGeneration.GridSize | Prueba-1.py:47-53 | the grid has \|marcas\| * \|regiones\| * \|años\| rows, so it is empty when any dimension (or the input) is empty |
| GridGeneration.GridAt | Prueba-1.py:48-51 | the row at index (i*\|regiones\| + j)*\|años\| + k is (marcas[i], regiones[j], años[k]) with no category |
| GridGeneration.GridContains | Prueba-1.py:48-51 | a row is in the grid if and only if its brand, region and year are in the dimension lists and it has no category |
| GridGeneration.GridNoDup | Prueba-1.py:48-51 | with duplicate-free dimension lists, no two grid rows share a (brand, region, year) key |
| Categories.BrandsUnderContains | Prueba-1.py:59 | a brand is in `marcas_categoria` for a category exactly when some row carries both |
| Categories.NoBrandsUnderMissing | Prueba-1.py:59 | an empty (NaN) category matches no row under `==`, so it lists no brands |
| Categories.AssignAll | Prueba-1.py:60-61 | after the inner loop every brand of the list maps to the category; every other entry is kept |
| Categories.FoldCategoriesKeys | Prueba-1.py:58-61 | after the outer loop over any category list, a brand has an entry exactly when it occurs under one of those categories |
| Categories.FoldCategoriesLastWins | Prueba-1.py:58-61 | after the outer loop, a mapped brand maps to the last listed category under which it occurs |
| Categories.BuildCategoryMap | Prueba-1.py:57-61 | the nested loops over `unique()` categories and their brands build exactly `CategoryMap` |
| Categories.CategoryMapKeys | Prueba-1.py:57-61 | a brand has an entry in `categorias_por_marca` exactly when some row gives it a non-empty category |
| Categories.CategoryMapLastWins | Prueba-1.py:57-61 | a brand maps to the last category, in first-seen category order, under which it occurs |
| Categories.SingleCategory | Prueba-1.py:57-61 | a brand observed under exactly one category maps to that category |
| Categories.Stamped | Prueba-1.py:64-67 | stamping keeps the number and order of rows and their brand, region and year; a row gets its brand's category when the brand has an entry and is otherwise unchanged |
| Categories.StampRows | Prueba-1.py:64-67 | the in-place loop over the rows turns the array into exactly `Stamped` of its old contents |
| Categories.AssignCategories | Prueba-1.py:55-67 | the whole function leaves the rows equal to `Stamped(old rows, CategoryMap(observed))` |
| Merging.Merge | Prueba-1.py:83-91 | the output holds the observed rows first, unchanged and in order, then every synthesized row in grid order with its key and category, CajasVirt = Venta = 0, and empty Periodo, Fecha and MES |
| Merging.MergeKeepsDuplicates | Prueba-1.py:90 | the output keys are the observed keys followed by the synthesized keys, so no row is deduplicated away |
| Pipeline.ProcessLiquors | Prueba-1.py:69-93 | the imperative pipeline (normalise, generate, stamp in place, merge) returns exactly `Process(raw)` |
| Pipeline.ProcessFails | Prueba-1.py:74 | for inputs that carry every column the code reads, the run fails exactly when a monthly row has an unparseable date |
| Pipeline.CompleteShape | Prueba-1.py:77-91 | the output has \|observed\| + \|marcas\| * \|regiones\| * \|años\| rows and begins with the observed rows unchanged |
| Pipeline.StampedGridAt | Prueba-1.py:47-67 | stamped grid row (i*\|regiones\| + j)*\|años\| + k has brand i, region j, year k, and the category of brand i when the dictionary has one |
| Pipeline.CompleteSynthesizedRow | Prueba-1.py:77-91 | output row \|observed\| + (i*\|regiones\| + j)*\|años\| + k has key (marcas[i], regiones[j], años[k]), zero measures, and its brand's category exactly when the dictionary has the brand |
| Pipeline.CompleteKeyCount | Prueba-1.py:77-91 | a key occurs in the output once per observed row carrying it, plus once when it is a combination of the dimension lists |
| Pipeline.ObservedKeysDuplicated | Prueba-1.py:77-91 | every observed key occurs in the output exactly once more than in the input, hence at least twice |
| Pipeline.CompleteCoversGrid | Prueba-1.py:77-91 | every combination of a listed brand, region and year has a zero-filled synthesized row in the output |
| Pipeline.SingleRowScenario | Prueba-1.py:69-93 | one observed row (A, North, 2023, Spirits) gives that row followed by (A, North, 2023, Spirits) with zero measures |
| Pipeline.SparseScenario | Prueba-1.py:69-93 | 3 observed rows over brands {A,B}, regions {North,South} and years {2022,2023} give 11 output rows; each of the three observed keys occurs twice and a missing combination once |

## Left out

- Loading the input files and concatenating them (`cargar_base_datos`, Prueba-1.py:7-20) is file I/O. The model starts from the loaded rows.
- Writing the output CSV and the success or error dialogs (`guardar_base_datos`) are I/O and UI. So are the tkinter window, listbox, buttons and file pickers, and their global widget state.
- `pd.to_datetime` (Prueba-1.py:27) is a foreign library call. A date is modelled as an already split (day, month, year) triple, and parsing succeeds exactly for real calendar days (`ValidDate`). Three things are not modelled:
  - the text format `%d/%m/%Y`;
  - pandas' Timestamp year range;
  - the exception type raised on failure, which is modelled as `None`.
- Pipeline.ProcessFails: a missing Periodo, Fecha, Marca, Region or Categoria column raises `KeyError` (Prueba-1.py:24, 27, 42-43, 58). The fixed record type always carries these columns, so the failure condition covers only inputs that have them.
- Dropping the fixed list of columns (Prueba-1.py:32-33) is not modelled. The row types simply do not carry those columns. The `KeyError` pandas raises when one of them is missing is not modelled either.
- The unused empty frame `bebidas_empty_df` built at Prueba-1.py:39 has no effect and is not modelled.
- In the input, empty (NaN) cells are modelled only in `Categoria`, as `None`. NaN in `Marca`, `Region`, `Periodo` or `Fecha` is not modelled. Neither is pandas' handling of NaN inside `unique()` for those columns. In the output, `None` also stands for the NaN that `concat` leaves in the Periodo, Fecha and MES of synthesized rows.
- pandas dtypes are not modelled. One example is integer columns turning into floats once `concat` adds NaN. Measures and years are unbounded integers.
- Column order and the row index labels (`reset_index`, Prueba-1.py:18 and 91) are not modelled. A row's position in the output sequence plays the role of its index.
- Categories.StampRows: the array is a copy of the list of row dictionaries. Aliasing between those dictionaries and other references is not modelled.
