/** The rows the pipeline reads, builds and writes. Column names of the
    tables are given next to each field. */
module Records {
  import opened Wrappers

  type Brand = string     // Marca
  type Region = string    // Region
  type Category = string  // Categoria

  /** A day/month/year triple as written in the `Fecha` column; it need not
      name a real calendar day. */
  datatype Date = Date(day: int, month: int, year: int)

  predicate IsLeapYear(year: int) {
    year % 4 == 0 && (year % 100 != 0 || year % 400 == 0)
  }

  function DaysInMonth(month: int, year: int): (n: int)
    requires 1 <= month <= 12
    ensures 28 <= n <= 31
    ensures n == 29 <==> month == 2 && IsLeapYear(year)
  {
    if month == 2 then (if IsLeapYear(year) then 29 else 28)
    else if month == 4 || month == 6 || month == 9 || month == 11 then 30
    else 31
  }

  /** The dates `pd.to_datetime(..., format='%d/%m/%Y')` accepts. */
  predicate ValidDate(d: Date) {
    1 <= d.month <= 12 && 1 <= d.day <= DaysInMonth(d.month, d.year)
  }

  /** One row of the loaded input: Marca, Region, Periodo, Fecha, Categoria
      (None when the cell is empty), CajasVirt, Venta. */
  datatype RawRecord = RawRecord(
    brand: Brand, region: Region, period: string, date: Date,
    category: Option<Category>, volume: int, sales: int)

  /** One row of the normalised and of the output table. Periodo, Fecha and
      MES are None on synthesized rows, which do not carry those columns. */
  datatype Row = Row(
    brand: Brand, region: Region, period: Option<string>, date: Option<Date>,
    year: int, month: Option<int>, category: Option<Category>,
    volume: int, sales: int)

  /** One synthesized row before the merge: the dictionary
      {Marca, Region, AÑO} and, once stamped, Categoria. */
  datatype NewRow = NewRow(brand: Brand, region: Region, year: int, category: Option<Category>)

  /** The (brand, region, year) identity of a row. */
  datatype Key = Key(brand: Brand, region: Region, year: int)

  function RowKey(r: Row): Key {
    Key(r.brand, r.region, r.year)
  }

  function NewRowKey(r: NewRow): Key {
    Key(r.brand, r.region, r.year)
  }

  /** The keys of a table, row by row. */
  function Keys(rows: seq<Row>): (ks: seq<Key>)
    ensures |ks| == |rows|
  {
    seq(|rows|, i requires 0 <= i < |rows| => RowKey(rows[i]))
  }

  function NewRowKeys(rows: seq<NewRow>): (ks: seq<Key>)
    ensures |ks| == |rows|
  {
    seq(|rows|, i requires 0 <= i < |rows| => NewRowKey(rows[i]))
  }
}
