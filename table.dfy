/** The tables the pipeline works on: the frame as loaded from CSV and the validated sales frame. */
module Table {
  import opened Wrappers
  import opened Text

  // The five canonical column names.
  const DateColumn: string := "Data"
  const ProductColumn: string := "Produto"
  const QuantityColumn: string := "Quantidade"
  const UnitPriceColumn: string := "Preço Unitário"
  const TotalColumn: string := "Total de Vendas"

  /** The errors the pipeline raises (all of them ValueError in the source, told apart by message). */
  datatype SalesError =
    | ColumnsMissing(names: seq<string>)    // required columns absent after renaming
    | ColumnsRepeated(names: seq<string>)   // a canonical column present more than once after renaming
    | UnparseableDate                       // some date cell does not parse
    | InconsistentTotals                    // some kept row has unit price * quantity != total
    | NotDatetimeColumn(column: string)     // `.dt` used on a column that is absent or not datetime64

  /** The message of the two errors the pipeline raises itself; the others come from pandas. */
  function Message(e: SalesError): Option<string> {
    match e
    case ColumnsMissing(names) =>
      Some("O arquivo CSV está faltando as seguintes colunas obrigatórias: " + Join(names, ", "))
    case InconsistentTotals =>
      Some("A consistência dos dados está comprometida. O total de vendas não corresponde ao valor calculado.")
    case _ => None
  }

  /** Nanoseconds in one day. */
  const NanosPerDay: nat := 86_400_000_000_000

  /** A time of day, in nanoseconds since midnight. */
  type TimeOfDay = n: nat | n < NanosPerDay

  /** A pandas timestamp: a calendar day (days since an epoch) and the time within that day. */
  datatype Timestamp = Timestamp(day: int, nanos: TimeOfDay)

  /** One validated sales record. `extra` holds the cells of the non-canonical columns, in column order. */
  datatype Row = Row(date: Timestamp, product: string, quantity: real, unitPrice: real, total: real, extra: seq<string>)

  /** Every row has one cell per column. */
  predicate Rectangular(columns: seq<string>, cells: seq<seq<string>>) {
    forall i :: 0 <= i < |cells| ==> |cells[i]| == |columns|
  }

  /** A frame as read from the CSV file: header names and text cells. */
  class Frame {
    var columns: seq<string>
    var cells: seq<seq<string>>

    ghost predicate Valid()
      reads this
    {
      Rectangular(columns, cells)
    }

    constructor (columns: seq<string>, cells: seq<seq<string>>)
      requires Rectangular(columns, cells)
      ensures Valid() && this.columns == columns && this.cells == cells
    {
      this.columns := columns;
      this.cells := cells;
    }
  }

  /** The dtype of the date column: datetime64 after validation, Python `date` objects once truncated. */
  datatype DateKind = Datetime | CalendarDate

  /** A validated frame of sales rows. */
  class SalesFrame {
    var rows: seq<Row>
    var dateKind: DateKind

    constructor (rows: seq<Row>, dateKind: DateKind)
      ensures this.rows == rows && this.dateKind == dateKind
    {
      this.rows := rows;
      this.dateKind := dateKind;
    }
  }
}
