/** validations: normalise headers, coerce types, fill missing numbers with zero, drop duplicate
    rows, drop rows without a positive quantity, then check every kept row's total. */
module Validation {
  import opened Wrappers
  import opened Seqs
  import opened Table
  import opened Columns

  /** What pd.to_numeric(errors='coerce') and pd.to_datetime(errors='raise') make of one text cell;
      None is NaN for numbers and an exception for dates. */
  datatype Parsers = Parsers(number: string -> Option<real>, date: string -> Option<Timestamp>)

  /** A row after type coercion and before fillna. */
  datatype CoercedRow = CoercedRow(
    date: Option<Timestamp>, product: string,
    quantity: Option<real>, unitPrice: Option<real>, total: Option<real>,
    extra: seq<string>)

  /** How many headers are `x`. */
  function Count(columns: seq<string>, x: string): nat {
    if columns == [] then 0
    else (if columns[0] == x then 1 else 0) + Count(columns[1..], x)
  }

  /** The names among `names` that head more than one column, in the order of `names`. */
  function RepeatedFrom(names: seq<string>, columns: seq<string>): (r: seq<string>)
    ensures forall x :: x in r <==> x in names && Count(columns, x) > 1
    ensures Subsequence(r, names)
  {
    if names == [] then []
    else if Count(columns, names[0]) > 1 then [names[0]] + RepeatedFrom(names[1..], columns)
    else RepeatedFrom(names[1..], columns)
  }

  function RepeatedColumns(columns: seq<string>): seq<string> {
    RepeatedFrom(CanonicalNames, columns)
  }

  /** The position of column `name`. */
  function IndexOf(columns: seq<string>, name: string): (i: nat)
    requires name in columns
    ensures i < |columns| && columns[i] == name
  {
    if columns[0] == name then 0 else 1 + IndexOf(columns[1..], name)
  }

  /** The cells of the columns that are not canonical, in column order. */
  function ExtraCells(columns: seq<string>, row: seq<string>): seq<string>
    requires |row| == |columns|
  {
    if columns == [] then []
    else (if columns[0] in CanonicalNames then [] else [row[0]]) + ExtraCells(columns[1..], row[1..])
  }

  /** One row after pd.to_numeric on the three numeric columns and pd.to_datetime on the date column. */
  function Coerce(columns: seq<string>, row: seq<string>, parse: Parsers): CoercedRow
    requires HasCanonicalColumns(columns) && |row| == |columns|
  {
    CoercedRow(
      parse.date(row[IndexOf(columns, DateColumn)]),
      row[IndexOf(columns, ProductColumn)],
      parse.number(row[IndexOf(columns, QuantityColumn)]),
      parse.number(row[IndexOf(columns, UnitPriceColumn)]),
      parse.number(row[IndexOf(columns, TotalColumn)]),
      ExtraCells(columns, row))
  }

  function CoerceAll(columns: seq<string>, cells: seq<seq<string>>, parse: Parsers): (r: seq<CoercedRow>)
    requires HasCanonicalColumns(columns) && Rectangular(columns, cells)
  {
    seq(|cells|, i requires 0 <= i < |cells| => Coerce(columns, cells[i], parse))
  }

  /** pd.to_datetime with errors='raise' succeeds: every date cell parsed. */
  predicate DatesParsed(rows: seq<CoercedRow>) {
    forall i :: 0 <= i < |rows| ==> rows[i].date.Some?
  }

  /** fillna with 0 on the three numeric columns. */
  function FillNa(r: CoercedRow): Row
    requires r.date.Some?
  {
    Row(r.date.value, r.product, r.quantity.GetOr(0.0), r.unitPrice.GetOr(0.0), r.total.GetOr(0.0), r.extra)
  }

  function FillNaAll(rows: seq<CoercedRow>): seq<Row>
    requires DatesParsed(rows)
  {
    seq(|rows|, i requires 0 <= i < |rows| => FillNa(rows[i]))
  }

  /** How many rows have a positive quantity. */
  function PositiveCount(rows: seq<Row>): nat {
    if rows == [] then 0
    else (if rows[0].quantity > 0.0 then 1 else 0) + PositiveCount(rows[1..])
  }

  /** df[df['Quantidade'] > 0]: the rows with a positive quantity, in order. */
  function PositiveQuantity(rows: seq<Row>): (r: seq<Row>)
    ensures forall x :: x in r <==> x in rows && x.quantity > 0.0
    ensures Subsequence(r, rows)
    ensures |r| == PositiveCount(rows)
  {
    if rows == [] then []
    else if rows[0].quantity > 0.0 then [rows[0]] + PositiveQuantity(rows[1..])
    else PositiveQuantity(rows[1..])
  }

  /** The consistency rule: unit price times quantity is the recorded total. */
  predicate Consistent(r: Row) {
    r.unitPrice * r.quantity == r.total
  }

  /** The whole pipeline as one function of the loaded headers and cells. */
  function Validated(columns: seq<string>, cells: seq<seq<string>>, parse: Parsers): Result<seq<Row>, SalesError>
    requires Rectangular(columns, cells)
  {
    var renamed := Renamed(columns);
    if MissingColumns(renamed) != [] then Failure(ColumnsMissing(MissingColumns(renamed)))
    else if RepeatedColumns(renamed) != [] then Failure(ColumnsRepeated(RepeatedColumns(renamed)))
    else
      var coerced := CoerceAll(renamed, cells, parse);
      if !DatesParsed(coerced) then Failure(UnparseableDate)
      else
        var kept := PositiveQuantity(DropDuplicates(FillNaAll(coerced)));
        if forall i :: 0 <= i < |kept| ==> Consistent(kept[i]) then Success(kept)
        else Failure(InconsistentTotals)
  }

  /** validations, step by step as the source runs it. The steps are those of `Validated`; the
      only behaviour this method adds is the in-place rename of the caller's frame (through
      NormalizeColumnNames) and the allocation of a new frame for the result. */
  method Validations(df: Frame, parse: Parsers) returns (r: Result<SalesFrame, SalesError>)
    requires df.Valid()
    modifies df
    ensures df.Valid()
    ensures df.columns == Renamed(old(df.columns)) && df.cells == old(df.cells)
    ensures r.Success? <==> Validated(old(df.columns), old(df.cells), parse).Success?
    ensures r.Success? ==>
      fresh(r.value) && r.value.dateKind == Datetime && r.value.rows == Validated(old(df.columns), old(df.cells), parse).value
    ensures r.Failure? ==> r.error == Validated(old(df.columns), old(df.cells), parse).error
  {
    var normalized := NormalizeColumnNames(df);
    if normalized.Failure? {
      return Failure(normalized.error);
    }
    MissingEmptyIff(df.columns);
    var repeated := RepeatedColumns(df.columns);
    if repeated != [] {
      return Failure(ColumnsRepeated(repeated));
    }
    var coerced := CoerceAll(df.columns, df.cells, parse);
    if !DatesParsed(coerced) {
      return Failure(UnparseableDate);
    }
    var rows := FillNaAll(coerced);
    rows := DropDuplicates(rows);
    rows := PositiveQuantity(rows);
    if !(forall i :: 0 <= i < |rows| ==> Consistent(rows[i])) {
      return Failure(InconsistentTotals);
    }
    var validated := new SalesFrame(rows, Datetime);
    return Success(validated);
  }

  // ---- Properties of the pipeline ----

  /** The table gets past the column checks and the date parsing. */
  ghost predicate Admissible(columns: seq<string>, cells: seq<seq<string>>, parse: Parsers) {
    && Rectangular(columns, cells)
    && HasCanonicalColumns(Renamed(columns))
    && RepeatedColumns(Renamed(columns)) == []
    && DatesParsed(CoerceAll(Renamed(columns), cells, parse))
  }

  /** The rows as they stand after fillna, one per input row. */
  ghost function FilledRows(columns: seq<string>, cells: seq<seq<string>>, parse: Parsers): seq<Row>
    requires Admissible(columns, cells, parse)
  {
    FillNaAll(CoerceAll(Renamed(columns), cells, parse))
  }

  /** Validation fails on the columns exactly when some canonical name has none of its spellings
      among the headers, and then names exactly the missing ones. */
  lemma ValidatedMissingColumns(columns: seq<string>, cells: seq<seq<string>>, parse: Parsers)
    requires Rectangular(columns, cells)
    ensures Validated(columns, cells, parse).Failure? && Validated(columns, cells, parse).error.ColumnsMissing?
      <==> exists k :: 0 <= k < |ColumnMapping| && !Supplies(columns, k)
    ensures Validated(columns, cells, parse).Failure? && Validated(columns, cells, parse).error.ColumnsMissing?
      ==> Validated(columns, cells, parse).error.names == MissingColumns(Renamed(columns))
  {
    NormalizeFailsIff(columns);
  }

  /** Validation gets past columns and dates exactly for admissible tables; then it either
      succeeds or fails on consistency. */
  lemma ValidatedPastColumnsIff(columns: seq<string>, cells: seq<seq<string>>, parse: Parsers)
    requires Rectangular(columns, cells)
    ensures Admissible(columns, cells, parse) <==>
      Validated(columns, cells, parse).Success? || Validated(columns, cells, parse) == Failure(InconsistentTotals)
  {
    MissingEmptyIff(Renamed(columns));
  }

  /** A date cell that does not parse rejects the whole table, even in a row that would be dropped. */
  lemma UnparseableDateRejects(columns: seq<string>, cells: seq<seq<string>>, parse: Parsers, i: nat)
    requires Rectangular(columns, cells)
    requires HasCanonicalColumns(Renamed(columns)) && RepeatedColumns(Renamed(columns)) == []
    requires i < |cells| && Coerce(Renamed(columns), cells[i], parse).date.None?
    ensures Validated(columns, cells, parse) == Failure(UnparseableDate)
  {
    MissingEmptyIff(Renamed(columns));
    assert CoerceAll(Renamed(columns), cells, parse)[i].date.None?;
  }

  /** A successful result keeps only rows with a positive quantity and a consistent total,
      and repeats no row. */
  lemma ValidatedRows(columns: seq<string>, cells: seq<seq<string>>, parse: Parsers)
    requires Rectangular(columns, cells)
    requires Validated(columns, cells, parse).Success?
    ensures Distinct(Validated(columns, cells, parse).value)
    ensures forall x :: x in Validated(columns, cells, parse).value ==> x.quantity > 0.0 && Consistent(x)
  {
    MissingEmptyIff(Renamed(columns));
    var filled := FillNaAll(CoerceAll(Renamed(columns), cells, parse));
    var deduped := DropDuplicates(filled);
    DropDuplicatesSpec(filled);
    SubsequenceDistinct(PositiveQuantity(deduped), deduped);
  }

  /** A successful result holds exactly the filled rows with a positive quantity. */
  lemma ValidatedContents(columns: seq<string>, cells: seq<seq<string>>, parse: Parsers)
    requires Rectangular(columns, cells)
    requires Validated(columns, cells, parse).Success?
    ensures Admissible(columns, cells, parse)
    ensures forall x :: x in Validated(columns, cells, parse).value <==>
      x in FilledRows(columns, cells, parse) && x.quantity > 0.0
  {
    MissingEmptyIff(Renamed(columns));
    DropDuplicatesSpec(FilledRows(columns, cells, parse));
  }

  /** The consistency check is all or nothing: validation of an admissible table succeeds exactly
      when every filled row with a positive quantity is consistent, and otherwise returns no rows. */
  lemma ConsistencyAllOrNothing(columns: seq<string>, cells: seq<seq<string>>, parse: Parsers)
    requires Admissible(columns, cells, parse)
    ensures Validated(columns, cells, parse).Success? <==>
      forall x :: x in FilledRows(columns, cells, parse) && x.quantity > 0.0 ==> Consistent(x)
    ensures !Validated(columns, cells, parse).Success? ==> Validated(columns, cells, parse) == Failure(InconsistentTotals)
  {
    MissingEmptyIff(Renamed(columns));
    var filled := FilledRows(columns, cells, parse);
    DropDuplicatesSpec(filled);
    var kept := PositiveQuantity(DropDuplicates(filled));
    if forall x :: x in filled && x.quantity > 0.0 ==> Consistent(x) {
      assert forall i :: 0 <= i < |kept| ==> Consistent(kept[i]) by {
        forall i | 0 <= i < |kept| ensures Consistent(kept[i]) {
          assert kept[i] in kept;
        }
      }
    } else {
      var x :| x in filled && x.quantity > 0.0 && !Consistent(x);
      assert x in kept;
    }
  }

  /** A row whose quantity does not parse gets quantity 0, so it is dropped, never rejected. */
  lemma UnparsedQuantityDropped(columns: seq<string>, cells: seq<seq<string>>, parse: Parsers, i: nat)
    requires Admissible(columns, cells, parse)
    requires i < |cells| && CoerceAll(Renamed(columns), cells, parse)[i].quantity.None?
    ensures FilledRows(columns, cells, parse)[i].quantity == 0.0
    ensures Validated(columns, cells, parse).Success? ==>
      FilledRows(columns, cells, parse)[i] !in Validated(columns, cells, parse).value
  {
  }

  /** A row with a positive quantity whose unit price does not parse gets price 0, so a non-zero
      total makes the whole table inconsistent. */
  lemma UnparsedPriceRejects(columns: seq<string>, cells: seq<seq<string>>, parse: Parsers, i: nat)
    requires Admissible(columns, cells, parse)
    requires i < |cells|
    requires CoerceAll(Renamed(columns), cells, parse)[i].unitPrice.None?
    requires CoerceAll(Renamed(columns), cells, parse)[i].quantity.GetOr(0.0) > 0.0
    requires CoerceAll(Renamed(columns), cells, parse)[i].total.GetOr(0.0) != 0.0
    ensures Validated(columns, cells, parse) == Failure(InconsistentTotals)
  {
    var filled := FilledRows(columns, cells, parse);
    assert filled[i] in filled && !Consistent(filled[i]);
    ConsistencyAllOrNothing(columns, cells, parse);
  }

  /** Keeping every row with a positive quantity changes nothing when all are positive. */
  lemma {:induction false} PositiveQuantityKeepsAll(rows: seq<Row>)
    requires forall x :: x in rows ==> x.quantity > 0.0
    ensures PositiveQuantity(rows) == rows
  {
    if rows != [] {
      assert rows[0] in rows;
      PositiveQuantityKeepsAll(rows[1..]);
      assert rows == [rows[0]] + rows[1..];
    }
  }

  /** A table whose rows all have a positive quantity and a consistent total validates to its
      distinct rows, in first-occurrence order. */
  lemma CleanTableValidates(columns: seq<string>, cells: seq<seq<string>>, parse: Parsers)
    requires Admissible(columns, cells, parse)
    requires forall x :: x in FilledRows(columns, cells, parse) ==> x.quantity > 0.0 && Consistent(x)
    ensures Validated(columns, cells, parse) == Success(DropDuplicates(FilledRows(columns, cells, parse)))
  {
    MissingEmptyIff(Renamed(columns));
    var filled := FilledRows(columns, cells, parse);
    DropDuplicatesSpec(filled);
    PositiveQuantityKeepsAll(DropDuplicates(filled));
  }
}
