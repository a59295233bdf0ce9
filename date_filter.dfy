/** filter_by_date: the rows whose calendar day lies in an inclusive range. */
module DateFilter {
  import opened Wrappers
  import opened Seqs
  import opened Table

  /** `.dt.date`: a timestamp cut down to its calendar day. */
  function TruncateDate(x: Row): Row {
    x.(date := Timestamp(x.date.day, 0))
  }

  function TruncateDates(rows: seq<Row>): seq<Row> {
    seq(|rows|, i requires 0 <= i < |rows| => TruncateDate(rows[i]))
  }

  /** start <= day <= end, both bounds inclusive. */
  predicate InRange(x: Row, start: int, end: int) {
    start <= x.date.day <= end
  }

  /** How many rows have a day in [start, end]. */
  function InRangeCount(rows: seq<Row>, start: int, end: int): nat {
    if rows == [] then 0
    else (if InRange(rows[0], start, end) then 1 else 0) + InRangeCount(rows[1..], start, end)
  }

  /** The selection filter_by_date returns, computed without touching its input: the rows whose
      day is in [start, end], in their original order, with their dates truncated. */
  function FilterRows(rows: seq<Row>, start: int, end: int): (r: seq<Row>)
    ensures forall x :: x in r <==> x in TruncateDates(rows) && InRange(x, start, end)
    ensures Subsequence(r, TruncateDates(rows))
    ensures |r| == InRangeCount(rows, start, end)
  {
    if rows == [] then []
    else
      assert TruncateDates(rows) == [TruncateDate(rows[0])] + TruncateDates(rows[1..]);
      if InRange(rows[0], start, end) then [TruncateDate(rows[0])] + FilterRows(rows[1..], start, end)
      else FilterRows(rows[1..], start, end)
  }

  /** Filtering a filtered table by a second range is filtering by the intersection of the ranges. */
  lemma {:induction false} FilterRowsTwice(rows: seq<Row>, s1: int, e1: int, s2: int, e2: int)
    ensures FilterRows(FilterRows(rows, s1, e1), s2, e2)
      == FilterRows(rows, if s1 < s2 then s2 else s1, if e1 < e2 then e1 else e2)
  {
    if rows != [] {
      FilterRowsTwice(rows[1..], s1, e1, s2, e2);
    }
  }

  /** filter_by_date as written: it first overwrites the caller's date column with calendar dates,
      which leaves that column without the datetime dtype, then selects the rows. A column other
      than the datetime64 date column fails at `.dt`. */
  method FilterByDate(df: SalesFrame, start: int, end: int, column: string) returns (r: Result<SalesFrame, SalesError>)
    modifies df
    ensures old(df.dateKind) == Datetime && column == DateColumn ==>
      && df.rows == TruncateDates(old(df.rows)) && df.dateKind == CalendarDate
      && r.Success? && fresh(r.value)
      && r.value.rows == FilterRows(old(df.rows), start, end) && r.value.dateKind == CalendarDate
    ensures !(old(df.dateKind) == Datetime && column == DateColumn) ==>
      r == Failure(NotDatetimeColumn(column)) && unchanged(df)
  {
    if df.dateKind != Datetime || column != DateColumn {
      return Failure(NotDatetimeColumn(column));
    }
    var original := df.rows;
    df.rows := TruncateDates(df.rows);
    df.dateKind := CalendarDate;
    var selected := new SalesFrame(FilterRows(original, start, end), CalendarDate);
    return Success(selected);
  }

  /** The dashboard filters the validated frame for the line chart, then filters the same frame
      again for the bar chart; with the filter as written the second call always fails. */
  method DashboardDateFilters(df: SalesFrame, s1: int, e1: int, s2: int, e2: int)
    returns (daily: Result<SalesFrame, SalesError>, byProduct: Result<SalesFrame, SalesError>)
    requires df.dateKind == Datetime
    modifies df
    ensures daily.Success? && byProduct == Failure(NotDatetimeColumn(DateColumn))
  {
    daily := FilterByDate(df, s1, e1, DateColumn);
    byProduct := FilterByDate(df, s2, e2, DateColumn);
  }

  /** The filter as evidently intended: the same selection, on a copy, leaving the caller's frame as it was. */
  method FilterByDateCopy(df: SalesFrame, start: int, end: int, column: string) returns (r: Result<SalesFrame, SalesError>)
    ensures df.dateKind == Datetime && column == DateColumn ==>
      r.Success? && fresh(r.value) && r.value.rows == FilterRows(df.rows, start, end) && r.value.dateKind == CalendarDate
    ensures !(df.dateKind == Datetime && column == DateColumn) ==> r == Failure(NotDatetimeColumn(column))
  {
    if df.dateKind != Datetime || column != DateColumn {
      return Failure(NotDatetimeColumn(column));
    }
    var selected := new SalesFrame(FilterRows(df.rows, start, end), CalendarDate);
    return Success(selected);
  }

  /** With the corrected filter both dashboard selections succeed, each on the whole validated frame. */
  method DashboardDateFiltersCorrected(df: SalesFrame, s1: int, e1: int, s2: int, e2: int)
    returns (daily: Result<SalesFrame, SalesError>, byProduct: Result<SalesFrame, SalesError>)
    requires df.dateKind == Datetime
    ensures daily.Success? && daily.value.rows == FilterRows(df.rows, s1, e1)
    ensures byProduct.Success? && byProduct.value.rows == FilterRows(df.rows, s2, e2)
  {
    daily := FilterByDateCopy(df, s1, e1, DateColumn);
    byProduct := FilterByDateCopy(df, s2, e2, DateColumn);
  }
}
