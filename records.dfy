/**
 * The transaction records of the retail extract and the load step, which
 * attaches the derived `Total` and `YearMonth` columns to every row.
 * Money is held in integer cents; missing cells are `None`.
 */
module Records {
  import opened Wrappers

  /** A calendar month number. */
  type Month = m: int | 1 <= m <= 12 witness 1

  /** A parsed `InvoiceDate`. */
  datatype Timestamp = Timestamp(year: int, month: Month, day: int, hour: int, minute: int, second: int)

  /** A `YearMonth` period: the calendar month a timestamp falls in. */
  datatype YearMonth = YearMonth(year: int, month: Month)

  /** One row as read from the data file, with `InvoiceDate` already parsed. */
  datatype RawRecord = RawRecord(
    invoice: Option<string>,
    stockCode: Option<string>,
    description: Option<string>,
    quantity: int,
    invoiceDate: Option<Timestamp>,
    price: int,
    customerId: Option<int>,
    country: Option<string>)

  /** A loaded row: the record's columns plus the derived `Total` and `YearMonth`. */
  datatype Row = Row(
    invoice: Option<string>,
    stockCode: Option<string>,
    description: Option<string>,
    quantity: int,
    invoiceDate: Option<Timestamp>,
    price: int,
    customerId: Option<int>,
    country: Option<string>,
    total: int,
    yearMonth: Option<YearMonth>)

  /** `dt.to_period('M')`: a missing date (NaT) gives a missing period. */
  function ToPeriod(d: Option<Timestamp>): Option<YearMonth>
  {
    match d
    case None => None
    case Some(t) => Some(YearMonth(t.year, t.month))
  }

  /** The derived columns of one row. */
  function Derive(r: RawRecord): Row
  {
    Row(r.invoice, r.stockCode, r.description, r.quantity, r.invoiceDate, r.price,
        r.customerId, r.country, r.quantity * r.price, ToPeriod(r.invoiceDate))
  }

  /** The original columns of a loaded row. */
  function Original(r: Row): RawRecord
  {
    RawRecord(r.invoice, r.stockCode, r.description, r.quantity, r.invoiceDate, r.price,
              r.customerId, r.country)
  }

  /** The derived columns agree with the row's own columns. */
  predicate Consistent(r: Row)
  {
    && r.total == r.quantity * r.price
    && (r.yearMonth.Some? <==> r.invoiceDate.Some?)
    && (r.invoiceDate.Some? ==>
          r.yearMonth.value.year == r.invoiceDate.value.year &&
          r.yearMonth.value.month == r.invoiceDate.value.month)
  }

  /**
   * `load_data` after parsing: the column assignments, applied to every row.
   * Loading keeps every record, in order, with its columns unchanged, and
   * every loaded row carries a `Total` and `YearMonth` consistent with them.
   */
  function Load(raw: seq<RawRecord>): (rows: seq<Row>)
    ensures |rows| == |raw|
    ensures forall i :: 0 <= i < |raw| ==> Original(rows[i]) == raw[i]
    ensures forall i :: 0 <= i < |raw| ==> Consistent(rows[i])
  {
    seq(|raw|, i requires 0 <= i < |raw| => Derive(raw[i]))
  }

  /** A consistent row is determined by its original columns. */
  lemma DeriveOriginal(r: Row)
    requires Consistent(r)
    ensures Derive(Original(r)) == r
  {
  }

  /** Month ordering of `YearMonth` periods (the order pandas sorts periods in). */
  predicate Before(a: YearMonth, b: YearMonth)
  {
    a.year < b.year || (a.year == b.year && a.month < b.month)
  }

  /** The position of a month on a single time line. */
  function MonthIndex(ym: YearMonth): int
  {
    ym.year * 12 + ym.month - 1
  }

  /** The month time line is faithful: it orders periods as `Before` does, and no two periods share a position. */
  lemma MonthIndexOrder(a: YearMonth, b: YearMonth)
    ensures MonthIndex(a) < MonthIndex(b) <==> Before(a, b)
    ensures MonthIndex(a) == MonthIndex(b) <==> a == b
  {
  }

  // Column accessors, used as grouping keys and summed values.

  function Description(r: Row): Option<string> { r.description }
  function Period(r: Row): Option<YearMonth> { r.yearMonth }
  function CustomerId(r: Row): Option<int> { r.customerId }
  function Price(r: Row): Option<int> { Some(r.price) }
  function Total(r: Row): int { r.total }

  /** A refund row: negative `Quantity`. */
  predicate IsRefund(r: Row) { r.quantity < 0 }

  /** A sale row, the rows the cleaning step keeps: positive `Quantity`. */
  predicate IsSale(r: Row) { r.quantity > 0 }

  /** No cell of the row is missing (`isnull().any(axis=1)` is false). */
  predicate Complete(r: Row)
  {
    && r.invoice.Some? && r.stockCode.Some? && r.description.Some? && r.invoiceDate.Some?
    && r.customerId.Some? && r.country.Some? && r.yearMonth.Some?
  }

  predicate HasMissing(r: Row) { !Complete(r) }
}
