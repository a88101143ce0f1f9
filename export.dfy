/**
 The CSV export: a header row, then one row per expense in the order the
 table returns them. Field quoting and the byte encoding belong to the CSV
 library and are not modelled; a row is the list of values handed to it.
 */
module Export {
  import opened Dates
  import opened Expenses

  /** A value handed to the CSV writer: text, or the amount as a number. */
  datatype Cell = Text(text: string) | Amount(value: int)

  type Row = seq<Cell>

  const Header: Row := [Text("Date"), Text("Category"), Text("Description"), Text("Amount (\U{20B9})")]

  /** The data row of one expense; the date is written `YYYY-MM-DD`. */
  function ExpenseRow(e: Expense): (r: Row)
    ensures |r| == |Header|
    ensures r[0].Text? && r[3] == Amount(e.amount)
  {
    [Text(IsoDate(e.date)), Text(e.category), Text(e.description), Amount(e.amount)]
  }

  /**
   A data row gives back everything about its expense but the id: two
   expenses have the same row exactly when their date, category,
   description and amount agree.
   */
  lemma ExpenseRowInjective(a: Expense, b: Expense)
    ensures ExpenseRow(a) == ExpenseRow(b) <==>
      a.date == b.date && a.category == b.category && a.description == b.description && a.amount == b.amount
  {
    if ExpenseRow(a) == ExpenseRow(b) {
      assert ExpenseRow(a)[0] == ExpenseRow(b)[0];
      IsoDateInjective(a.date, b.date);
    }
  }

  /** The date column of the export starts with the dashboard's month key. */
  lemma ExportDateHasMonthKey(e: Expense)
    ensures |ExpenseRow(e)[0].text| == 10 && ExpenseRow(e)[0].text[..7] == MonthKey(e.date)
  {
    IsoDateFormat(e.date);
  }

  /** The in-memory buffer `csv.writer` appends rows to. */
  class CsvWriter {
    var rows: seq<Row>

    constructor ()
      ensures rows == []
    {
      rows := [];
    }

    /** `writer.writerow(row)`. */
    method WriteRow(row: Row)
      modifies this
      ensures rows == old(rows) + [row]
    {
      rows := rows + [row];
    }
  }

  /** `export_csv()`: the header, then the row of each expense in input order. */
  method ExportCsv(expenses: seq<Expense>) returns (rows: seq<Row>)
    ensures |rows| == |expenses| + 1
    ensures rows[0] == Header
    ensures forall i :: 0 <= i < |expenses| ==> rows[i + 1] == ExpenseRow(expenses[i])
  {
    var writer := new CsvWriter();
    writer.WriteRow(Header);
    for i := 0 to |expenses|
      invariant |writer.rows| == i + 1
      invariant writer.rows[0] == Header
      invariant forall j :: 0 <= j < i ==> writer.rows[j + 1] == ExpenseRow(expenses[j])
    {
      writer.WriteRow(ExpenseRow(expenses[i]));
    }
    rows := writer.rows;
  }
}
