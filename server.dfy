/** The server's side of the sheet: the ranges it reads and appends to, and
    the row it appends for a new expense, with what the clients make of that
    row when they read it back. */
module Server {
  import opened JsRuntime
  import opened Dates
  import opened SheetRows
  import App

  /** An A1-notation range with an open end: a sheet, a first cell, and the
      last column, every row from the first one down. */
  datatype A1Range = A1Range(sheet: string, firstColumn: char, firstRow: nat, lastColumn: char)

  /** The range as the sheets API receives it: `sheet!<col><row>:<col>`. */
  function RangeText(r: A1Range): string {
    r.sheet + "!" + [r.firstColumn] + NatToString(r.firstRow) + ":" + [r.lastColumn]
  }

  /** How many columns the range spans. */
  function Width(r: A1Range): int {
    r.lastColumn as int - r.firstColumn as int + 1
  }

  /** The range `GET /expenses` reads: columns A to E of the expense log
      from row 3. */
  const ExpensesRange: A1Range := A1Range("poop", 'A', 3, 'E')

  /** The range `POST /expense` names in its append call. */
  const AppendRange: A1Range := A1Range("poop", 'A', 3, 'E')

  /** The range the append call repeats in its request body. */
  const AppendBodyRange: A1Range := A1Range("poop", 'A', 3, 'E')

  /** The budget table read by `GET /budget`: columns A to C from row 3. */
  const BudgetRange: A1Range := A1Range("Budget", 'A', 3, 'C')

  /** The ranges spell out as the server sends them, the server appends
      where it reads, and each range is exactly as wide as what the clients
      take from it: five cells for an expense row, three for a budget row. */
  lemma RangesFitRows(req: ExpenseRequest)
    ensures RangeText(ExpensesRange) == "poop!A3:E"
    ensures RangeText(BudgetRange) == "Budget!A3:C"
    ensures AppendRange == ExpensesRange && AppendBodyRange == ExpensesRange
    ensures Width(ExpensesRange) == |EncodeRow(req)| == 5
    ensures Width(BudgetRange) == 3
  {
    assert NatToString(3) == "3";
  }

  /** The body of `POST /expense`. The form fills `amount` from `parseInt`
      of a number field that must be filled in. */
  datatype ExpenseRequest = ExpenseRequest(date: string, who: string, category: string, amount: int, what: string)

  /** `moment(date, "YYYY-MM-DD").format("DD/MM/YYYY")`: moment formats an
      invalid date as the text "Invalid date". */
  function DateCell(date: string): (s: string)
    ensures ParseIso(date).Some? ==> ParseDmy(s) == ParseIso(date)
    ensures ParseIso(date).None? ==> s == "Invalid date"
  {
    match ParseIso(date)
    case Some(d) => ParseFormatDmy(d); FormatDmy(d)
    case None => "Invalid date"
  }

  /** The row appended for a request: date, category, amount, who, what. The
      sheet shows the amount as its decimal digits. */
  function EncodeRow(req: ExpenseRequest): (r: Row)
    ensures |r| == 5
  {
    [DateCell(req.date), req.category, IntToString(req.amount), req.who, req.what]
  }

  /** The date cell only reorders the form's digits around slashes. */
  lemma DateCellReorders(date: string)
    requires ParseIso(date).Some?
    ensures DateCell(date) == date[8..10] + "/" + date[5..7] + "/" + date[0..4]
  {
    FormatOfParsedIso(date);
  }

  /** What `values.get` returns for a written row: the sheets API leaves
      out the empty cells at the end of a row. */
  function ReadBack(row: Row): (r: Row)
    ensures |r| <= |row| && r == row[..|r|]
    ensures r == [] || r[|r| - 1] != ""
    ensures forall k :: |r| <= k < |row| ==> row[k] == ""
  {
    if row != [] && row[|row| - 1] == "" then
      var shorter := row[..|row| - 1];
      var r := ReadBack(shorter);
      assert r == row[..|r|] by {
        assert shorter[..|r|] == row[..|r|];
      }
      assert forall k :: |r| <= k < |shorter| ==> row[k] == shorter[k];
      r
    else row
  }

  /** The text cell `c` as read back when only `after` follows it in the
      row: empty text at the end of the row comes back as `undefined`. */
  function ReadCell(c: string, after: string): (v: Cell)
    ensures v.None? <==> c == "" && after == ""
    ensures v.Some? ==> v.value == c
  {
    if c == "" && after == "" then None else Some(c)
  }

  /** Reading back an appended row gives the request's day, category and
      amount; an empty description reads as `undefined`, and so does an
      empty payer followed by an empty description. */
  lemma EncodeRowRoundTrip(req: ExpenseRequest, id: nat)
    requires ParseIso(req.date).Some?
    ensures RowDate(ReadBack(EncodeRow(req))).Some?
    ensures App.DecodeExpenseRow(ReadBack(EncodeRow(req)), id) ==
              App.Expense(id, ParseIso(req.date).value, Some(req.category), Some(req.amount),
                          ReadCell(req.who, req.what), ReadCell(req.what, ""))
  {
    ParseIntInverse(req.amount);
    var row := EncodeRow(req);
    assert row[2] != "";
    var r := ReadBack(row);
    assert |r| >= 3;
    if req.what != "" {
      assert r == row;
    } else if req.who != "" {
      assert |r| == 4;
    } else {
      assert |r| == 3;
    }
  }

  /** A request whose date does not parse writes a row that no client can
      date, so the expense listing cannot place it. */
  lemma InvalidDateRow(req: ExpenseRequest)
    requires ParseIso(req.date).None?
    ensures RowDate(ReadBack(EncodeRow(req))).None?
  {
    var row := EncodeRow(req);
    assert row[2] != "";
    assert ReadBack(row)[0] == "Invalid date";
  }

  /** After an append the expense log read back by the main component is
      the old one with the new expense last, numbered with the old row
      count. */
  lemma AppendedExpenseIsLast(rows: seq<Row>, req: ExpenseRequest)
    requires DatesValid(rows) && ParseIso(req.date).Some?
    ensures DatesValid(rows + [ReadBack(EncodeRow(req))])
    ensures App.Decoded(rows + [ReadBack(EncodeRow(req))]) ==
              App.Decoded(rows) + [App.Expense(|rows|, ParseIso(req.date).value, Some(req.category), Some(req.amount),
                                               ReadCell(req.who, req.what), ReadCell(req.what, ""))]
  {
    EncodeRowRoundTrip(req, |rows|);
    App.DecodedAppend(rows, ReadBack(EncodeRow(req)));
  }
}
