/** What both clients share about the spreadsheet's rows: a row is the list of
    its cells' texts (short when trailing cells are empty), the date in the
    first cell of an expense row, the budget entry decoded from a row of the
    budget range, and the `reduce` sum of numbers. */
module SheetRows {
  import opened JsRuntime
  import opened Dates

  type Row = seq<string>

  /** `r[i]`: the text of cell `i`, or `undefined` past the end of the row. */
  function CellAt(r: Row, i: nat): (c: Cell)
    ensures c.Some? <==> i < |r|
    ensures c.Some? ==> c.value == r[i]
  {
    if i < |r| then Some(r[i]) else None
  }

  /** `moment(r[0], "DD/MM/YYYY")` on an expense row, when it names a day. */
  function RowDate(r: Row): (d: Option<Date>)
    ensures d.Some? ==> r != [] && ValidDate(d.value)
  {
    match CellAt(r, 0)
    case None => None
    case Some(s) => ParseDmy(s)
  }

  predicate DatesValid(rows: seq<Row>) {
    forall k :: 0 <= k < |rows| ==> RowDate(rows[k]).Some?
  }

  /** The rows before a point have valid dates when all rows do. */
  lemma DatesValidPrefix(rows: seq<Row>, n: nat)
    requires DatesValid(rows) && n <= |rows|
    ensures DatesValid(rows[..n])
  {
    forall k | 0 <= k < n ensures RowDate(rows[..n][k]).Some? {
      assert rows[..n][k] == rows[k];
    }
  }

  /** Adding a row with a valid date keeps every date valid. */
  lemma DatesValidAppend(rows: seq<Row>, row: Row)
    requires DatesValid(rows) && RowDate(row).Some?
    ensures DatesValid(rows + [row])
  {
    var all := rows + [row];
    forall k | 0 <= k < |all| ensures RowDate(all[k]).Some? {
      if k < |rows| {
        assert all[k] == rows[k];
      }
    }
  }

  /** The `BudgetEntry` record: a category name, its limit and what was spent. */
  datatype BudgetEntry = BudgetEntry(name: Cell, budget: Num, expense: Num)

  /** The map step both budget decoders share: column 0 is the name, column 1
      the limit taken as an absolute value, column 2 the amount spent. */
  function DecodeBudgetEntry(r: Row): (e: BudgetEntry)
    ensures e.budget.Some? ==> e.budget.value >= 0
  {
    BudgetEntry(CellAt(r, 0), Abs(ParseInt(CellAt(r, 1))), ParseInt(CellAt(r, 2)))
  }

  /** Every row of the budget range, decoded, in sheet order. */
  function DecodeBudget(rows: seq<Row>): (es: seq<BudgetEntry>)
    ensures |es| == |rows|
    ensures forall k :: 0 <= k < |rows| ==> es[k] == DecodeBudgetEntry(rows[k])
  {
    seq(|rows|, k requires 0 <= k < |rows| => DecodeBudgetEntry(rows[k]))
  }

  /** Decoding works row by row, so it distributes over concatenation. */
  lemma DecodeBudgetConcat(rows1: seq<Row>, rows2: seq<Row>)
    ensures DecodeBudget(rows1 + rows2) == DecodeBudget(rows1) + DecodeBudget(rows2)
  {
  }

  /** `v.expense >= 0`: false for NaN. */
  predicate IsExpenseLine(e: BudgetEntry): (b: bool)
    ensures b ==> e.expense.Some?
  {
    e.expense.Some? && e.expense.value >= 0
  }

  /** `reduce((acc, v) => acc + v, 0)` over numbers: a left fold from 0 in
      which one NaN makes the whole sum NaN. */
  function Sum(xs: seq<Num>): (r: Num)
    ensures r.Some? <==> forall k :: 0 <= k < |xs| ==> xs[k].Some?
    ensures (forall k :: 0 <= k < |xs| ==> xs[k].Some? && xs[k].value >= 0) ==> r.Some? && r.value >= 0
  {
    if xs == [] then Some(0) else Add(Sum(xs[..|xs| - 1]), xs[|xs| - 1])
  }

  /** The sum of one number is that number, NaN included. */
  lemma SumOne(x: Num)
    ensures Sum([x]) == x
  {
    assert [x][..0] == [];
  }

  /** Summing a concatenation adds the two sums: each number is counted once
      wherever the input is split. */
  lemma {:induction false} SumConcat(xs: seq<Num>, ys: seq<Num>)
    ensures Sum(xs + ys) == Add(Sum(xs), Sum(ys))
  {
    if ys == [] {
      assert xs + ys == xs;
    } else {
      var last := ys[|ys| - 1];
      assert (xs + ys)[..|xs + ys| - 1] == xs + ys[..|ys| - 1];
      SumConcat(xs, ys[..|ys| - 1]);
    }
  }
}
