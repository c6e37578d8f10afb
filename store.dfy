/** The client's data store: the two `transformResponse` callbacks of the
    API definition (budget rows split into income and expense lines, expense
    rows decoded, sorted by timestamp and reversed) and the counter slice. */
module Store {
  import opened JsRuntime
  import opened Seqs
  import opened Dates
  import opened ArraySort
  import opened SheetRows
  import App

  // ---------------------------------------------------------------------
  // getBudget

  /** `BudgetResponse`: the income lines and the expense lines. */
  datatype BudgetResponse = BudgetResponse(income: seq<BudgetEntry>, expenses: seq<BudgetEntry>)

  /** `isNaN(b.expense)`. */
  predicate HasNoAmount(e: BudgetEntry): (b: bool)
    ensures b ==> !IsExpenseLine(e)
  {
    e.expense.None?
  }

  /** A line with a negative amount spent: neither filter keeps it. */
  predicate IsNegativeLine(e: BudgetEntry) {
    e.expense.Some? && e.expense.value < 0
  }

  /** The `getBudget` transform: every row is decoded; the income lines are
      those whose amount spent is NaN, the expense lines those whose amount
      spent is a number at least 0, each list in sheet order. */
  function TransformBudget(rows: seq<Row>): (r: BudgetResponse)
    ensures forall k :: 0 <= k < |r.income| ==> HasNoAmount(r.income[k])
    ensures forall k :: 0 <= k < |r.expenses| ==> IsExpenseLine(r.expenses[k])
    ensures multiset(r.income) <= multiset(DecodeBudget(rows))
    ensures multiset(r.expenses) <= multiset(DecodeBudget(rows))
  {
    var budget := DecodeBudget(rows);
    BudgetResponse(Filter(budget, HasNoAmount), Filter(budget, IsExpenseLine))
  }

  /** Each list holds exactly the decoded lines of its kind, each as often as
      it occurs in the sheet. */
  lemma TransformBudgetExact(rows: seq<Row>)
    ensures forall e :: multiset(TransformBudget(rows).income)[e] ==
              if HasNoAmount(e) then multiset(DecodeBudget(rows))[e] else 0
    ensures forall e :: multiset(TransformBudget(rows).expenses)[e] ==
              if IsExpenseLine(e) then multiset(DecodeBudget(rows))[e] else 0
  {
    FilterMultiset(DecodeBudget(rows), HasNoAmount);
    FilterMultiset(DecodeBudget(rows), IsExpenseLine);
  }

  /** Every row is an income line, an expense line or a line with a negative
      amount, and only one of them: the three counts add up to the rows. */
  lemma TransformBudgetCount(rows: seq<Row>)
    ensures |TransformBudget(rows).income| + |TransformBudget(rows).expenses|
            + |Filter(DecodeBudget(rows), IsNegativeLine)| == |rows|
  {
    FilterPartition(DecodeBudget(rows), HasNoAmount, IsExpenseLine, IsNegativeLine);
  }

  /** A row whose third cell is missing or does not start like a number is an
      income line. */
  lemma RowWithoutAmountIsIncome(rows: seq<Row>, k: nat)
    requires k < |rows| && ParseInt(CellAt(rows[k], 2)).None?
    ensures DecodeBudgetEntry(rows[k]) in TransformBudget(rows).income
  {
    var budget := DecodeBudget(rows);
    FilterMultiset(budget, HasNoAmount);
    assert budget[k] in multiset(budget);
  }

  /** The rows the main component adds up as income (third cell "INCOME")
      are all income lines here, each as often as it occurs. */
  lemma {:induction false} IncomeRowsAreIncome(rows: seq<Row>)
    ensures multiset(DecodeBudget(Filter(rows, App.IsIncomeRow))) <= multiset(TransformBudget(rows).income)
  {
    if rows != [] {
      IncomeRowsAreIncome(rows[1..]);
      IncomeRowsHead(rows);
      AmountlessHead(rows);
      if App.IsIncomeRow(rows[0]) {
        IncomeRowHasNoAmount(rows[0]);
      }
    }
  }

  /** A row marked "INCOME" has no numeric amount spent. */
  lemma IncomeRowHasNoAmount(r: Row)
    requires App.IsIncomeRow(r)
    ensures HasNoAmount(DecodeBudgetEntry(r))
  {
    ParseIntOfWord("INCOME");
  }

  lemma IncomeRowsHead(rows: seq<Row>)
    requires rows != []
    ensures DecodeBudget(Filter(rows, App.IsIncomeRow)) ==
              (if App.IsIncomeRow(rows[0]) then [DecodeBudgetEntry(rows[0])] else [])
              + DecodeBudget(Filter(rows[1..], App.IsIncomeRow))
  {
    var tail := Filter(rows[1..], App.IsIncomeRow);
    if App.IsIncomeRow(rows[0]) {
      assert Filter(rows, App.IsIncomeRow) == [rows[0]] + tail;
      DecodeBudgetConcat([rows[0]], tail);
      assert DecodeBudget([rows[0]]) == [DecodeBudgetEntry(rows[0])];
    } else {
      assert Filter(rows, App.IsIncomeRow) == tail;
    }
  }

  lemma AmountlessHead(rows: seq<Row>)
    requires rows != []
    ensures Filter(DecodeBudget(rows), HasNoAmount) ==
              (if HasNoAmount(DecodeBudgetEntry(rows[0])) then [DecodeBudgetEntry(rows[0])] else [])
              + Filter(DecodeBudget(rows[1..]), HasNoAmount)
  {
    assert DecodeBudget(rows)[1..] == DecodeBudget(rows[1..]);
  }

  /** The expense lines are the ones the main component's `getBudget`
      shows. */
  lemma ExpenseLinesAgree(rows: seq<Row>)
    ensures TransformBudget(rows).expenses == App.GetBudget(rows).budgetEntries
  {
  }

  // ---------------------------------------------------------------------
  // getExpenses

  /** The store's `ExpenseEntry`: the date is kept as its timestamp. */
  datatype ExpenseEntry = ExpenseEntry(id: nat, timestamp: int, category: Cell, expense: Num, who: Cell, description: Cell)

  /** The map step for the row read with id `id`. */
  function DecodeEntry(r: Row, id: nat): (e: ExpenseEntry)
    requires RowDate(r).Some?
    ensures e.id == id
    ensures e.category.None? <==> |r| < 2
    ensures e.expense.Some? ==> |r| >= 3
    ensures e.who.None? <==> |r| < 4
    ensures e.description.None? <==> |r| < 5
  {
    ExpenseEntry(id, Timestamp(RowDate(r).value), CellAt(r, 1), ParseInt(CellAt(r, 2)), CellAt(r, 3), CellAt(r, 4))
  }

  /** The rows decoded in sheet order, row `k` with id `k`. */
  function DecodedEntries(rows: seq<Row>): (es: seq<ExpenseEntry>)
    requires DatesValid(rows)
    ensures |es| == |rows|
  {
    if rows == [] then []
    else
      var n := |rows| - 1;
      DatesValidPrefix(rows, n);
      DecodedEntries(rows[..n]) + [DecodeEntry(rows[n], n)]
  }

  /** Entry `k` of the decoded rows is row `k` decoded with id `k`. */
  lemma {:induction false} DecodedEntriesAt(rows: seq<Row>)
    requires DatesValid(rows)
    ensures forall k :: 0 <= k < |rows| ==> DecodedEntries(rows)[k] == DecodeEntry(rows[k], k)
  {
    if rows != [] {
      var n := |rows| - 1;
      var prefix := rows[..n];
      DatesValidPrefix(rows, n);
      var last := DecodeEntry(rows[n], n);
      assert DecodedEntries(rows) == DecodedEntries(prefix) + [last];
      DecodedEntriesAt(prefix);
      forall k | 0 <= k < |rows| ensures DecodedEntries(rows)[k] == DecodeEntry(rows[k], k) {
        if k < n {
          assert prefix[k] == rows[k];
          assert DecodedEntries(rows)[k] == DecodedEntries(prefix)[k];
        }
      }
    }
  }

  function Stamp(e: ExpenseEntry): int {
    e.timestamp
  }

  function EntryId(e: ExpenseEntry): int {
    e.id
  }

  /** `x` is listed before `y`: its timestamp is larger, or equal and it was
      read later. */
  predicate ListedBefore(x: ExpenseEntry, y: ExpenseEntry) {
    x.timestamp > y.timestamp || (x.timestamp == y.timestamp && x.id > y.id)
  }

  /** The `getExpenses` transform: number the rows, sort the array in place
      by timestamp with a stable sort, reverse it in place. The result holds
      every decoded row once, largest timestamp first, and rows with equal
      timestamps in reverse sheet order. */
  method TransformExpenses(rows: seq<Row>) returns (r: seq<ExpenseEntry>)
    requires DatesValid(rows)
    ensures multiset(r) == multiset(DecodedEntries(rows))
    ensures forall i, j :: 0 <= i < j < |r| ==> ListedBefore(r[i], r[j])
  {
    var a := NumberEntries(rows);
    EntryIdsIncrease(rows);
    SortByKey(a, Stamp, EntryId);
    ghost var ascending := a[..];
    Reverse(a);
    r := a[..];
    ReversedIsListed(ascending, r);
  }

  /** The `map` step into a fresh array, with the counter `id` that the
      callback post-increments. */
  method NumberEntries(rows: seq<Row>) returns (a: array<ExpenseEntry>)
    requires DatesValid(rows)
    ensures fresh(a) && a[..] == DecodedEntries(rows)
  {
    a := new ExpenseEntry[|rows|];
    var id := 0;
    for i := 0 to |rows|
      invariant id == i
      invariant DatesValid(rows[..i]) && a[..i] == DecodedEntries(rows[..i])
    {
      a[i] := DecodeEntry(rows[i], id);
      id := id + 1;
      assert rows[..i + 1][..i] == rows[..i];
      assert a[..i + 1] == a[..i] + [a[i]];
    }
    assert a[..] == a[..|rows|] && rows == rows[..|rows|];
  }

  lemma EntryIdsIncrease(rows: seq<Row>)
    requires DatesValid(rows)
    ensures TagsIncrease(DecodedEntries(rows), EntryId)
  {
    DecodedEntriesAt(rows);
  }

  lemma ReversedIsListed(ascending: seq<ExpenseEntry>, r: seq<ExpenseEntry>)
    requires SortedByKeyTag(ascending, Stamp, EntryId)
    requires |r| == |ascending| && forall k :: 0 <= k < |r| ==> r[k] == ascending[|r| - 1 - k]
    ensures forall i, j :: 0 <= i < j < |r| ==> ListedBefore(r[i], r[j])
  {
    forall i, j | 0 <= i < j < |r| ensures ListedBefore(r[i], r[j]) {
      var n := |r|;
      assert KeyTagLess(Stamp, EntryId, ascending[n - 1 - j], ascending[n - 1 - i]);
    }
  }

  /** The contract of `TransformExpenses` fixes its result. */
  lemma TransformExpensesDetermined(rows: seq<Row>, r1: seq<ExpenseEntry>, r2: seq<ExpenseEntry>)
    requires DatesValid(rows)
    requires multiset(r1) == multiset(DecodedEntries(rows)) && multiset(r2) == multiset(DecodedEntries(rows))
    requires forall i, j :: 0 <= i < j < |r1| ==> ListedBefore(r1[i], r1[j])
    requires forall i, j :: 0 <= i < j < |r2| ==> ListedBefore(r2[i], r2[j])
    ensures r1 == r2
  {
    ListedBeforeIsAsymmetric();
    SortedPermutationsEqual(r1, r2, ListedBefore);
  }

  lemma ListedBeforeIsAsymmetric()
    ensures forall x, y :: ListedBefore(x, y) ==> !ListedBefore(y, x)
  {
  }

  /** The main component's expense with its day turned into a timestamp. */
  function AsEntry(e: App.Expense): ExpenseEntry {
    ExpenseEntry(e.id, Timestamp(e.date), e.category, e.expense, e.who, e.description)
  }

  /** Both clients decode a row alike, up to the date's representation. */
  lemma DecodedAgree(rows: seq<Row>)
    requires DatesValid(rows)
    ensures Map(App.Decoded(rows), AsEntry) == DecodedEntries(rows)
  {
    App.DecodedAt(rows);
    DecodedEntriesAt(rows);
  }

  /** The store's listing is the main component's listing, position by
      position, with each day written as its timestamp: the two copies of
      the transform order the same rows the same way. */
  lemma ListingsAgree(rows: seq<Row>, shown: seq<App.Expense>, stored: seq<ExpenseEntry>)
    requires DatesValid(rows)
    requires multiset(shown) == multiset(App.Decoded(rows))
    requires forall i, j :: 0 <= i < j < |shown| ==> App.NewerFirst(shown[i], shown[j])
    requires multiset(stored) == multiset(DecodedEntries(rows))
    requires forall i, j :: 0 <= i < j < |stored| ==> ListedBefore(stored[i], stored[j])
    ensures stored == Map(shown, AsEntry)
  {
    var mapped := Map(shown, AsEntry);
    MapMultiset(shown, App.Decoded(rows), AsEntry);
    DecodedAgree(rows);
    forall i, j | 0 <= i < j < |mapped| ensures ListedBefore(mapped[i], mapped[j]) {
      TimestampOrder(shown[i].date, shown[j].date);
    }
    TransformExpensesDetermined(rows, mapped, stored);
  }

  // ---------------------------------------------------------------------
  // The counter slice

  /** The `app` slice's state and its two reducers. */
  class CounterSlice {
    var count: int

    /** `initialState`. */
    constructor()
      ensures count == 0
    {
      count := 0;
    }

    method Increment()
      modifies this
      ensures count == old(count) + 1
    {
      count := count + 1;
    }

    method Decrement()
      modifies this
      ensures count == old(count) - 1
    {
      count := count - 1;
    }
  }
}
