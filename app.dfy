/** The data shaping in the web client's main component: the progress-bar
    colour, `getExpenses` (decode, stable sort by date, reverse), `getBudget`
    (decode, filter, totals) and the arithmetic of one budget row with its
    drill-down list. */
module App {
  import opened JsRuntime
  import opened Seqs
  import opened Dates
  import opened ArraySort
  import opened SheetRows

  // ---------------------------------------------------------------------
  // getProgressColor

  /** The react-bootstrap variants the bar is drawn in. */
  datatype Variant = Info | Warning | Danger

  /** `getProgressColor(remainingPercent)`: "info" at exactly zero, "danger"
      above 100, and "warning" everywhere else, negative values included (the
      branch below 75 and the branch up to 100 give the same colour). */
  function ProgressColor(remainingPercent: real): (v: Variant)
    ensures v == Info <==> remainingPercent == 0.0
    ensures v == Danger <==> remainingPercent > 100.0
    ensures v == Warning <==> remainingPercent != 0.0 && remainingPercent <= 100.0
  {
    if remainingPercent == 0.0 then Info
    else if remainingPercent < 75.0 then Warning
    else if remainingPercent <= 100.0 then Warning
    else Danger
  }

  // ---------------------------------------------------------------------
  // getExpenses

  /** The client's `ExpenseEntry`: a batch-local id, the parsed date and the
      other columns as read. */
  datatype Expense = Expense(id: nat, date: Day, category: Cell, expense: Num, who: Cell, description: Cell)

  /** The map step of `getExpenses` for the row read with id `id`: column 0
      is the date, 1 the category, 2 the amount through `parseInt`, 3 who
      paid and 4 the description. */
  function DecodeExpenseRow(r: Row, id: nat): (e: Expense)
    requires RowDate(r).Some?
    ensures e.id == id && ValidDate(e.date)
    ensures e.category.None? <==> |r| < 2
    ensures e.expense.Some? ==> |r| >= 3
    ensures e.who.None? <==> |r| < 4
    ensures e.description.None? <==> |r| < 5
  {
    Expense(id, RowDate(r).value, CellAt(r, 1), ParseInt(CellAt(r, 2)), CellAt(r, 3), CellAt(r, 4))
  }

  /** The rows decoded in sheet order, row `k` with id `k`: what the `map`
      step produces, built one row at a time as the counter advances. */
  function Decoded(rows: seq<Row>): (es: seq<Expense>)
    requires DatesValid(rows)
    ensures |es| == |rows|
  {
    if rows == [] then []
    else
      var n := |rows| - 1;
      DatesValidPrefix(rows, n);
      Decoded(rows[..n]) + [DecodeExpenseRow(rows[n], n)]
  }

  /** A row added at the end is decoded last, with the old row count as its
      id. */
  lemma DecodedAppend(rows: seq<Row>, row: Row)
    requires DatesValid(rows) && RowDate(row).Some?
    ensures DatesValid(rows + [row])
    ensures Decoded(rows + [row]) == Decoded(rows) + [DecodeExpenseRow(row, |rows|)]
  {
    DatesValidAppend(rows, row);
    assert (rows + [row])[..|rows|] == rows;
  }

  /** Entry `k` of the decoded rows is row `k` decoded with id `k`. */
  lemma {:induction false} DecodedAt(rows: seq<Row>)
    requires DatesValid(rows)
    ensures forall k :: 0 <= k < |rows| ==> Decoded(rows)[k] == DecodeExpenseRow(rows[k], k)
  {
    if rows != [] {
      var n := |rows| - 1;
      var prefix := rows[..n];
      DatesValidPrefix(rows, n);
      var last := DecodeExpenseRow(rows[n], n);
      assert Decoded(rows) == Decoded(prefix) + [last];
      DecodedAt(prefix);
      forall k | 0 <= k < |rows| ensures Decoded(rows)[k] == DecodeExpenseRow(rows[k], k) {
        if k < n {
          assert prefix[k] == rows[k];
          assert Decoded(rows)[k] == Decoded(prefix)[k];
        }
      }
    }
  }

  /** The counter numbers the decoded rows 0, 1, 2, ... in sheet order. */
  lemma {:induction false} DecodedIds(rows: seq<Row>)
    requires DatesValid(rows)
    ensures forall k :: 0 <= k < |rows| ==> Decoded(rows)[k].id == k
  {
    if rows != [] {
      var n := |rows| - 1;
      DecodedIds(rows[..n]);
    }
  }

  /** `x` is listed before `y`: it is dated later, or on the same day and it
      was read later. */
  predicate NewerFirst(x: Expense, y: Expense) {
    Before(y.date, x.date) || (x.date == y.date && x.id > y.id)
  }

  /** The sort key of `getExpenses`: the timestamp of the expense's day. */
  function TimeKey(e: Expense): int {
    Timestamp(e.date)
  }

  /** The order rows were read in, which a stable sort keeps among equal keys. */
  function IdTag(e: Expense): int {
    e.id
  }

  /** `getExpenses` after the fetch: a counter hands out ids 0, 1, ... in row
      order, the array is sorted in place by timestamp with a stable sort and
      then reversed in place. The result holds every decoded row once, newest
      first, and rows of the same day in reverse sheet order. */
  method GetExpenses(rows: seq<Row>) returns (r: seq<Expense>)
    requires DatesValid(rows)
    ensures multiset(r) == multiset(Decoded(rows))
    ensures forall i, j :: 0 <= i < j < |r| ==> NewerFirst(r[i], r[j])
  {
    var a := NumberRows(rows);
    DecodedIdsIncrease(rows);
    SortByKey(a, TimeKey, IdTag);
    ghost var ascending := a[..];
    Reverse(a);
    r := a[..];
    ReversedIsNewestFirst(ascending, r);
  }

  /** The `map` step of `getExpenses` into a fresh array, with the counter
      `id` that the mapping callback post-increments. */
  method NumberRows(rows: seq<Row>) returns (a: array<Expense>)
    requires DatesValid(rows)
    ensures fresh(a) && a[..] == Decoded(rows)
  {
    a := new Expense[|rows|];
    var id := 0;
    for i := 0 to |rows|
      invariant id == i
      invariant DatesValid(rows[..i]) && a[..i] == Decoded(rows[..i])
    {
      a[i] := DecodeExpenseRow(rows[i], id);
      id := id + 1;
      assert rows[..i + 1][..i] == rows[..i];
      assert a[..i + 1] == a[..i] + [a[i]];
    }
    assert a[..] == a[..|rows|] && rows == rows[..|rows|];
  }

  lemma DecodedIdsIncrease(rows: seq<Row>)
    requires DatesValid(rows)
    ensures TagsIncrease(Decoded(rows), IdTag)
  {
    DecodedIds(rows);
  }

  /** Read backwards, a listing sorted by timestamp and then by id is newest
      first. */
  lemma ReversedIsNewestFirst(ascending: seq<Expense>, r: seq<Expense>)
    requires SortedByKeyTag(ascending, TimeKey, IdTag)
    requires |r| == |ascending| && forall k :: 0 <= k < |r| ==> r[k] == ascending[|r| - 1 - k]
    ensures forall i, j :: 0 <= i < j < |r| ==> NewerFirst(r[i], r[j])
  {
    forall i, j | 0 <= i < j < |r| ensures NewerFirst(r[i], r[j]) {
      var n := |r|;
      assert KeyTagLess(TimeKey, IdTag, ascending[n - 1 - j], ascending[n - 1 - i]);
      TimestampOrder(r[i].date, r[j].date);
    }
  }

  /** The result of `getExpenses` has one expense per row: the ids are all
      below the row count and row `k`, numbered `k`, is among them. */
  lemma GetExpensesIds(rows: seq<Row>, r: seq<Expense>)
    requires DatesValid(rows)
    requires multiset(r) == multiset(Decoded(rows))
    ensures |r| == |rows|
    ensures forall e :: e in r ==> e.id < |rows|
    ensures forall k :: 0 <= k < |rows| ==> Decoded(rows)[k] in r && Decoded(rows)[k].id == k
  {
    DecodedIds(rows);
    PermutedIds(r, Decoded(rows));
  }

  lemma PermutedIds(r: seq<Expense>, d: seq<Expense>)
    requires multiset(r) == multiset(d)
    requires forall k :: 0 <= k < |d| ==> d[k].id == k
    ensures |r| == |d|
    ensures forall e :: e in r ==> e.id < |d|
    ensures forall k :: 0 <= k < |d| ==> d[k] in r
  {
    assert |r| == |multiset(r)| == |multiset(d)| == |d|;
    forall e | e in r ensures e.id < |d| {
      assert e in multiset(d);
    }
    forall k | 0 <= k < |d| ensures d[k] in r {
      assert d[k] in multiset(r);
    }
  }

  /** Newest-first is asymmetric: of two expenses at most one is listed
      before the other. */
  lemma NewerFirstIsAsymmetric()
    ensures forall x, y :: NewerFirst(x, y) ==> !NewerFirst(y, x)
  {
  }

  /** The contract of `GetExpenses` leaves no freedom: any two results that
      satisfy it are equal, so it fixes the listing exactly. */
  lemma GetExpensesDetermined(rows: seq<Row>, r1: seq<Expense>, r2: seq<Expense>)
    requires DatesValid(rows)
    requires multiset(r1) == multiset(Decoded(rows)) && multiset(r2) == multiset(Decoded(rows))
    requires forall i, j :: 0 <= i < j < |r1| ==> NewerFirst(r1[i], r1[j])
    requires forall i, j :: 0 <= i < j < |r2| ==> NewerFirst(r2[i], r2[j])
    ensures r1 == r2
  {
    NewerFirstIsAsymmetric();
    SortedPermutationsEqual(r1, r2, NewerFirst);
  }

  // ---------------------------------------------------------------------
  // getBudget

  /** What `getBudget` returns: the expense lines and the two totals. */
  datatype BudgetView = BudgetView(budgetEntries: seq<BudgetEntry>, totalIncome: Num, totalExpense: Num)

  /** `r[2] === "INCOME"`: strict equality, so a missing cell never matches. */
  predicate IsIncomeRow(r: Row): (b: bool)
    ensures b <==> |r| >= 3 && r[2] == "INCOME"
  {
    CellAt(r, 2) == Some("INCOME")
  }

  function Budgets(es: seq<BudgetEntry>): (xs: seq<Num>)
    ensures |xs| == |es| && forall k :: 0 <= k < |es| ==> xs[k] == es[k].budget
  {
    seq(|es|, k requires 0 <= k < |es| => es[k].budget)
  }

  function Spent(es: seq<BudgetEntry>): (xs: seq<Num>)
    ensures |xs| == |es| && forall k :: 0 <= k < |es| ==> xs[k] == es[k].expense
  {
    seq(|es|, k requires 0 <= k < |es| => es[k].expense)
  }

  /** `getBudget` after the fetch. The expense lines are decoded rows whose
      spent amount is a number at least 0; the income total sums the absolute
      limits of the rows marked "INCOME"; the expense total sums the expense
      lines and is always a number at least 0. */
  function GetBudget(rows: seq<Row>): (v: BudgetView)
    ensures forall k :: 0 <= k < |v.budgetEntries| ==> IsExpenseLine(v.budgetEntries[k])
    ensures multiset(v.budgetEntries) <= multiset(DecodeBudget(rows))
    ensures v.totalExpense.Some? && v.totalExpense.value >= 0
    ensures v.totalIncome.Some? ==> v.totalIncome.value >= 0
  {
    var entries := Filter(DecodeBudget(rows), IsExpenseLine);
    BudgetView(entries, IncomeTotal(rows), Sum(Spent(entries)))
  }

  /** `totalIncome`: the absolute limits of the rows whose third cell is
      "INCOME", added up. */
  function IncomeTotal(rows: seq<Row>): (total: Num)
    ensures total.Some? ==> total.value >= 0
  {
    Sum(Budgets(DecodeBudget(Filter(rows, IsIncomeRow))))
  }

  /** The expense lines are exactly the decoded rows that are expense lines,
      each as often as it occurs in the sheet. */
  lemma GetBudgetLines(rows: seq<Row>)
    ensures forall e :: multiset(GetBudget(rows).budgetEntries)[e] ==
              if IsExpenseLine(e) then multiset(DecodeBudget(rows))[e] else 0
  {
    FilterMultiset(DecodeBudget(rows), IsExpenseLine);
  }

  /** `parseInt(r[1])` is a number. */
  predicate HasNumericLimit(r: Row) {
    ParseInt(CellAt(r, 1)).Some?
  }

  /** The income total is a number exactly when every row marked "INCOME"
      has a numeric limit: one NaN limit makes it NaN. */
  lemma GetBudgetIncomeDefined(rows: seq<Row>)
    ensures GetBudget(rows).totalIncome.Some? <==>
              forall k :: 0 <= k < |rows| && IsIncomeRow(rows[k]) ==> HasNumericLimit(rows[k])
  {
    IncomeTotalDefined(rows);
  }

  lemma IncomeTotalDefined(rows: seq<Row>)
    ensures IncomeTotal(rows).Some? <==>
              forall k :: 0 <= k < |rows| && IsIncomeRow(rows[k]) ==> HasNumericLimit(rows[k])
  {
    IncomeSumDefined(Filter(rows, IsIncomeRow));
    KeptLimitsNumeric(rows);
  }

  /** Every row of `rs` has a numeric limit. */
  predicate AllLimitsNumeric(rs: seq<Row>) {
    forall m :: 0 <= m < |rs| ==> HasNumericLimit(rs[m])
  }

  lemma KeptLimitsNumeric(rows: seq<Row>)
    ensures AllLimitsNumeric(Filter(rows, IsIncomeRow)) <==>
            (forall k :: 0 <= k < |rows| && IsIncomeRow(rows[k]) ==> HasNumericLimit(rows[k]))
  {
    FilterAll(rows, IsIncomeRow, HasNumericLimit);
  }

  lemma IncomeSumDefined(incomeRows: seq<Row>)
    ensures Sum(Budgets(DecodeBudget(incomeRows))).Some? <==> AllLimitsNumeric(incomeRows)
  {
    var xs := Budgets(DecodeBudget(incomeRows));
    assert forall m :: 0 <= m < |xs| ==> (xs[m].Some? <==> HasNumericLimit(incomeRows[m]));
  }

  /** No row feeds both totals: a row marked "INCOME" has no numeric amount
      spent, so it is never an expense line. */
  lemma IncomeRowIsNotExpenseLine(r: Row)
    requires IsIncomeRow(r)
    ensures !IsExpenseLine(DecodeBudgetEntry(r))
  {
    ParseIntOfWord("INCOME");
  }

  /** `getBudget` over a sheet split in two: the expense lines of the first
      part come before those of the second, and each total is the sum of the
      two parts' totals. */
  lemma GetBudgetConcat(rows1: seq<Row>, rows2: seq<Row>)
    ensures GetBudget(rows1 + rows2).budgetEntries == GetBudget(rows1).budgetEntries + GetBudget(rows2).budgetEntries
    ensures GetBudget(rows1 + rows2).totalIncome == Add(GetBudget(rows1).totalIncome, GetBudget(rows2).totalIncome)
    ensures GetBudget(rows1 + rows2).totalExpense == Add(GetBudget(rows1).totalExpense, GetBudget(rows2).totalExpense)
  {
    ExpenseLinesConcat(rows1, rows2);
    SpentTotalConcat(GetBudget(rows1).budgetEntries, GetBudget(rows2).budgetEntries);
    IncomeTotalConcat(rows1, rows2);
  }

  lemma ExpenseLinesConcat(rows1: seq<Row>, rows2: seq<Row>)
    ensures Filter(DecodeBudget(rows1 + rows2), IsExpenseLine) ==
            Filter(DecodeBudget(rows1), IsExpenseLine) + Filter(DecodeBudget(rows2), IsExpenseLine)
  {
    DecodeBudgetConcat(rows1, rows2);
    FilterConcat(DecodeBudget(rows1), DecodeBudget(rows2), IsExpenseLine);
  }

  lemma SpentTotalConcat(es1: seq<BudgetEntry>, es2: seq<BudgetEntry>)
    ensures Sum(Spent(es1 + es2)) == Add(Sum(Spent(es1)), Sum(Spent(es2)))
  {
    SpentConcat(es1, es2);
    SumConcat(Spent(es1), Spent(es2));
  }

  lemma IncomeTotalConcat(rows1: seq<Row>, rows2: seq<Row>)
    ensures IncomeTotal(rows1 + rows2) == Add(IncomeTotal(rows1), IncomeTotal(rows2))
  {
    FilterConcat(rows1, rows2, IsIncomeRow);
    var i1, i2 := Filter(rows1, IsIncomeRow), Filter(rows2, IsIncomeRow);
    DecodeBudgetConcat(i1, i2);
    BudgetsConcat(DecodeBudget(i1), DecodeBudget(i2));
    SumConcat(Budgets(DecodeBudget(i1)), Budgets(DecodeBudget(i2)));
  }

  lemma BudgetsConcat(es1: seq<BudgetEntry>, es2: seq<BudgetEntry>)
    ensures Budgets(es1 + es2) == Budgets(es1) + Budgets(es2)
  {
  }

  lemma SpentConcat(es1: seq<BudgetEntry>, es2: seq<BudgetEntry>)
    ensures Spent(es1 + es2) == Spent(es1) + Spent(es2)
  {
  }

  /** An empty sheet gives no lines and two zero totals. */
  lemma GetBudgetEmpty()
    ensures GetBudget([]) == BudgetView([], Some(0), Some(0))
  {
  }

  /** What one row adds: its amount spent to the expense total when it is
      an expense line, its limit to the income total when it is marked
      INCOME, and 0 otherwise. With `GetBudgetConcat` this fixes both totals
      of any sheet. */
  lemma GetBudgetOneRow(r: Row)
    ensures GetBudget([r]).totalExpense ==
              if IsExpenseLine(DecodeBudgetEntry(r)) then DecodeBudgetEntry(r).expense else Some(0)
    ensures GetBudget([r]).totalIncome ==
              if IsIncomeRow(r) then DecodeBudgetEntry(r).budget else Some(0)
  {
    OneRowSpent(r);
    OneRowIncome(r);
  }

  lemma OneRowSpent(r: Row)
    ensures Sum(Spent(Filter(DecodeBudget([r]), IsExpenseLine))) ==
              if IsExpenseLine(DecodeBudgetEntry(r)) then DecodeBudgetEntry(r).expense else Some(0)
  {
    var e := DecodeBudgetEntry(r);
    assert DecodeBudget([r]) == [e];
    FilterOne(e, IsExpenseLine);
    if IsExpenseLine(e) {
      assert Spent([e]) == [e.expense];
      SumOne(e.expense);
    } else {
      assert Spent([]) == [];
    }
  }

  lemma OneRowIncome(r: Row)
    ensures IncomeTotal([r]) == if IsIncomeRow(r) then DecodeBudgetEntry(r).budget else Some(0)
  {
    FilterOne(r, IsIncomeRow);
    if IsIncomeRow(r) {
      var e := DecodeBudgetEntry(r);
      assert DecodeBudget([r]) == [e];
      assert Budgets([e]) == [e.budget];
      SumOne(e.budget);
    } else {
      assert DecodeBudget([]) == [];
      assert Budgets([]) == [];
    }
  }

  // ---------------------------------------------------------------------
  // BudgetRow

  /** What one budget row shows: what is left, the bar's caption, and whether
      the green "success" bar for the remainder is drawn. */
  datatype RowView = RowView(remaining: Num, caption: string, showSuccess: bool)

  predicate Overspent(entry: BudgetEntry) {
    entry.budget.Some? && entry.expense.Some? && entry.expense.value > entry.budget.value
  }

  /** `BudgetRow`'s arithmetic: `remaining = budget - expense`; the caption is
      the amount spent, followed by the (negative) remainder in parentheses
      when the budget is exceeded; the success bar is drawn when the
      remainder is a number at least 0. A NaN limit therefore shows neither
      the remainder nor the success bar. */
  function BudgetRowView(entry: BudgetEntry): (v: RowView)
    ensures v.remaining == Sub(entry.budget, entry.expense)
    ensures v.showSuccess <==> entry.budget.Some? && entry.expense.Some? && entry.expense.value <= entry.budget.value
    ensures |NumToString(entry.expense)| <= |v.caption| && v.caption[..|NumToString(entry.expense)|] == NumToString(entry.expense)
    ensures |v.caption| > |NumToString(entry.expense)| <==> Overspent(entry)
    ensures Overspent(entry) ==>
              v.caption == NumToString(entry.expense) + " (-" + NatToString(entry.expense.value - entry.budget.value) + ")"
  {
    var remaining := Sub(entry.budget, entry.expense);
    var caption :=
      if remaining.Some? && remaining.value < 0
      then NumToString(entry.expense) + " (" + NumToString(Sub(entry.budget, entry.expense)) + ")"
      else NumToString(entry.expense);
    RowView(remaining, caption, remaining.Some? && remaining.value >= 0)
  }

  /** The caption starts with the amount spent as `parseInt` reads it back. */
  lemma LabelReadsBackSpent(entry: BudgetEntry)
    requires entry.expense.Some?
    ensures ParseIntString(BudgetRowView(entry).caption) == entry.expense
  {
    var n := entry.expense.value;
    var caption := BudgetRowView(entry).caption;
    if Overspent(entry) {
      var rest := " (" + NumToString(Sub(entry.budget, entry.expense)) + ")";
      assert caption == IntToString(n) + rest;
      ParseIntOfIntToString(n, rest);
    } else {
      ParseIntOfIntToString(n, []);
      assert caption == IntToString(n) + [];
    }
  }

  /** `(e) => e.category === entry.name`; two undefined values are equal. */
  function InCategory(name: Cell): Expense -> bool {
    (e: Expense) => e.category == name
  }

  /** `r.filter((e) => e.category === entry.name).slice(0, 10)`. */
  function DrillDown(listing: seq<Expense>, name: Cell): (r: seq<Expense>)
    ensures |r| <= 10 && |r| <= |listing|
    ensures forall k :: 0 <= k < |r| ==> r[k].category == name
  {
    Take(Filter(listing, InCategory(name)), 10)
  }

  /** The drill-down under a budget row: the listing of `getExpenses`
      filtered to the row's category, first ten. It holds at most ten
      expenses of that category, newest first; it holds all of them when
      there are fewer than ten, and otherwise every one it leaves out is
      older than every one it shows. */
  method CategoryExpenses(rows: seq<Row>, name: Cell) returns (r: seq<Expense>)
    requires DatesValid(rows)
    ensures |r| == if |Filter(Decoded(rows), InCategory(name))| < 10 then |Filter(Decoded(rows), InCategory(name))| else 10
    ensures forall k :: 0 <= k < |r| ==> r[k].category == name
    ensures multiset(r) <= multiset(Decoded(rows))
    ensures forall i, j :: 0 <= i < j < |r| ==> NewerFirst(r[i], r[j])
    ensures forall e :: e in Decoded(rows) && e.category == name && e !in r ==>
              forall k :: 0 <= k < |r| ==> NewerFirst(r[k], e)
  {
    var all := GetExpenses(rows);
    r := DrillDown(all, name);
    DrillDownCount(all, Decoded(rows), name);
    DrillDownMembers(all, Decoded(rows), name);
    DrillDownOrder(all, name);
    DrillDownLeftOut(all, Decoded(rows), name);
  }

  /** The drill-down of any reordering `all` of the decoded expenses `d` has
      min(10, count) elements. */
  lemma DrillDownCount(all: seq<Expense>, d: seq<Expense>, name: Cell)
    requires multiset(all) == multiset(d)
    ensures |DrillDown(all, name)| == if |Filter(d, InCategory(name))| < 10 then |Filter(d, InCategory(name))| else 10
  {
    SameCount(all, d, InCategory(name));
  }

  /** The drill-down shows expenses of the category, drawn from `d`. */
  lemma DrillDownMembers(all: seq<Expense>, d: seq<Expense>, name: Cell)
    requires multiset(all) == multiset(d)
    ensures forall k :: 0 <= k < |DrillDown(all, name)| ==> DrillDown(all, name)[k].category == name
    ensures multiset(DrillDown(all, name)) <= multiset(d)
  {
    var matching := Filter(all, InCategory(name));
    assert forall k :: 0 <= k < |DrillDown(all, name)| ==> DrillDown(all, name)[k] == matching[k];
    TakeFromFiltered(all, d, InCategory(name), 10);
  }

  /** The drill-down of a newest-first listing is newest first. */
  lemma DrillDownOrder(all: seq<Expense>, name: Cell)
    requires forall i, j :: 0 <= i < j < |all| ==> NewerFirst(all[i], all[j])
    ensures forall i, j :: 0 <= i < j < |DrillDown(all, name)| ==> NewerFirst(DrillDown(all, name)[i], DrillDown(all, name)[j])
  {
    var matching := Filter(all, InCategory(name));
    FilterKeepsOrder(all, InCategory(name), NewerFirst);
    assert forall k :: 0 <= k < |DrillDown(all, name)| ==> DrillDown(all, name)[k] == matching[k];
  }

  /** Every expense of the category that the drill-down of a newest-first
      listing leaves out is older than every one it shows. */
  lemma DrillDownLeftOut(all: seq<Expense>, d: seq<Expense>, name: Cell)
    requires multiset(all) == multiset(d)
    requires forall i, j :: 0 <= i < j < |all| ==> NewerFirst(all[i], all[j])
    ensures forall e :: e in d && e.category == name && e !in DrillDown(all, name) ==>
              forall k :: 0 <= k < |DrillDown(all, name)| ==> NewerFirst(DrillDown(all, name)[k], e)
  {
    forall e | e in d && e.category == name && e !in DrillDown(all, name)
      ensures forall k :: 0 <= k < |DrillDown(all, name)| ==> NewerFirst(DrillDown(all, name)[k], e)
    {
      LeftOutIsOlder(all, d, name, e);
    }
  }

  lemma LeftOutIsOlder(all: seq<Expense>, d: seq<Expense>, name: Cell, e: Expense)
    requires multiset(all) == multiset(d)
    requires forall i, j :: 0 <= i < j < |all| ==> NewerFirst(all[i], all[j])
    requires e in d && e.category == name && e !in Take(Filter(all, InCategory(name)), 10)
    ensures forall k :: 0 <= k < |Take(Filter(all, InCategory(name)), 10)| ==>
              NewerFirst(Take(Filter(all, InCategory(name)), 10)[k], e)
  {
    var matching := Filter(all, InCategory(name));
    FilterMultiset(all, InCategory(name));
    assert e in multiset(matching);
    FilterKeepsOrder(all, InCategory(name), NewerFirst);
    TakeLeavesLater(matching, 10, NewerFirst, e);
  }
}
