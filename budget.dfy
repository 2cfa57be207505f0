/**
 * The bookkeeping loops of the history page (`view_history`) and of the
 * accounting filter (`filter_accounting_data`): the budget-overflow marking over
 * the tickets of a period, the listing of those tickets, the per-account
 * dashboard and the per-account totals. Amounts are integers in thousandths of
 * a dinar.
 */
module Budget {
  import opened Wrappers

  // ------------------------------------------------------ overflow marking

  datatype Ticket = Ticket(id: nat, total: int)

  /** One row of the history listing. */
  datatype Status = Status(ticket: nat, runningTotal: Option<int>, causesOverflow: bool, isOverBudget: bool)

  /** The sum of the totals of `tickets`. */
  function Spent(tickets: seq<Ticket>): int
    decreases |tickets|
  {
    if tickets == [] then 0 else Spent(tickets[..|tickets| - 1]) + tickets[|tickets| - 1].total
  }

  /** Ticket `i` takes the running total from at most the budget to above it. */
  predicate Crosses(tickets: seq<Ticket>, i: nat, budget: int)
    requires i < |tickets|
  {
    Spent(tickets[..i]) <= budget < Spent(tickets[..i + 1])
  }

  /** Some ticket up to and including `i` crossed the budget. */
  predicate CrossedBy(tickets: seq<Ticket>, i: nat, budget: int)
    requires i < |tickets|
  {
    exists j :: 0 <= j <= i && Crosses(tickets, j, budget)
  }

  /** The row of ticket `i` when the period has a budget. */
  function BudgetStatus(tickets: seq<Ticket>, i: nat, budget: int): Status
    requires i < |tickets|
  {
    Status(tickets[i].id, Some(Spent(tickets[..i + 1])), Crosses(tickets, i, budget), CrossedBy(tickets, i, budget))
  }

  /**
   * The loop over the chronologically sorted tickets of the period: running
   * total, the ticket that takes it over the budget, every ticket from that one
   * on, and whether the period as a whole is over the budget.
   */
  method MarkOverflow(tickets: seq<Ticket>, budget: int) returns (statuses: seq<Status>, exceeded: bool)
    ensures |statuses| == |tickets|
    ensures forall i :: 0 <= i < |tickets| ==> statuses[i] == BudgetStatus(tickets, i, budget)
    ensures exceeded <==> Spent(tickets) > budget
  {
    statuses := [];
    var running := 0;
    var reached := false;
    for i := 0 to |tickets|
      invariant |statuses| == i
      invariant running == Spent(tickets[..i])
      invariant reached <==> exists j :: 0 <= j < i && Crosses(tickets, j, budget)
      invariant forall k :: 0 <= k < i ==> statuses[k] == BudgetStatus(tickets, k, budget)
    {
      var previous := running;
      running := running + tickets[i].total;
      assert tickets[..i + 1][..i] == tickets[..i];
      assert running == Spent(tickets[..i + 1]);
      var causes := previous <= budget && running > budget;
      assert causes == Crosses(tickets, i, budget);
      if causes {
        reached := true;
      }
      statuses := statuses + [Status(tickets[i].id, Some(running), causes, reached)];
    }
    assert tickets[..|tickets|] == tickets;
    exceeded := running > budget;
  }

  // ------------------------------------------------------------- listing

  /** The row added for a ticket outside the budget loop. */
  function Plain(t: Ticket): Status {
    Status(t.id, None, false, false)
  }

  function BudgetRows(tickets: seq<Ticket>, budget: int): seq<Status> {
    seq(|tickets|, i requires 0 <= i < |tickets| => BudgetStatus(tickets, i, budget))
  }

  function PlainRows(tickets: seq<Ticket>): seq<Status> {
    seq(|tickets|, i requires 0 <= i < |tickets| => Plain(tickets[i]))
  }

  /**
   * The listing as `view_history` builds it. `chronological` is the period in
   * date order, `period` the same tickets in query order. The loop that adds
   * the plain rows sits after the no-budget branch instead of inside it,
   * so with a budget it runs too.
   */
  function ListingAsWritten(budget: Option<int>, chronological: seq<Ticket>, period: seq<Ticket>): (rows: seq<Status>)
    ensures RowIds(rows) == (if budget.Some? then Ids(chronological) + Ids(period) else Ids(period))
  {
    RowIdsOfRows(chronological, if budget.Some? then budget.value else 0);
    RowIdsOfRows(period, 0);
    if budget.Some? then
      RowIdsAppend(BudgetRows(chronological, budget.value), PlainRows(period));
      BudgetRows(chronological, budget.value) + PlainRows(period)
    else PlainRows(period)
  }

  /** The listing with the plain rows only when there is no budget. */
  function Listing(budget: Option<int>, chronological: seq<Ticket>, period: seq<Ticket>): (rows: seq<Status>)
    ensures RowIds(rows) == (if budget.Some? then Ids(chronological) else Ids(period))
  {
    RowIdsOfRows(chronological, if budget.Some? then budget.value else 0);
    RowIdsOfRows(period, 0);
    if budget.Some? then BudgetRows(chronological, budget.value) else PlainRows(period)
  }

  /** The listing loops of `view_history`, as written. */
  method HistoryListing(budget: Option<int>, chronological: seq<Ticket>, period: seq<Ticket>)
    returns (rows: seq<Status>, exceeded: bool)
    ensures rows == ListingAsWritten(budget, chronological, period)
    ensures exceeded <==> budget.Some? && Spent(chronological) > budget.value
  {
    rows := [];
    exceeded := false;
    if budget.Some? {
      rows, exceeded := MarkOverflow(chronological, budget.value);
    }
    ghost var head := rows;
    assert head == (if budget.Some? then BudgetRows(chronological, budget.value) else []);
    for i := 0 to |period|
      invariant rows == head + PlainRows(period[..i])
    {
      assert PlainRows(period[..i + 1]) == PlainRows(period[..i]) + [Plain(period[i])];
      rows := rows + [Plain(period[i])];
    }
    assert period[..|period|] == period;
  }

  /** The ticket of each row. */
  function RowIds(rows: seq<Status>): seq<nat> {
    seq(|rows|, i requires 0 <= i < |rows| => rows[i].ticket)
  }

  function Ids(tickets: seq<Ticket>): seq<nat> {
    seq(|tickets|, i requires 0 <= i < |tickets| => tickets[i].id)
  }

  lemma RowIdsAppend(a: seq<Status>, b: seq<Status>)
    ensures RowIds(a + b) == RowIds(a) + RowIds(b)
  {
    assert forall k :: 0 <= k < |a + b| ==> RowIds(a + b)[k] == (RowIds(a) + RowIds(b))[k];
  }

  lemma RowIdsOfRows(tickets: seq<Ticket>, budget: int)
    ensures RowIds(BudgetRows(tickets, budget)) == Ids(tickets)
    ensures RowIds(PlainRows(tickets)) == Ids(tickets)
  {
  }

  // ---------------------------------------------------- account dashboard

  /** An accounting entry: account number, debit, credit and description, each possibly missing. */
  datatype Entry = Entry(account: Option<string>, debit: Option<int>, credit: Option<int>, description: Option<string>)

  /** The dashboard's account for an entry: a missing or empty account is "INCONNU". */
  function DashboardAccount(e: Entry): string {
    if e.account.Some? && e.account.value != "" then e.account.value else "INCONNU"
  }

  datatype AccountSummary = AccountSummary(account: string, totalDebit: int, totalCredit: int, count: nat, descriptions: set<string>)

  /** The summary `s` with entry `e` added to it. */
  function Tallied(s: AccountSummary, e: Entry): AccountSummary {
    AccountSummary(s.account,
      s.totalDebit + (if e.debit.Some? then e.debit.value else 0),
      s.totalCredit + (if e.credit.Some? then e.credit.value else 0),
      s.count + 1,
      s.descriptions + (if e.description.Some? && e.description.value != "" then {e.description.value} else {}))
  }

  /**
   * The summary of account `k` over `entries`, entry by entry: it counts at most every
   * entry, and an account with no entry counted has no debit, credit or description.
   */
  function Summary(entries: seq<Entry>, k: string): (r: AccountSummary)
    decreases |entries|
    ensures r.account == k && r.count <= |entries|
    ensures r.count == 0 ==> r.totalDebit == 0 && r.totalCredit == 0 && r.descriptions == {}
  {
    if entries == [] then AccountSummary(k, 0, 0, 0, {})
    else
      var s := Summary(entries[..|entries| - 1], k);
      var e := entries[|entries| - 1];
      if DashboardAccount(e) != k then s else Tallied(s, e)
  }

  /** An account no entry names has the empty summary. */
  lemma {:induction false} SummaryOfAbsent(entries: seq<Entry>, k: string)
    requires forall j :: 0 <= j < |entries| ==> DashboardAccount(entries[j]) != k
    ensures Summary(entries, k) == AccountSummary(k, 0, 0, 0, {})
    decreases |entries|
  {
    if entries != [] {
      SummaryOfAbsent(entries[..|entries| - 1], k);
    }
  }

  /** The body of the dashboard loop for one entry of the account. */
  method Tally(s: AccountSummary, e: Entry) returns (t: AccountSummary)
    ensures t == Tallied(s, e)
  {
    t := s;
    if e.debit.Some? {
      t := t.(totalDebit := t.totalDebit + e.debit.value);
    }
    if e.credit.Some? {
      t := t.(totalCredit := t.totalCredit + e.credit.value);
    }
    t := t.(count := t.count + 1);
    if e.description.Some? && e.description.value != "" {
      t := t.(descriptions := t.descriptions + {e.description.value});
    }
  }

  /** The per-account dashboard of `view_history` over the entries of the period. */
  method Dashboard(entries: seq<Entry>) returns (dash: map<string, AccountSummary>)
    ensures forall k :: k in dash <==> exists i :: 0 <= i < |entries| && DashboardAccount(entries[i]) == k
    ensures forall k :: k in dash ==> dash[k] == Summary(entries, k)
  {
    dash := map[];
    for i := 0 to |entries|
      invariant forall k :: k in dash <==> exists j :: 0 <= j < i && DashboardAccount(entries[j]) == k
      invariant forall k :: k in dash ==> dash[k] == Summary(entries[..i], k)
    {
      var e := entries[i];
      var k := DashboardAccount(e);
      if k !in dash {
        SummaryOfAbsent(entries[..i], k);
        dash := dash[k := AccountSummary(k, 0, 0, 0, {})];
      }
      var s := Tally(dash[k], e);
      SummaryStep(entries, i);
      dash := dash[k := s];
    }
    assert entries[..|entries|] == entries;
  }

  /** One more entry changes the summary of its own account only. */
  lemma SummaryStep(entries: seq<Entry>, i: nat)
    requires i < |entries|
    ensures forall k ::
              Summary(entries[..i + 1], k)
              == (if DashboardAccount(entries[i]) == k then Tallied(Summary(entries[..i], k), entries[i]) else Summary(entries[..i], k))
  {
    assert entries[..i + 1][..i] == entries[..i];
  }

  // ------------------------------------------------- accounting filter

  datatype Totals = Totals(debit: int, credit: int)

  datatype AccountReport = AccountReport(accounts: map<Option<string>, Totals>, total: Totals)

  /** Every entry has a debit: `float(entry.debit)` raises on one that has none. */
  predicate AllDebited(entries: seq<Entry>) {
    forall i :: 0 <= i < |entries| ==> entries[i].debit.Some?
  }

  /** What one entry adds: its debit, and its credit when that is truthy. */
  function Contribution(e: Entry): Totals {
    Totals(if e.debit.Some? then e.debit.value else 0,
           if e.credit.Some? && e.credit.value != 0 then e.credit.value else 0)
  }

  function Add(a: Totals, b: Totals): Totals {
    Totals(a.debit + b.debit, a.credit + b.credit)
  }

  /** The totals of the entries whose account is `a`. */
  function AccountTotals(entries: seq<Entry>, a: Option<string>): Totals
    decreases |entries|
  {
    if entries == [] then Totals(0, 0)
    else
      var t := AccountTotals(entries[..|entries| - 1], a);
      var e := entries[|entries| - 1];
      if e.account == a then Add(t, Contribution(e)) else t
  }

  /** The totals over all entries. */
  function GrandTotals(entries: seq<Entry>): Totals
    decreases |entries|
  {
    if entries == [] then Totals(0, 0)
    else Add(GrandTotals(entries[..|entries| - 1]), Contribution(entries[|entries| - 1]))
  }

  lemma {:induction false} AccountTotalsOfAbsent(entries: seq<Entry>, a: Option<string>)
    requires forall j :: 0 <= j < |entries| ==> entries[j].account != a
    ensures AccountTotals(entries, a) == Totals(0, 0)
    decreases |entries|
  {
    if entries != [] {
      AccountTotalsOfAbsent(entries[..|entries| - 1], a);
    }
  }

  /**
   * The totals of `filter_accounting_data` over the filtered entries: `None` is
   * the error response the handler returns when an entry has no debit.
   */
  method FilterTotals(entries: seq<Entry>) returns (r: Option<AccountReport>)
    ensures r.None? <==> !AllDebited(entries)
    ensures r.Some? ==> forall a :: a in r.value.accounts <==> exists i :: 0 <= i < |entries| && entries[i].account == a
    ensures r.Some? ==> forall a :: a in r.value.accounts ==> r.value.accounts[a] == AccountTotals(entries, a)
    ensures r.Some? ==> r.value.total == GrandTotals(entries)
  {
    for i := 0 to |entries|
      invariant forall j :: 0 <= j < i ==> entries[j].debit.Some?
    {
      if entries[i].debit.None? {
        return None;
      }
    }
    var accounts: map<Option<string>, Totals> := map[];
    var debit := 0;
    var credit := 0;
    for i := 0 to |entries|
      invariant forall a :: a in accounts <==> exists j :: 0 <= j < i && entries[j].account == a
      invariant forall a :: a in accounts ==> accounts[a] == AccountTotals(entries[..i], a)
      invariant Totals(debit, credit) == GrandTotals(entries[..i])
    {
      var e := entries[i];
      var a := e.account;
      if a !in accounts {
        AccountTotalsOfAbsent(entries[..i], a);
        accounts := accounts[a := Totals(0, 0)];
      }
      var t := accounts[a];
      t := t.(debit := t.debit + e.debit.value);
      if e.credit.Some? && e.credit.value != 0 {
        t := t.(credit := t.credit + e.credit.value);
      }
      debit := debit + e.debit.value;
      if e.credit.Some? && e.credit.value != 0 {
        credit := credit + e.credit.value;
      }
      assert entries[..i + 1][..i] == entries[..i];
      accounts := accounts[a := t];
    }
    assert entries[..|entries|] == entries;
    r := Some(AccountReport(accounts, Totals(debit, credit)));
  }
}

/** What the budget marking, the listing and the two account views promise. */
module BudgetFacts {
  import opened Wrappers
  import opened Budget

  /** Once some ticket has crossed the budget, every later ticket is marked over it. */
  lemma OverBudgetPersists(tickets: seq<Ticket>, budget: int, i: nat, j: nat)
    requires i <= j < |tickets| && CrossedBy(tickets, i, budget)
    ensures CrossedBy(tickets, j, budget)
  {
    var w :| 0 <= w <= i && Crosses(tickets, w, budget);
    assert 0 <= w <= j && Crosses(tickets, w, budget);
  }

  /** Crossing is about the tickets so far: a longer period does not change it. */
  lemma CrossesPrefix(tickets: seq<Ticket>, n: nat, i: nat, budget: int)
    requires i < n <= |tickets|
    ensures Crosses(tickets[..n], i, budget) <==> Crosses(tickets, i, budget)
  {
    assert tickets[..n][..i] == tickets[..i];
    assert tickets[..n][..i + 1] == tickets[..i + 1];
  }

  /**
   * A period over a non-negative budget has a ticket that causes the overflow:
   * the running total starts at 0 and ends above the budget.
   */
  lemma {:induction false} ExceededHasCrossing(tickets: seq<Ticket>, budget: int)
    requires 0 <= budget < Spent(tickets)
    ensures exists i :: 0 <= i < |tickets| && Crosses(tickets, i, budget)
    decreases |tickets|
  {
    var n := |tickets|;
    var init := tickets[..n - 1];
    assert tickets[..n] == tickets;
    if Spent(init) > budget {
      ExceededHasCrossing(init, budget);
      var i :| 0 <= i < |init| && Crosses(init, i, budget);
      CrossesPrefix(tickets, n - 1, i, budget);
    } else {
      assert Crosses(tickets, n - 1, budget);
    }
  }

  /** With non-negative ticket totals the running total never decreases. */
  lemma {:induction false} SpentMonotone(tickets: seq<Ticket>, i: nat, j: nat)
    requires i <= j <= |tickets|
    requires forall k :: 0 <= k < |tickets| ==> tickets[k].total >= 0
    ensures Spent(tickets[..i]) <= Spent(tickets[..j])
    decreases j
  {
    if i < j {
      SpentMonotone(tickets, i, j - 1);
      assert tickets[..j][..j - 1] == tickets[..j - 1];
    }
  }

  /**
   * With non-negative ticket totals at most one ticket causes the overflow, and a
   * ticket is marked over the budget exactly when the running total is above it.
   */
  lemma NonNegativeCrossesOnce(tickets: seq<Ticket>, budget: int)
    requires forall k :: 0 <= k < |tickets| ==> tickets[k].total >= 0
    ensures forall i, j :: 0 <= i < |tickets| && 0 <= j < |tickets| && Crosses(tickets, i, budget) && Crosses(tickets, j, budget) ==> i == j
    ensures 0 <= budget ==> forall i :: 0 <= i < |tickets| ==> (CrossedBy(tickets, i, budget) <==> Spent(tickets[..i + 1]) > budget)
  {
    forall i, j | 0 <= i < |tickets| && 0 <= j < |tickets| && Crosses(tickets, i, budget) && Crosses(tickets, j, budget)
      ensures i == j
    {
      if i < j {
        SpentMonotone(tickets, i + 1, j);
      } else if j < i {
        SpentMonotone(tickets, j + 1, i);
      }
    }
    if 0 <= budget {
      forall i | 0 <= i < |tickets|
        ensures CrossedBy(tickets, i, budget) <==> Spent(tickets[..i + 1]) > budget
      {
        if CrossedBy(tickets, i, budget) {
          var w :| 0 <= w <= i && Crosses(tickets, w, budget);
          SpentMonotone(tickets, w + 1, i + 1);
        }
        if Spent(tickets[..i + 1]) > budget {
          var prefix := tickets[..i + 1];
          ExceededHasCrossing(prefix, budget);
          var w :| 0 <= w < |prefix| && Crosses(prefix, w, budget);
          CrossesPrefix(tickets, i + 1, w, budget);
        }
      }
    }
  }

  /**
   * With a budget, the listing as written holds every ticket of the period
   * twice: once from the budget loop and once from the plain loop.
   */
  lemma ListingAsWrittenListsTwice(budget: int, chronological: seq<Ticket>, period: seq<Ticket>)
    requires multiset(Ids(chronological)) == multiset(Ids(period))
    ensures var rows := ListingAsWritten(Some(budget), chronological, period);
      |rows| == 2 * |period| && multiset(RowIds(rows)) == multiset(Ids(period)) + multiset(Ids(period))
  {
    assert |Ids(chronological)| == |multiset(Ids(period))| == |period|;
  }

  /** The intended listing holds every ticket of the period once. */
  lemma ListingListsOnce(budget: Option<int>, chronological: seq<Ticket>, period: seq<Ticket>)
    requires multiset(Ids(chronological)) == multiset(Ids(period))
    ensures var rows := Listing(budget, chronological, period);
      |rows| == |period| && multiset(RowIds(rows)) == multiset(Ids(period))
  {
    assert |Ids(chronological)| == |multiset(Ids(period))| == |period|;
  }

  /**
   * The dashboard and the accounting filter agree on a named account: same
   * debit, and the same credit although the filter only adds truthy credits.
   * "INCONNU" is excluded because the dashboard also files entries without an
   * account under that name.
   */
  lemma {:induction false} DashboardAgreesWithFilter(entries: seq<Entry>, a: string)
    requires a != "" && a != "INCONNU"
    ensures Summary(entries, a).totalDebit == AccountTotals(entries, Some(a)).debit
    ensures Summary(entries, a).totalCredit == AccountTotals(entries, Some(a)).credit
    decreases |entries|
  {
    if entries != [] {
      DashboardAgreesWithFilter(entries[..|entries| - 1], a);
      var e := entries[|entries| - 1];
      assert DashboardAccount(e) == a <==> e.account == Some(a);
    }
  }

  /** An account's dashboard count is the number of its entries, so it is present exactly when named. */
  lemma {:induction false} SummaryCountsEntries(entries: seq<Entry>, k: string)
    ensures Summary(entries, k).count > 0 <==> exists i :: 0 <= i < |entries| && DashboardAccount(entries[i]) == k
    ensures Summary(entries, k).count <= |entries|
    decreases |entries|
  {
    if entries != [] {
      var init := entries[..|entries| - 1];
      SummaryCountsEntries(init, k);
      if exists i :: 0 <= i < |init| && DashboardAccount(init[i]) == k {
        var i :| 0 <= i < |init| && DashboardAccount(init[i]) == k;
        assert entries[i] == init[i];
      }
      if exists i :: 0 <= i < |entries| && DashboardAccount(entries[i]) == k {
        var i :| 0 <= i < |entries| && DashboardAccount(entries[i]) == k;
        if i < |init| {
          assert init[i] == entries[i];
        }
      }
    }
  }

  /** The grand totals split into one account's totals and the rest. */
  lemma {:induction false} GrandTotalsSplit(entries: seq<Entry>, a: Option<string>)
    ensures GrandTotals(entries) == Add(AccountTotals(entries, a), GrandTotals(Others(entries, a)))
    decreases |entries|
  {
    if entries != [] {
      var init := entries[..|entries| - 1];
      var e := entries[|entries| - 1];
      GrandTotalsSplit(init, a);
      var o := Others(init, a);
      if e.account != a {
        assert Others(entries, a) == o + [e];
        assert (o + [e])[..|o|] == o;
        assert GrandTotals(o + [e]) == Add(GrandTotals(o), Contribution(e));
      } else {
        assert Others(entries, a) == o;
      }
    }
  }

  /** The entries whose account is not `a`, in order. */
  function Others(entries: seq<Entry>, a: Option<string>): seq<Entry>
    decreases |entries|
  {
    if entries == [] then []
    else
      var init := Others(entries[..|entries| - 1], a);
      var e := entries[|entries| - 1];
      if e.account == a then init else init + [e]
  }
}
