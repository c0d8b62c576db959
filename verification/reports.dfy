/** The four read-side reports: trial balance, ledger, balance sheet and
    income statement. Each is a filter-then-sum over the lines of validated
    entries inside optional inclusive date bounds. */
module Reports {
  import opened Wrappers
  import opened Calendar
  import opened Sums
  import opened Sorting
  import opened Text
  import opened Ledger

  /** A line joined with its entry, as `.join(EntryLine.entry)` yields it. */
  datatype Posting = Posting(date: CalendarDate, reference: string, line: EntryLine)

  function PostingDebit(p: Posting): int { LineDebit(p.line) }

  function PostingCredit(p: Posting): int { LineCredit(p.line) }

  /** An entry the reports read: validated, and dated within the bounds. */
  predicate Included(e: Entry, range: DateRange) {
    e.validated && InRange(e.date, range)
  }

  /** The lines of one entry, each joined with the entry's date and reference. */
  function Join(date: CalendarDate, reference: string, lines: seq<EntryLine>): (r: seq<Posting>)
    ensures |r| == |lines|
    ensures forall k :: 0 <= k < |r| ==> r[k] == Posting(date, reference, lines[k])
  {
    if |lines| == 0 then [] else [Posting(date, reference, lines[0])] + Join(date, reference, lines[1..])
  }

  function PostingsOf(e: Entry): seq<Posting> {
    Join(e.date, e.reference, e.lines)
  }

  /** `.filter(Entry.validated.is_(True))` plus the optional `entry_date`
      bounds: every line of every included entry, in entry order. */
  function ReportPostings(entries: seq<Entry>, range: DateRange): (r: seq<Posting>)
    ensures forall i, k ::
              0 <= i < |entries| && Included(entries[i], range) && 0 <= k < |entries[i].lines| ==>
              Posting(entries[i].date, entries[i].reference, entries[i].lines[k]) in r
    ensures forall p :: p in r ==> exists i :: 0 <= i < |entries| && Included(entries[i], range) && p in PostingsOf(entries[i])
  {
    if |entries| == 0 then []
    else
      var rest := ReportPostings(entries[1..], range);
      assert forall i :: 1 <= i < |entries| ==> entries[i] == entries[1..][i - 1];
      (if Included(entries[0], range) then PostingsOf(entries[0]) else []) + rest
  }

  /** Reporting commutes with splitting the entries: each entry contributes its
      own lines, once each, in entry order. */
  lemma {:induction false} ReportPostingsConcat(a: seq<Entry>, b: seq<Entry>, range: DateRange)
    ensures ReportPostings(a + b, range) == ReportPostings(a, range) + ReportPostings(b, range)
  {
    if |a| == 0 {
      assert a + b == b;
    } else {
      assert (a + b)[1..] == a[1..] + b;
      ReportPostingsConcat(a[1..], b, range);
    }
  }

  /** One entry contributes all its lines, joined with its date and
      reference, when it is included, and nothing otherwise. */
  lemma ReportPostingsSingle(e: Entry, range: DateRange)
    ensures ReportPostings([e], range) == if Included(e, range) then PostingsOf(e) else []
  {
    assert [e][1..] == [];
  }

  /** Only validated entries reach a report, and only when dated within both
      bounds; a date equal to a bound is inside it. */
  lemma ReportedOnlyIfIncluded(entries: seq<Entry>, range: DateRange, p: Posting)
    requires p in ReportPostings(entries, range)
    ensures exists i ::
              && 0 <= i < |entries| && entries[i].validated && entries[i].date == p.date
              && entries[i].reference == p.reference && p.line in entries[i].lines
    ensures InRange(p.date, range)
  {
    var i :| 0 <= i < |entries| && Included(entries[i], range) && p in PostingsOf(entries[i]);
    var e := entries[i];
    var k :| 0 <= k < |PostingsOf(e)| && PostingsOf(e)[k] == p;
    assert p == Posting(e.date, e.reference, e.lines[k]);
    assert e.validated && InRange(e.date, range);
    assert e.lines[k] in e.lines;
  }

  /** The debit and credit columns of one entry's joined lines are the entry's own totals. */
  lemma {:induction false} JoinTotals(date: CalendarDate, reference: string, lines: seq<EntryLine>)
    ensures Sum(Join(date, reference, lines), PostingDebit) == TotalDebit(lines)
    ensures Sum(Join(date, reference, lines), PostingCredit) == TotalCredit(lines)
  {
    if |lines| > 0 {
      JoinTotals(date, reference, lines[1..]);
    }
  }

  /** When every included entry balances, so does the whole reported line set. */
  lemma {:induction false} ReportPostingsBalanced(entries: seq<Entry>, range: DateRange)
    requires forall i :: 0 <= i < |entries| && Included(entries[i], range) ==> IsBalanced(entries[i].lines)
    ensures Sum(ReportPostings(entries, range), PostingDebit) == Sum(ReportPostings(entries, range), PostingCredit)
  {
    if |entries| > 0 {
      var head := if Included(entries[0], range) then PostingsOf(entries[0]) else [];
      var rest := ReportPostings(entries[1..], range);
      assert forall i :: 1 <= i < |entries| ==> entries[i] == entries[1..][i - 1];
      ReportPostingsBalanced(entries[1..], range);
      SumConcat(head, rest, PostingDebit);
      SumConcat(head, rest, PostingCredit);
      JoinTotals(entries[0].date, entries[0].reference, entries[0].lines);
    }
  }

  // ----- selecting postings by account -----

  /** The postings whose account code is in `codes`: the join with `Account`
      followed by a filter on the account. */
  function Select(ps: seq<Posting>, codes: set<string>): (r: seq<Posting>)
    ensures |r| <= |ps|
    ensures forall p :: p in r <==> p in ps && p.line.account in codes
  {
    if |ps| == 0 then []
    else if ps[0].line.account in codes then [ps[0]] + Select(ps[1..], codes)
    else Select(ps[1..], codes)
  }

  /** Selection keeps each matching posting as many times as it occurs, and drops every other. */
  lemma {:induction false} SelectCounts(ps: seq<Posting>, codes: set<string>)
    ensures forall p :: multiset(Select(ps, codes))[p] == if p.line.account in codes then multiset(ps)[p] else 0
  {
    if |ps| > 0 {
      assert ps == [ps[0]] + ps[1..];
      SelectCounts(ps[1..], codes);
    }
  }

  /** Selecting with two disjoint code sets splits every column sum in two. */
  lemma {:induction false} SelectUnion(ps: seq<Posting>, s: set<string>, t: set<string>, g: Posting -> int)
    requires s !! t
    ensures Sum(Select(ps, s + t), g) == Sum(Select(ps, s), g) + Sum(Select(ps, t), g)
  {
    if |ps| > 0 {
      SelectUnion(ps[1..], s, t, g);
    }
  }

  /** Selecting every code that occurs selects everything. */
  lemma {:induction false} SelectAll(ps: seq<Posting>, codes: set<string>)
    requires forall p :: p in ps ==> p.line.account in codes
    ensures Select(ps, codes) == ps
  {
    if |ps| > 0 {
      SelectAll(ps[1..], codes);
    }
  }

  /** The codes of a list of accounts. */
  function Codes(accounts: seq<Account>): set<string> {
    set a | a in accounts :: a.code
  }

  /** Account codes are unique (`Account.code` is a unique column). */
  predicate DistinctCodes(accounts: seq<Account>) {
    forall i, j :: 0 <= i < j < |accounts| ==> accounts[i].code != accounts[j].code
  }

  /** Every line posts to an account of the chart (the foreign key on `account_id`). */
  predicate PostsToChart(chart: seq<Account>, entries: seq<Entry>) {
    forall i, k :: 0 <= i < |entries| && 0 <= k < |entries[i].lines| ==> entries[i].lines[k].account in Codes(chart)
  }

  /** The foreign key carries over to the reported lines. */
  lemma ReportedPostsToChart(chart: seq<Account>, entries: seq<Entry>, range: DateRange)
    requires PostsToChart(chart, entries)
    ensures forall p :: p in ReportPostings(entries, range) ==> p.line.account in Codes(chart)
  {
    forall p | p in ReportPostings(entries, range)
      ensures p.line.account in Codes(chart)
    {
      ReportedOnlyIfIncluded(entries, range, p);
    }
  }

  /** Adding up a per-account column over accounts with distinct codes is
      the same as adding up the column over all their postings. */
  lemma {:induction false} SumOverAccounts(accounts: seq<Account>, ps: seq<Posting>, g: Posting -> int, f: Account -> int)
    requires DistinctCodes(accounts)
    requires forall a :: a in accounts ==> f(a) == Sum(Select(ps, {a.code}), g)
    ensures Sum(accounts, f) == Sum(Select(ps, Codes(accounts)), g)
  {
    if |accounts| == 0 {
      assert Codes(accounts) == {};
      SumZero(Select(ps, {}), g);
    } else {
      var a := accounts[0];
      var rest := accounts[1..];
      assert Codes(accounts) == {a.code} + Codes(rest) by {
        assert forall b :: b in accounts <==> b == a || b in rest;
      }
      assert a.code !in Codes(rest) by {
        forall b | b in rest
          ensures b.code != a.code
        {
          var j :| 0 <= j < |rest| && rest[j] == b;
          assert accounts[j + 1] == b;
        }
      }
      SumOverAccounts(rest, ps, g, f);
      SelectUnion(ps, {a.code}, Codes(rest), g);
    }
  }

  // ----- trial balance -----

  function CodeOrder(a: Account, b: Account): bool {
    LexLe(a.code, b.code)
  }

  lemma CodeOrderTotal()
    ensures Total(CodeOrder)
  {
    forall a: Account, b: Account
      ensures CodeOrder(a, b) || CodeOrder(b, a)
    {
      LexLeTotal(a.code, b.code);
    }
    forall a: Account, b: Account, c: Account | CodeOrder(a, b) && CodeOrder(b, c)
      ensures CodeOrder(a, c)
    {
      LexLeTransitive(a.code, b.code, c.code);
    }
  }

  /** The chart in `order_by(Account.code)` order. */
  function ChartByCode(chart: seq<Account>): (r: seq<Account>)
    ensures multiset(r) == multiset(chart)
    ensures Sorted(r, CodeOrder)
  {
    CodeOrderTotal();
    SortBy(chart, CodeOrder)
  }

  datatype TrialRow = TrialRow(code: string, name: string, debit: int, credit: int, balance: int)

  function RowDebit(row: TrialRow): int { row.debit }

  function RowCredit(row: TrialRow): int { row.credit }

  function RowOrder(x: TrialRow, y: TrialRow): bool {
    LexLe(x.code, y.code)
  }

  function DebitSum(ps: seq<Posting>): int { Sum(ps, PostingDebit) }

  function CreditSum(ps: seq<Posting>): int { Sum(ps, PostingCredit) }

  /** The grouped row of one account. */
  function RowFor(a: Account, ps: seq<Posting>): TrialRow {
    var mine := Select(ps, {a.code});
    TrialRow(a.code, a.name, DebitSum(mine), CreditSum(mine), DebitSum(mine) - CreditSum(mine))
  }

  predicate HasPostings(a: Account, ps: seq<Posting>) {
    |Select(ps, {a.code})| > 0
  }

  /** One row per account that has postings, in the order of `accounts`;
      the inner join leaves out accounts without postings. */
  function Rows(accounts: seq<Account>, ps: seq<Posting>): (r: seq<TrialRow>)
    ensures forall k :: 0 <= k < |r| ==> r[k].balance == r[k].debit - r[k].credit
    ensures forall row :: row in r ==> exists a :: a in accounts && HasPostings(a, ps) && row == RowFor(a, ps)
    ensures forall a :: a in accounts && HasPostings(a, ps) ==> RowFor(a, ps) in r
  {
    if |accounts| == 0 then []
    else
      var rest := Rows(accounts[1..], ps);
      assert forall a :: a in accounts <==> a == accounts[0] || a in accounts[1..];
      if HasPostings(accounts[0], ps) then [RowFor(accounts[0], ps)] + rest else rest
  }

  /** A lower bound on the account codes bounds the row codes. */
  lemma {:induction false} RowsAbove(accounts: seq<Account>, ps: seq<Posting>, c: string)
    requires forall a :: a in accounts ==> LexLe(c, a.code)
    ensures forall row :: row in Rows(accounts, ps) ==> LexLe(c, row.code)
  {
    if |accounts| > 0 {
      assert accounts[0] in accounts;
      RowsAbove(accounts[1..], ps, c);
    }
  }

  /** Rows taken from code-ordered accounts are code-ordered. */
  lemma {:induction false} RowsSorted(accounts: seq<Account>, ps: seq<Posting>)
    requires Sorted(accounts, CodeOrder)
    ensures Sorted(Rows(accounts, ps), RowOrder)
  {
    if |accounts| > 0 {
      var rest := Rows(accounts[1..], ps);
      RowsSorted(accounts[1..], ps);
      forall a | a in accounts[1..]
        ensures LexLe(accounts[0].code, a.code)
      {
        var j :| 0 <= j < |accounts[1..]| && accounts[1..][j] == a;
        assert accounts[j + 1] == a;
      }
      RowsAbove(accounts[1..], ps, accounts[0].code);
      if HasPostings(accounts[0], ps) {
        SortedCons(RowFor(accounts[0], ps), rest, RowOrder);
      }
    }
  }

  /** A column of the rows adds up like the per-account column over all accounts,
      the accounts without postings contributing zero. */
  lemma {:induction false} RowsSum(accounts: seq<Account>, ps: seq<Posting>, h: TrialRow -> int, f: Account -> int)
    requires forall a :: a in accounts ==> h(RowFor(a, ps)) == f(a)
    requires forall a :: a in accounts && !HasPostings(a, ps) ==> f(a) == 0
    ensures Sum(Rows(accounts, ps), h) == Sum(accounts, f)
  {
    if |accounts| > 0 {
      RowsSum(accounts[1..], ps, h, f);
    }
  }

  datatype TrialBalance = TrialBalance(rows: seq<TrialRow>, totalDebit: int, totalCredit: int)

  /** `report_trial_balance`: per-account debit, credit and balance over the
      reported lines, ordered by account code, with grand totals taken as the
      sums of the row columns. */
  function TrialBalanceReport(chart: seq<Account>, entries: seq<Entry>, range: DateRange): (tb: TrialBalance)
    ensures Sorted(tb.rows, RowOrder)
    ensures forall k :: 0 <= k < |tb.rows| ==> tb.rows[k].balance == tb.rows[k].debit - tb.rows[k].credit
    ensures forall row :: row in tb.rows ==>
              exists a :: a in chart && HasPostings(a, ReportPostings(entries, range))
                && row == RowFor(a, ReportPostings(entries, range))
    ensures forall a :: a in chart && HasPostings(a, ReportPostings(entries, range)) ==>
              RowFor(a, ReportPostings(entries, range)) in tb.rows
    ensures tb.totalDebit == Sum(tb.rows, RowDebit) && tb.totalCredit == Sum(tb.rows, RowCredit)
  {
    var ps := ReportPostings(entries, range);
    var sorted := ChartByCode(chart);
    ChartByCodeKeepsAccounts(chart);
    var rows := Rows(sorted, ps);
    RowsSorted(sorted, ps);
    TrialBalance(rows, Sum(rows, RowDebit), Sum(rows, RowCredit))
  }

  /** One row per account: with unique codes, the row codes strictly increase,
      as `group_by(Account.code, Account.name).order_by(Account.code)` gives. */
  lemma TrialBalanceOneRowPerAccount(chart: seq<Account>, entries: seq<Entry>, range: DateRange)
    requires DistinctCodes(chart)
    ensures var rows := TrialBalanceReport(chart, entries, range).rows;
      forall i, j :: 0 <= i < j < |rows| ==> LexLe(rows[i].code, rows[j].code) && rows[i].code != rows[j].code
  {
    var ps := ReportPostings(entries, range);
    var sorted := ChartByCode(chart);
    PermutationKeepsDistinctCodes(sorted, chart);
    RowsDistinct(sorted, ps);
    assert TrialBalanceReport(chart, entries, range).rows == Rows(sorted, ps);
  }

  /** Rows taken from accounts with unique codes have unique codes. */
  lemma {:induction false} RowsDistinct(accounts: seq<Account>, ps: seq<Posting>)
    requires DistinctCodes(accounts)
    ensures RowCodesDistinct(Rows(accounts, ps))
  {
    if |accounts| > 0 {
      var tail := accounts[1..];
      assert DistinctCodes(tail) by {
        forall i, j | 0 <= i < j < |tail|
          ensures tail[i].code != tail[j].code
        {
          assert tail[i] == accounts[i + 1] && tail[j] == accounts[j + 1];
        }
      }
      RowsDistinct(tail, ps);
      forall a | a in tail
        ensures a.code != accounts[0].code
      {
        var m :| 0 <= m < |tail| && tail[m] == a;
        assert accounts[m + 1] == a;
      }
      RowsAvoid(tail, ps, accounts[0].code);
      if HasPostings(accounts[0], ps) {
        var rest := Rows(tail, ps);
        HeadDistinct(RowFor(accounts[0], ps), rest);
        assert Rows(accounts, ps) == [RowFor(accounts[0], ps)] + rest;
      }
    }
  }

  predicate RowCodesDistinct(rows: seq<TrialRow>) {
    forall i, j :: 0 <= i < j < |rows| ==> rows[i].code != rows[j].code
  }

  /** Accounts that avoid a code give rows that avoid it. */
  lemma {:induction false} RowsAvoid(accounts: seq<Account>, ps: seq<Posting>, c: string)
    requires forall a :: a in accounts ==> a.code != c
    ensures forall row :: row in Rows(accounts, ps) ==> row.code != c
  {
    if |accounts| > 0 {
      assert accounts[0] in accounts;
      RowsAvoid(accounts[1..], ps, c);
    }
  }

  lemma HeadDistinct(x: TrialRow, rest: seq<TrialRow>)
    requires RowCodesDistinct(rest)
    requires forall row :: row in rest ==> row.code != x.code
    ensures RowCodesDistinct([x] + rest)
  {
    var r := [x] + rest;
    forall i, j | 0 <= i < j < |r|
      ensures r[i].code != r[j].code
    {
      assert r[j] == rest[j - 1];
      if i > 0 {
        assert r[i] == rest[i - 1];
      } else {
        assert rest[j - 1] in rest;
      }
    }
  }

  /** Reordering a list of accounts keeps its codes unique. */
  lemma PermutationKeepsDistinctCodes(a: seq<Account>, b: seq<Account>)
    requires multiset(a) == multiset(b)
    requires DistinctCodes(b)
    ensures DistinctCodes(a)
  {
    forall i, j | 0 <= i < j < |a|
      ensures a[i].code != a[j].code
    {
      var p, q := DistinctPositions(a, b, i, j);
      assert p < q || q < p;
    }
  }

  /** Two positions of one sequence land on two positions of any permutation of it. */
  lemma DistinctPositions<T>(a: seq<T>, b: seq<T>, i: nat, j: nat) returns (p: nat, q: nat)
    requires multiset(a) == multiset(b)
    requires i < j < |a|
    ensures p < |b| && q < |b| && p != q && b[p] == a[i] && b[q] == a[j]
  {
    assert a[i] in multiset(b) && a[j] in multiset(b);
    p :| 0 <= p < |b| && b[p] == a[i];
    if a[i] != a[j] {
      q :| 0 <= q < |b| && b[q] == a[j];
    } else {
      var x := a[i];
      assert multiset(a)[x] >= 2 by {
        assert a == a[..j] + a[j..];
        assert a[..j][i] == x && a[j..][0] == x;
        assert multiset(a) == multiset(a[..j]) + multiset(a[j..]);
      }
      assert b == b[..p] + [b[p]] + b[p + 1..];
      assert multiset(b) == multiset(b[..p]) + multiset{x} + multiset(b[p + 1..]);
      if x in b[..p] {
        var k :| 0 <= k < p && b[..p][k] == x;
        q := k;
      } else {
        assert x in multiset(b[p + 1..]);
        var k :| 0 <= k < |b[p + 1..]| && b[p + 1..][k] == x;
        q := p + 1 + k;
      }
    }
  }

  /** With unique codes and every line posting to a chart account, the grand
      totals are exactly the debit and credit totals of the reported lines. */
  lemma TrialBalanceTotals(chart: seq<Account>, entries: seq<Entry>, range: DateRange)
    requires DistinctCodes(chart)
    requires PostsToChart(chart, entries)
    ensures TrialBalanceReport(chart, entries, range).totalDebit == DebitSum(ReportPostings(entries, range))
    ensures TrialBalanceReport(chart, entries, range).totalCredit == CreditSum(ReportPostings(entries, range))
  {
    var ps := ReportPostings(entries, range);
    var sorted := ChartByCode(chart);
    var fd := (a: Account) => DebitSum(Select(ps, {a.code}));
    var fc := (a: Account) => CreditSum(Select(ps, {a.code}));
    RowsSum(sorted, ps, RowDebit, fd);
    RowsSum(sorted, ps, RowCredit, fc);
    SumPermutation(sorted, chart, fd);
    SumPermutation(sorted, chart, fc);
    SumOverAccounts(chart, ps, PostingDebit, fd);
    SumOverAccounts(chart, ps, PostingCredit, fc);
    ReportedPostsToChart(chart, entries, range);
    SelectAll(ps, Codes(chart));
  }

  /** Per-entry balance implies global balance: when every included entry
      balances, the trial balance's grand debit equals its grand credit. */
  lemma TrialBalanceBalances(chart: seq<Account>, entries: seq<Entry>, range: DateRange)
    requires DistinctCodes(chart)
    requires PostsToChart(chart, entries)
    requires forall i :: 0 <= i < |entries| && Included(entries[i], range) ==> IsBalanced(entries[i].lines)
    ensures TrialBalanceReport(chart, entries, range).totalDebit == TrialBalanceReport(chart, entries, range).totalCredit
  {
    TrialBalanceTotals(chart, entries, range);
    ReportPostingsBalanced(entries, range);
  }

  // ----- ledger -----

  /** One ledger row: `l.label or ""`, and missing amounts read as 0. */
  datatype LedgerLine = LedgerLine(date: CalendarDate, reference: string, lineLabel: string, debit: int, credit: int)

  function LedgerLineOf(p: Posting): LedgerLine {
    LedgerLine(p.date, p.reference, p.line.lineLabel.GetOr(""), PostingDebit(p), PostingCredit(p))
  }

  function LedgerLinesOf(ps: seq<Posting>): (r: seq<LedgerLine>)
    ensures |r| == |ps|
    ensures forall k :: 0 <= k < |ps| ==> r[k] == LedgerLineOf(ps[k])
  {
    if |ps| == 0 then [] else [LedgerLineOf(ps[0])] + LedgerLinesOf(ps[1..])
  }

  function LedgerDebit(l: LedgerLine): int { l.debit }

  function LedgerCredit(l: LedgerLine): int { l.credit }

  /** `order_by(Entry.entry_date, Entry.reference)`. */
  function LedgerOrder(x: LedgerLine, y: LedgerLine): bool {
    DateLe(x.date, y.date) && (x.date == y.date ==> LexLe(x.reference, y.reference))
  }

  lemma LedgerOrderTotal()
    ensures Total(LedgerOrder)
  {
    forall x: LedgerLine, y: LedgerLine
      ensures LedgerOrder(x, y) || LedgerOrder(y, x)
    {
      LexLeTotal(x.reference, y.reference);
    }
    forall x: LedgerLine, y: LedgerLine, z: LedgerLine | LedgerOrder(x, y) && LedgerOrder(y, z)
      ensures LedgerOrder(x, z)
    {
      if x.date == z.date {
        LexLeTransitive(x.reference, y.reference, z.reference);
      }
    }
  }

  datatype LedgerAccount = LedgerAccount(code: string, lines: seq<LedgerLine>)

  /** One account's page of the ledger. */
  function AccountLedger(a: Account, ps: seq<Posting>): (r: LedgerAccount)
    ensures r.code == a.code
    ensures Sorted(r.lines, LedgerOrder)
    ensures multiset(r.lines) == multiset(LedgerLinesOf(Select(ps, {a.code})))
  {
    LedgerOrderTotal();
    LedgerAccount(a.code, SortBy(LedgerLinesOf(Select(ps, {a.code})), LedgerOrder))
  }

  /** Ordering the chart neither adds nor loses accounts. */
  lemma ChartByCodeKeepsAccounts(chart: seq<Account>)
    ensures |ChartByCode(chart)| == |chart|
    ensures forall a :: a in chart <==> a in ChartByCode(chart)
  {
    var sorted := ChartByCode(chart);
    assert |sorted| == |multiset(sorted)| == |multiset(chart)| == |chart|;
    forall a
      ensures a in chart <==> a in sorted
    {
      assert a in chart <==> a in multiset(chart);
      assert a in sorted <==> a in multiset(sorted);
    }
  }

  function Pages(accounts: seq<Account>, ps: seq<Posting>): (r: seq<LedgerAccount>)
    ensures |r| == |accounts|
    ensures forall i :: 0 <= i < |r| ==> r[i] == AccountLedger(accounts[i], ps)
  {
    if |accounts| == 0 then [] else [AccountLedger(accounts[0], ps)] + Pages(accounts[1..], ps)
  }

  /** `report_ledger`: a page for every account of the chart, in code order
      (accounts without postings get an empty page), each listing that
      account's reported lines by date and then reference. */
  function LedgerReport(chart: seq<Account>, entries: seq<Entry>, range: DateRange): (r: seq<LedgerAccount>)
    ensures |r| == |chart|
    ensures forall i, j :: 0 <= i < j < |r| ==> LexLe(r[i].code, r[j].code)
    ensures forall a :: a in chart ==> exists i :: 0 <= i < |r| && r[i].code == a.code
    ensures forall i :: 0 <= i < |r| ==>
              && Sorted(r[i].lines, LedgerOrder)
              && multiset(r[i].lines) == multiset(LedgerLinesOf(Select(ReportPostings(entries, range), {r[i].code})))
  {
    var ps := ReportPostings(entries, range);
    var sorted := ChartByCode(chart);
    var r := Pages(sorted, ps);
    ChartByCodeKeepsAccounts(chart);
    forall i, j | 0 <= i < j < |r|
      ensures LexLe(r[i].code, r[j].code)
    {
      assert CodeOrder(sorted[i], sorted[j]);
    }
    forall a | a in chart
      ensures exists i :: 0 <= i < |r| && r[i].code == a.code
    {
      var i :| 0 <= i < |sorted| && sorted[i] == a;
      assert r[i].code == a.code;
    }
    r
  }

  /** Mapping postings to ledger rows keeps the debit and credit columns. */
  lemma {:induction false} LedgerLinesTotals(ps: seq<Posting>)
    ensures Sum(LedgerLinesOf(ps), LedgerDebit) == DebitSum(ps)
    ensures Sum(LedgerLinesOf(ps), LedgerCredit) == CreditSum(ps)
  {
    if |ps| > 0 {
      LedgerLinesTotals(ps[1..]);
    }
  }

  /** The ledger and the trial balance agree: an account's ledger page adds
      up to the debit and credit of its trial-balance row. */
  lemma LedgerMatchesTrialBalance(a: Account, ps: seq<Posting>)
    ensures Sum(AccountLedger(a, ps).lines, LedgerDebit) == RowFor(a, ps).debit
    ensures Sum(AccountLedger(a, ps).lines, LedgerCredit) == RowFor(a, ps).credit
  {
    var mine := LedgerLinesOf(Select(ps, {a.code}));
    SumPermutation(AccountLedger(a, ps).lines, mine, LedgerDebit);
    SumPermutation(AccountLedger(a, ps).lines, mine, LedgerCredit);
    LedgerLinesTotals(Select(ps, {a.code}));
  }

  // ----- balance sheet and income statement -----

  /** The codes of the chart accounts whose class is in `classes`
      (`Account.class_code.in_(classes)`). */
  function ClassCodes(chart: seq<Account>, classes: set<string>): set<string> {
    set a | a in chart && a.classCode in classes :: a.code
  }

  /** `sum_for_classes` before the final subtraction: the debit and credit
      totals of the reported lines posted to accounts of the given classes.
      An empty selection sums to 0, as `coalesce(sum(...), 0)` does. */
  function ClassDebit(chart: seq<Account>, ps: seq<Posting>, classes: set<string>): int {
    DebitSum(Select(ps, ClassCodes(chart, classes)))
  }

  function ClassCredit(chart: seq<Account>, ps: seq<Posting>, classes: set<string>): int {
    CreditSum(Select(ps, ClassCodes(chart, classes)))
  }

  const AssetClasses: set<string> := {"1", "2", "3", "5"}
  const LiabilityClasses: set<string> := {"4"}
  const ExpenseClasses: set<string> := {"6"}
  const RevenueClasses: set<string> := {"7"}

  datatype BalanceSheet = BalanceSheet(assets: int, liabilitiesEquity: int)

  /** No entry is both validated and within the date bounds. */
  predicate NothingIncluded(entries: seq<Entry>, range: DateRange) {
    forall i :: 0 <= i < |entries| ==> !Included(entries[i], range)
  }

  /** Without a validated entry in range nothing is reported. */
  lemma NothingReported(entries: seq<Entry>, range: DateRange)
    ensures NothingIncluded(entries, range) ==> ReportPostings(entries, range) == []
  {
  }

  /** `report_balance_sheet`: the net debit of classes 1, 2, 3 and 5, and the net credit of class 4. */
  function BalanceSheetReport(chart: seq<Account>, entries: seq<Entry>, range: DateRange): (r: BalanceSheet)
    ensures NothingIncluded(entries, range) ==> r == BalanceSheet(0, 0)
  {
    NothingReported(entries, range);
    var ps := ReportPostings(entries, range);
    BalanceSheet(
      ClassDebit(chart, ps, AssetClasses) - ClassCredit(chart, ps, AssetClasses),
      -(ClassDebit(chart, ps, LiabilityClasses) - ClassCredit(chart, ps, LiabilityClasses)))
  }

  datatype IncomeStatement = IncomeStatement(revenue: int, expenses: int, result: int)

  /** `report_income_statement` as written: both figures are credit minus
      debit, so an ordinary expense (a class-6 debit) comes out negative,
      and subtracting it then raises the result. */
  function IncomeStatementAsWritten(chart: seq<Account>, entries: seq<Entry>, range: DateRange): (r: IncomeStatement)
    ensures NothingIncluded(entries, range) ==> r == IncomeStatement(0, 0, 0)
  {
    NothingReported(entries, range);
    var ps := ReportPostings(entries, range);
    var revenue := ClassCredit(chart, ps, RevenueClasses) - ClassDebit(chart, ps, RevenueClasses);
    var expenses := ClassCredit(chart, ps, ExpenseClasses) - ClassDebit(chart, ps, ExpenseClasses);
    IncomeStatement(revenue, expenses, revenue - expenses)
  }

  /** The income statement with expenses taken as debit minus credit, so
      that `result = revenue - expenses` is the period's profit. */
  function IncomeStatementReport(chart: seq<Account>, entries: seq<Entry>, range: DateRange): (r: IncomeStatement)
    ensures NothingIncluded(entries, range) ==> r == IncomeStatement(0, 0, 0)
  {
    NothingReported(entries, range);
    var ps := ReportPostings(entries, range);
    var revenue := ClassCredit(chart, ps, RevenueClasses) - ClassDebit(chart, ps, RevenueClasses);
    var expenses := ClassDebit(chart, ps, ExpenseClasses) - ClassCredit(chart, ps, ExpenseClasses);
    IncomeStatement(revenue, expenses, revenue - expenses)
  }

  /** With unique codes, accounts of disjoint class sets have disjoint codes. */
  lemma ClassCodesDisjoint(chart: seq<Account>, a: set<string>, b: set<string>)
    requires DistinctCodes(chart)
    requires a !! b
    ensures ClassCodes(chart, a) !! ClassCodes(chart, b)
  {
  }

  /** Class sums are additive: the totals over two disjoint class sets are
      the sums of the totals over each. */
  lemma ClassSplit(chart: seq<Account>, ps: seq<Posting>, a: set<string>, b: set<string>)
    requires DistinctCodes(chart)
    requires a !! b
    ensures ClassDebit(chart, ps, a + b) == ClassDebit(chart, ps, a) + ClassDebit(chart, ps, b)
    ensures ClassCredit(chart, ps, a + b) == ClassCredit(chart, ps, a) + ClassCredit(chart, ps, b)
  {
    assert ClassCodes(chart, a + b) == ClassCodes(chart, a) + ClassCodes(chart, b);
    ClassCodesDisjoint(chart, a, b);
    SelectUnion(ps, ClassCodes(chart, a), ClassCodes(chart, b), PostingDebit);
    SelectUnion(ps, ClassCodes(chart, a), ClassCodes(chart, b), PostingCredit);
  }

  /** Classes with no reported lines sum to 0; in particular the empty class set does. */
  lemma ClassWithoutPostings(chart: seq<Account>, ps: seq<Posting>, classes: set<string>)
    requires forall p :: p in ps ==> p.line.account !in ClassCodes(chart, classes)
    ensures ClassDebit(chart, ps, classes) == 0 && ClassCredit(chart, ps, classes) == 0
    ensures ClassDebit(chart, ps, {}) == 0 && ClassCredit(chart, ps, {}) == 0
  {
    SelectNone(ps, ClassCodes(chart, classes));
    assert ClassCodes(chart, {}) == {};
    SelectNone(ps, {});
  }

  lemma {:induction false} SelectNone(ps: seq<Posting>, codes: set<string>)
    requires forall p :: p in ps ==> p.line.account !in codes
    ensures Select(ps, codes) == []
  {
    if |ps| > 0 {
      assert ps[0] in ps;
      SelectNone(ps[1..], codes);
    }
  }

  const ResultClasses: set<string> := {"1", "2", "3", "4", "5", "6", "7"}

  /** When every account is in classes 1 to 7, the four report groups
      (assets, liabilities, expenses, revenue) split the reported totals. */
  lemma ClassPartition(chart: seq<Account>, ps: seq<Posting>)
    requires DistinctCodes(chart)
    requires forall a :: a in chart ==> a.classCode in ResultClasses
    requires forall p :: p in ps ==> p.line.account in Codes(chart)
    ensures DebitSum(ps) == ClassDebit(chart, ps, AssetClasses) + ClassDebit(chart, ps, LiabilityClasses)
                          + ClassDebit(chart, ps, ExpenseClasses) + ClassDebit(chart, ps, RevenueClasses)
    ensures CreditSum(ps) == ClassCredit(chart, ps, AssetClasses) + ClassCredit(chart, ps, LiabilityClasses)
                           + ClassCredit(chart, ps, ExpenseClasses) + ClassCredit(chart, ps, RevenueClasses)
  {
    ClassFourWay(chart, ps);
    ClassesCoverAll(chart, ps);
  }

  /** The four groups split the totals over classes 1 to 7. */
  lemma ClassFourWay(chart: seq<Account>, ps: seq<Posting>)
    requires DistinctCodes(chart)
    ensures ClassDebit(chart, ps, ResultClasses) == ClassDebit(chart, ps, AssetClasses) + ClassDebit(chart, ps, LiabilityClasses)
                          + ClassDebit(chart, ps, ExpenseClasses) + ClassDebit(chart, ps, RevenueClasses)
    ensures ClassCredit(chart, ps, ResultClasses) == ClassCredit(chart, ps, AssetClasses) + ClassCredit(chart, ps, LiabilityClasses)
                           + ClassCredit(chart, ps, ExpenseClasses) + ClassCredit(chart, ps, RevenueClasses)
  {
    var al := AssetClasses + LiabilityClasses;
    var ale := al + ExpenseClasses;
    assert al == {"1", "2", "3", "4", "5"} && ale == {"1", "2", "3", "4", "5", "6"};
    ClassSplit(chart, ps, AssetClasses, LiabilityClasses);
    ClassSplit(chart, ps, al, ExpenseClasses);
    ClassSplit(chart, ps, ale, RevenueClasses);
    assert ale + RevenueClasses == ResultClasses;
  }

  /** When every account is in classes 1 to 7, those classes select every reported line. */
  lemma ClassesCoverAll(chart: seq<Account>, ps: seq<Posting>)
    requires forall a :: a in chart ==> a.classCode in ResultClasses
    requires forall p :: p in ps ==> p.line.account in Codes(chart)
    ensures ClassDebit(chart, ps, ResultClasses) == DebitSum(ps)
    ensures ClassCredit(chart, ps, ResultClasses) == CreditSum(ps)
  {
    AllClassCodes(chart);
    SelectAll(ps, Codes(chart));
  }

  lemma AllClassCodes(chart: seq<Account>)
    requires forall a :: a in chart ==> a.classCode in ResultClasses
    ensures ClassCodes(chart, ResultClasses) == Codes(chart)
  {
  }

  /** The accounting identity the reports should satisfy: when every included
      entry balances and every account is in classes 1 to 7, the balance
      sheet's assets minus liabilities and equity equal the period result. */
  lemma BalanceSheetMatchesResult(chart: seq<Account>, entries: seq<Entry>, range: DateRange)
    requires DistinctCodes(chart)
    requires PostsToChart(chart, entries)
    requires forall a :: a in chart ==> a.classCode in ResultClasses
    requires forall i :: 0 <= i < |entries| && Included(entries[i], range) ==> IsBalanced(entries[i].lines)
    ensures BalanceSheetReport(chart, entries, range).assets - BalanceSheetReport(chart, entries, range).liabilitiesEquity
            == IncomeStatementReport(chart, entries, range).result
  {
    var ps := ReportPostings(entries, range);
    ReportedPostsToChart(chart, entries, range);
    ClassPartition(chart, ps);
    ReportPostingsBalanced(entries, range);
  }

  /** The statement as written differs from the corrected one by twice the
      net expenses: revenue agrees, the expense figure has its sign flipped,
      and so the result misses the balance sheet unless expenses net to 0. */
  lemma AsWrittenOvershoots(chart: seq<Account>, entries: seq<Entry>, range: DateRange)
    requires DistinctCodes(chart)
    requires PostsToChart(chart, entries)
    requires forall a :: a in chart ==> a.classCode in ResultClasses
    requires forall i :: 0 <= i < |entries| && Included(entries[i], range) ==> IsBalanced(entries[i].lines)
    ensures var written, corrected := IncomeStatementAsWritten(chart, entries, range), IncomeStatementReport(chart, entries, range);
      && written.revenue == corrected.revenue
      && written.expenses == -corrected.expenses
      && written.result == corrected.result + 2 * corrected.expenses
    ensures var bs := BalanceSheetReport(chart, entries, range);
      IncomeStatementAsWritten(chart, entries, range).result == bs.assets - bs.liabilitiesEquity
      <==> IncomeStatementReport(chart, entries, range).expenses == 0
  {
    BalanceSheetMatchesResult(chart, entries, range);
  }

  /** A cash purchase of 100.00: expense account 6111 debited, bank account 5141 credited. */
  const Purchases := Account("6111", "Achats", "6", "expense")
  const Bank := Account("5141", "Banque", "5", "asset")
  const PurchaseLine := EntryLine("6111", None, Some(10000), Some(0))
  const PaymentLine := EntryLine("5141", None, Some(0), Some(10000))
  const CashPurchase := Entry(1, Date(2024, 1, 10), "ACH-2024-0001", None, None, true, [PurchaseLine, PaymentLine])
  const Unbounded := DateRange(None, None)

  lemma CashPurchasePostings()
    ensures ReportPostings([CashPurchase], Unbounded) == CashPurchasePosted
  {
    var e := CashPurchase;
    assert Included(e, Unbounded);
    assert Join(e.date, e.reference, [PaymentLine]) == [Posting(e.date, e.reference, PaymentLine)];
    assert ReportPostings([e][1..], Unbounded) == [];
  }

  const CashPurchasePosted := [Posting(CashPurchase.date, CashPurchase.reference, PurchaseLine),
                                Posting(CashPurchase.date, CashPurchase.reference, PaymentLine)]

  lemma CashPurchaseSelections()
    ensures Select(CashPurchasePosted, ClassCodes([Purchases, Bank], ExpenseClasses)) == [CashPurchasePosted[0]]
    ensures Select(CashPurchasePosted, ClassCodes([Purchases, Bank], AssetClasses)) == [CashPurchasePosted[1]]
    ensures Select(CashPurchasePosted, ClassCodes([Purchases, Bank], RevenueClasses)) == []
    ensures Select(CashPurchasePosted, ClassCodes([Purchases, Bank], LiabilityClasses)) == []
  {
    var chart := [Purchases, Bank];
    assert ClassCodes(chart, ExpenseClasses) == {"6111"};
    assert ClassCodes(chart, RevenueClasses) == {};
    assert ClassCodes(chart, AssetClasses) == {"5141"};
    assert ClassCodes(chart, LiabilityClasses) == {};
  }

  lemma CashPurchaseAmounts()
    ensures DebitSum([CashPurchasePosted[0]]) == 10000 && CreditSum([CashPurchasePosted[0]]) == 0
    ensures DebitSum([CashPurchasePosted[1]]) == 0 && CreditSum([CashPurchasePosted[1]]) == 10000
  {
    SumSingle(CashPurchasePosted[0], PostingDebit);
    SumSingle(CashPurchasePosted[0], PostingCredit);
    SumSingle(CashPurchasePosted[1], PostingDebit);
    SumSingle(CashPurchasePosted[1], PostingCredit);
  }

  /** On the cash purchase, the statement as written reports a profit of 100.00. */
  lemma IncomeStatementSignCounterexample()
    ensures IncomeStatementAsWritten([Purchases, Bank], [CashPurchase], Unbounded).result == 10000
  {
    CashPurchaseReports();
  }

  /** On the cash purchase, the corrected statement reports a loss of 100.00. */
  lemma CashPurchaseCorrectedResult()
    ensures IncomeStatementReport([Purchases, Bank], [CashPurchase], Unbounded).result == -10000
  {
    CashPurchaseReports();
  }

  /** On the cash purchase, the balance sheet shows the same loss: the bank is
      100.00 down and nothing is owed. */
  lemma CashPurchaseBalanceSheet()
    ensures var bs := BalanceSheetReport([Purchases, Bank], [CashPurchase], Unbounded);
      bs.assets - bs.liabilitiesEquity == -10000
  {
    CashPurchaseReports();
  }

  lemma CashPurchaseReports()
    ensures var chart, ps := [Purchases, Bank], ReportPostings([CashPurchase], Unbounded);
      && ClassDebit(chart, ps, RevenueClasses) == 0 && ClassCredit(chart, ps, RevenueClasses) == 0
      && ClassDebit(chart, ps, ExpenseClasses) == 10000 && ClassCredit(chart, ps, ExpenseClasses) == 0
      && ClassDebit(chart, ps, AssetClasses) == 0 && ClassCredit(chart, ps, AssetClasses) == 10000
      && ClassDebit(chart, ps, LiabilityClasses) == 0 && ClassCredit(chart, ps, LiabilityClasses) == 0
  {
    CashPurchasePostings();
    CashPurchaseClassTotals();
  }

  lemma CashPurchaseClassTotals()
    ensures var chart := [Purchases, Bank];
      && ClassDebit(chart, CashPurchasePosted, ExpenseClasses) == 10000
      && ClassCredit(chart, CashPurchasePosted, ExpenseClasses) == 0
      && ClassDebit(chart, CashPurchasePosted, AssetClasses) == 0
      && ClassCredit(chart, CashPurchasePosted, AssetClasses) == 10000
      && ClassDebit(chart, CashPurchasePosted, RevenueClasses) == 0
      && ClassCredit(chart, CashPurchasePosted, RevenueClasses) == 0
      && ClassDebit(chart, CashPurchasePosted, LiabilityClasses) == 0
      && ClassCredit(chart, CashPurchasePosted, LiabilityClasses) == 0
  {
    CashPurchaseSelections();
    CashPurchaseAmounts();
  }
}
