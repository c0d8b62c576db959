# Bookkeeping and share-register rules, modelled in Dafny

This project models the business rules inside two small Flask/SQLAlchemy
accounting applications. One keeps a general ledger and issues invoices; the
other keeps company share registers. Each rule is recast as a pure function
over immutable values, and the properties those rules promise are proved.

- **Sequential references** (`numbering.dfy`). `Journal.next_sequence` and
  `Numbering.next_sequence` format `prefix + year + "-" + number` with the
  number zero-padded to four digits, then advance the counter. `_next_number`
  finds or creates the counter of a document scope. A reference reads back as
  the year and number it was made from, so references are injective.
- **Double-entry ledger** (`ledger.dfy`). Entry totals with missing amounts
  counted as 0, and the balance test. The line filter of `entry_create`. Its
  reject-if-unbalanced commit, which draws the journal's next reference.
  `entry_validate`. Recording and validating entries keep the stored books
  balanced and each journal's references distinct.
- **Reports** (`reports.dfy`). Trial balance, ledger, balance sheet and
  income statement. Each filters to validated entries within optional
  inclusive date bounds, then sums per account or per class. Per-entry
  balance implies equal grand totals in the trial balance. Each ledger page
  adds up to its account's trial-balance row. The balance sheet agrees with
  the period result, once the income statement's sign error is corrected
  (see Findings).
- **VAT periods** (`vat.dfy`, `calendar.dfy`). `_period_bounds`: a month, or
  for the frequency `"quarterly"` the calendar quarter holding it, with
  Gregorian month lengths.
- **Invoice totals** (`invoicing.dfy`). Item and document totals, computed on
  exact scaled decimals.
- **Share register** (`shares.dfy`). `Societe.total_parts`,
  `Societe.distribution` and `Cession.apply_to_distribution`. The last one
  finds or creates both parties by name, floors the cedant at zero, and
  credits the cessionnaire in full. Also the cession creation route's guard.

Amounts are integers in cents (`Numeric(14, 2)`). Quantities are in
thousandths and VAT rates in ten-thousandths. Dates are Gregorian
(year, month, day) triples that `datetime.date` would accept. An account is
identified by its unique code. Account codes and references are ordered
code point by code point, like SQLite's default collation.

`date.today()` is a parameter (`today`). The database session is replaced by
explicit state values (`Ledger.Books`, `Shares.Registry`, a list of
`Numbering.NumberingRow`) passed in and returned.

Two behaviours of the code are easy to miss, and the model keeps both:

- **Empty entries.** `entry_create` commits an entry whose rows were all
  dropped by the line filter: zero debit equals zero credit, so the entry is
  balanced (app/routes.py:196-207). `Ledger.CreateEntry` does the same.
- **Over-large transfers.** `apply_to_distribution` floors the cedant at zero
  but still credits the cessionnaire with the full count
  (cabinet_compta/cabinet/models.py:116-117). From {A:70, B:30}, a transfer of
  150 parts gives {A:0, B:180}, and the total rises. `Shares.CessionExample`
  proves this outcome.

Generic modules: `Wrappers` (Option and Result types), `Sums` (sums over
sequences, filters and permutations), `Sorting` (insertion sort by a total
preorder) and `Text` (decimal digits, zero padding and lexicographic order).

## Model

| member | source | states |
|---|---|---|
| Numbering.Reference | app/models.py:39 | `f"{prefix}{year}-{number:04d}"`: the reference starts with the prefix, has a dash right after the year's digits, and has at least four number digits. Below 10000 its length is exactly prefix + year + 5. |
| Numbering.ParseReference | app/models.py:39 | Reads the year and number back from a reference of that format. Any string it accepts starts with the prefix and has a dash after it. |
| Numbering.NextSequence | app/models.py:37-41 | The reference is exactly the prefix, the decimal year of `when` (of `today` when absent), "-", and the counter's number before the call zero-padded to four digits. It reads back as that year and number. The counter ends exactly one higher, with the prefix unchanged. |
| Numbering.ParseReference_Reference | app/models.py:39 | Round trip: every formatted reference parses back to the year and number it was built from, including numbers wider than four digits. |
| Numbering.ReferenceInjective | app/models.py:39 | Two references with one prefix are equal only when their years and numbers are equal. |
| Numbering.NextSequenceExamples | app/models.py:158-162 | A fresh "ACH-" counter in 2024 gives "ACH-2024-0001". A missing date takes today's year. Number 12345 is printed in full, unpadded. |
| Text.Pad4Shape | app/models.py:39 | `:04d` pads numbers below 10000 to exactly four characters and prints numbers from 1000 up unchanged. |
| Numbering.IssueReferences | app/models.py:37-41 | After n successive calls the counter has moved by exactly n. The i-th reference is exactly `Reference(prefix, year of its date, first + i)`, the `f"{prefix}{year}-{number:04d}"` string, and reads back as that year and number. All references are pairwise distinct, with no gaps and no repeats. |
| Numbering.FindScope | app/routes.py:570 | Returns the first row of the scope, or none exactly when no row has that scope. |
| Numbering.NextNumber | app/routes.py:569-577 | A missing scope gets a new row with the given prefix. Its first reference is exactly prefix + today's year + "-0001", and the counter is left at 2. An existing scope keeps its own prefix, its reference is that prefix + today's year + "-" + the padded counter, and its counter moves by one. Every other row is untouched. |
| Calendar.DaysInMonthMatchesTable | app/routes.py:470-475 | Month lengths: 31 for 1, 3, 5, 7, 8, 10 and 12; 30 for the other months; 29 or 28 for February by the leap-year test. |
| Calendar.LeapYearRule | app/routes.py:473 | A leap year is divisible by 400, or by 4 and not by 100. So 2000 and 2024 are leap years; 1900 and 2023 are not. |
| Vat.PeriodBounds | app/routes.py:459-477 | Fails exactly when `date()` would reject the year or month. Otherwise: the period starts on the 1st and ends on the last day of its last month (the next day is not a date). Start and end are ordered and bracket the given month. "quarterly" starts in month 1, 4, 7 or 10 and spans three months. Any other frequency string gives the month itself. |
| Vat.PeriodCovers | app/routes.py:459-477 | A date lies in the period iff it is in the period's year and its month lies between the first and last months. No day is lost and no day is added. |
| Vat.DateInOwnPeriod | app/routes.py:462-468 | Every valid date falls inside both its monthly and its quarterly period. |
| Vat.PeriodExamples | app/routes.py:459-477 | May 2024 quarterly is April 1 to June 30. February 2024 ends on the 29th and February 1900 on the 28th. An unknown frequency acts as monthly. Month 13 fails. |
| Ledger.TotalDebit | app/models.py:57-58 | `total_debit`: the sum of the lines' debits, a missing one counting as 0. No lines give 0, one line gives its own debit, and non-negative debits give a non-negative total. |
| Ledger.TotalCredit | app/models.py:60-61 | `total_credit`: the same over the credits. |
| Ledger.IsBalanced | app/models.py:63-64 | `is_balanced`: the totals differ by less than half a cent. On whole cents that holds iff debit equals credit, so an entry with no lines is balanced. |
| Ledger.TotalsIgnoreMissingAmounts | app/models.py:58-62 | The debit and credit totals are unchanged by dropping lines whose amount is missing: a None amount counts as 0. |
| Ledger.BalancedIffNetZero | app/models.py:64-65 | An entry is balanced iff its lines' debit-minus-credit amounts sum to zero. |
| Ledger.BalancedConcat | app/models.py:58-65 | Joining two balanced line sets gives a balanced line set. |
| Ledger.KeptLines | app/routes.py:186-199 | Every row with an account and a non-zero amount is recorded. Every recorded line has an account, both amounts present and a non-zero amount. There are never more lines than rows. |
| Ledger.KeptLinesConcat | app/routes.py:187-199 | Filtering commutes with splitting the form, so kept rows keep their form order. |
| Ledger.KeptLinesSingle | app/routes.py:192-198 | One row is recorded iff it names an account and is not 0/0; a dropped row leaves nothing. |
| Ledger.CreateEntry | app/routes.py:167-209 | The journal is not found iff its id is absent. Rejected as unbalanced iff the kept lines do not balance, and then the books are unchanged, counter included. On success exactly one entry is appended: unvalidated, with the kept lines, the given date, and exactly the journal's `next_sequence` string: the journal's prefix, the entry's year, "-" and the counter before the call padded to four digits, which reads back as that year and number. Its description and document reference are the form's values, with an empty string stored as none. Only that journal's counter moves on. |
| Ledger.ValidateEntry | app/routes.py:218-224 | A missing entry is a not-found result. Otherwise only that entry changes, and only its validated flag, which becomes true. |
| Ledger.CreateEntryPreservesConsistency | app/routes.py:174-207 | The books invariant is preserved. Every stored entry balances. Every reference carries its journal's prefix, the entry's year and a number the counter has passed. No two entries of one journal share a reference. |
| Ledger.ValidateEntryPreservesConsistency | app/routes.py:218-224 | Validating an entry preserves the same invariant. |
| Reports.ReportPostings | app/routes.py:299-306 | Every line of every validated entry dated within the bounds is reported, and every reported line comes from such an entry. |
| Reports.ReportPostingsConcat | app/routes.py:299-306 | Reporting commutes with splitting the entries, so each entry contributes its lines once each, in entry order. |
| Reports.ReportPostingsSingle | app/routes.py:299-306 | One entry contributes all its lines if it is validated and within the bounds, and nothing otherwise. With ReportPostingsConcat this fixes the reported sequence, repeats included. |
| Reports.ReportedOnlyIfIncluded | app/routes.py:301-306 | A reported line belongs to a validated entry with the same date and reference, and that date satisfies both bounds inclusively. An absent bound does not filter. |
| Reports.ReportPostingsBalanced | app/routes.py:301-306 | When every included entry balances, the reported lines' debit total equals their credit total. |
| Reports.Select | app/routes.py:369 | Selecting by account keeps exactly the postings whose account is in the set. |
| Reports.SelectCounts | app/routes.py:369 | Each selected posting appears as many times as in the input, and every other posting appears zero times. |
| Reports.ChartByCode | app/routes.py:364 | The accounts in code order, as a permutation of the chart. |
| Reports.TrialBalanceReport | app/routes.py:289-321 | Rows are ordered by code. Each row has balance = debit − credit. There is a row for exactly the chart accounts with reported lines, and each row is that account's debit and credit sums. The grand totals are the sums of the row columns. |
| Reports.TrialBalanceOneRowPerAccount | app/routes.py:307 | With unique account codes, the row codes strictly increase, so each account has exactly one row. |
| Reports.TrialBalanceTotals | app/routes.py:318-321 | With unique codes and every line posting to a chart account, the grand totals equal the debit and credit sums of all reported lines. |
| Reports.TrialBalanceBalances | app/routes.py:289-321 | If every included entry balances, grand total debit equals grand total credit. |
| Reports.AccountLedger | app/routes.py:367-385 | An account's page holds exactly its reported lines, as a permutation, sorted by (date, reference). A missing label reads as "" and a missing amount as 0. |
| Reports.LedgerReport | app/routes.py:361-386 | One page per chart account in code order, including accounts with no lines. Each page is sorted by (date, reference) and holds exactly that account's reported lines. |
| Reports.LedgerMatchesTrialBalance | app/routes.py:376-385 | Each ledger page adds up to the debit and credit of its account's trial-balance row. |
| Reports.ClassSplit | app/routes.py:393-408 | Class sums are additive over disjoint sets of classes. |
| Reports.ClassWithoutPostings | app/routes.py:396-397 | A class set with no reported lines sums to 0 in both columns, and so does the empty set, as `coalesce(sum, 0)` gives. |
| Reports.ClassPartition | app/routes.py:410-443 | With every account in classes 1 to 7, the asset, liability, expense and revenue groups split the reported debit and credit totals. |
| Reports.BalanceSheetReport | app/routes.py:389-419 | `report_balance_sheet`: assets are the net debit (debit − credit) of classes 1, 2, 3 and 5, and liabilities and equity the net credit of class 4, both over the lines of validated entries within the inclusive date bounds. With no such entry both are 0. |
| Reports.IncomeStatementAsWritten | app/routes.py:421-447 | `report_income_statement` as written: revenue and expenses are both credit − debit, of classes 7 and 6, over the same lines, and the result is revenue − expenses. With no validated entry in range all three are 0. |
| Reports.IncomeStatementReport | app/routes.py:421-447 | The corrected statement: expenses are debit − credit of class 6, everything else as written. With no validated entry in range all three are 0. |
| Reports.BalanceSheetMatchesResult | app/routes.py:389-444 | With balanced entries, unique codes and classes 1 to 7, assets minus liabilities and equity equals the corrected income-statement result. |
| Reports.AsWrittenOvershoots | app/routes.py:440-444 | Compared with the corrected statement, the statement as written has the same revenue and the expense figure negated. Its result is off by twice the net expenses. It matches the balance sheet iff net expenses are 0. |
| Reports.IncomeStatementSignCounterexample | app/routes.py:440-444 | On a cash purchase of 100.00, the statement as written reports a result of +100.00. |
| Reports.CashPurchaseCorrectedResult | app/routes.py:442-444 | On the same purchase, the corrected statement reports −100.00. |
| Reports.CashPurchaseBalanceSheet | app/routes.py:410-411 | On the same purchase, the balance sheet's assets minus liabilities come to −100.00, agreeing with the corrected result. |
| Invoicing.ItemHt | app/models.py:140-142 | `InvoiceItem.total_ht`: quantity (thousandths) times unit price (cents), a missing factor read as 0, so a missing factor gives 0. Non-negative factors give a non-negative amount. |
| Invoicing.RoundHalfEven | app/models.py:147 | The result is within half a unit of the exact value, and ties go to the even neighbour. |
| Invoicing.RoundExact | app/models.py:147 | An amount that is already a whole number of cents is left as it is. |
| Invoicing.ItemVat | app/models.py:144-147 | An item's VAT is within half a cent of HT × rate, and is 0 for an item with no rate. |
| Invoicing.UnratedItemsBearNoVat | app/models.py:146 | The VAT total over all items equals the total over the rated items only. |
| Invoicing.TotalTtc | app/models.py:121-123 | `total_ttc` = `total_ht` + `total_tva` equals the sum of the items' tax-inclusive amounts. |
| Invoicing.TotalHt | app/models.py:113-115 | `total_ht`: the items' pre-tax amounts added up. No items give 0, and non-negative items give a non-negative total. |
| Invoicing.TotalVat | app/models.py:117-119 | `total_tva`: the sum of the items' rounded VAT, within half a cent per item of the document's exact VAT, either way. No items give 0. |
| Invoicing.UniformRate | app/models.py:117-119 | With one rate on every item, the VAT total is within half a cent per item of the pre-tax total times the rate. |
| Invoicing.ExactVatUniform | app/models.py:113-119 | With one rate on every item, the exact (unrounded) VAT of the document is `total_ht` times that rate. |
| Invoicing.TotalsConcat | app/models.py:113-123 | HT, VAT and TTC totals are additive over the items. |
| Invoicing.TtcAtLeastHt | app/models.py:121-123 | With non-negative quantities, prices and rates, VAT is non-negative and TTC is at least HT. |
| Shares.FindByName | cabinet_compta/cabinet/models.py:108 | Returns the first associate with that name, or none exactly when no associate has it. |
| Shares.Enrol | cabinet_compta/cabinet/models.py:108-111 | A registered name leaves the register exactly as it was and returns its first row. An absent name appends exactly one row, with that name, 0 parts and no address, and returns it. The lookup of every other name is unchanged. |
| Shares.NewParties | cabinet_compta/cabinet/models.py:108-115 | At most two rows are created, each with 0 parts, no address and a party's name. |
| Shares.Parties | cabinet_compta/cabinet/models.py:108-115 | The register becomes the old one followed by exactly one new row per distinct absent party, the cedant's before the cessionnaire's, and nothing for a registered party. The returned positions are each party's first row. |
| Shares.PartiesOrigin | cabinet_compta/cabinet/models.py:108-115 | A party's row is an old row iff that party was already registered, and then it is the party's first row. |
| Shares.ApplyCession | cabinet_compta/cabinet/models.py:102-117 | With parts ≤ 0 the register is unchanged. Otherwise it grows by exactly one row per distinct absent party, in the cedant-then-cessionnaire order, each new row carrying that party's name and no address. Every old row keeps its name and address. |
| Shares.CessionLeavesOthers | cabinet_compta/cabinet/models.py:108-117 | Rows other than the parties' first rows are unchanged. Added rows carry a party's name and no address. |
| Shares.CessionMovesParts | cabinet_compta/cabinet/models.py:116-117 | For distinct parties, the cedant ends at max(0, holding − parts) and the cessionnaire gains exactly `parts`. |
| Shares.CessionToSelf | cabinet_compta/cabinet/models.py:108-117 | When cedant and cessionnaire are the same name, that row ends at max(0, c − parts) + parts. |
| Shares.CessionTotal | cabinet_compta/cabinet/models.py:102-117 | The total changes by max(0, h − parts) − h + parts, where h is the cedant's holding. It is unchanged when h ≥ parts and grows by parts − h otherwise. |
| Shares.TotalParts | cabinet_compta/cabinet/models.py:53-54 | `total_parts`: every associate's parts added up. An empty register gives 0, and non-negative holdings give a non-negative total. |
| Shares.CessionConservesParts | cabinet_compta/cabinet/models.py:53-54 | `total_parts` is preserved when parts ≤ 0 or the cedant holds at least `parts`. |
| Shares.ApplyCessionStrict | cabinet_compta/cabinet/models.py:116 | The strict alternative fails iff the transfer exceeds the cedant's holding. Otherwise it is the source's transfer, and it conserves the total. |
| Shares.CessionExample | cabinet_compta/cabinet/models.py:102-117 | {A:100, B:0} after 30 is {A:70, B:30}; after a further 150 it is {A:0, B:180}. |
| Shares.Divisor | cabinet_compta/cabinet/models.py:57 | The divisor is the total when the total is non-zero, and exactly 1 when it is 0. |
| Shares.ZeroTotalDistributionExample | cabinet_compta/cabinet/models.py:57-66 | Holdings that cancel out, {A:5, B:-5}, divide by 1 and give percentages 500 and −500. |
| Shares.Holders | cabinet_compta/cabinet/models.py:58-66 | One row per associate in register order, carrying its name, address and parts. Its percent is parts / divisor × 100. |
| Shares.Distribution | cabinet_compta/cabinet/models.py:56-66 | `distribution`: one row per associate with its name, address and parts. Its percent is parts / total × 100 when the total is non-zero, and parts × 100 when the total is 0. |
| Shares.DistributionSumsToHundred | cabinet_compta/cabinet/models.py:56-66 | With a non-zero total, the percentages add up to exactly 100. |
| Shares.PercentBounds | cabinet_compta/cabinet/models.py:63 | With non-negative holdings, every percentage lies between 0 and 100. |
| Shares.CreateCession | cabinet_compta/cabinet/cessions/routes.py:20-52 | Redirected iff the company id, cedant, cessionnaire or part count is missing, empty or 0. Not found iff the guard passes but the company is absent. In both cases nothing changes. Otherwise the cession is appended, the company's associates become `ApplyCession` of the old ones, and every other company is untouched. |
| Shares.NegativeCessionMovesNothing | cabinet_compta/cabinet/cessions/routes.py:31-49 | A negative part count passes the guard. The cession is recorded, but no company's register changes. |

## Left out

- Web plumbing: Flask routing, form parsing, flash messages, redirects and templates, including `_parse_date`, `int(...)` and `Decimal(...)` with comma replacement. A form row is modelled already parsed, with an empty amount read as 0. A parse error is not modelled.
- Persistence: SQLAlchemy sessions, lazy relationships and the ORM. Commit and rollback are modelled as returning the new state or the old one.
- Foreign keys are not checked. An `account_i` naming no account is stored as given, and the report lemmas assume it as a precondition (`Reports.PostsToChart`).
- Concurrency: the counter race between simultaneous requests. The model is sequential.
- `Numbering.NextSequence`: the `next_number` column is modelled as a natural number. It starts at 1 and only ever increments, so a negative counter (which `:04d` would print with a sign) is not modelled.
- Sub-cent form amounts: form amounts finer than a cent (such as "0.004") are not modelled, since a `FormLine` amount is a whole number of cents. The source keeps such a row, because it is not 0/0, and its `round(..., 2)` balance test tolerates an imbalance under half a cent.
- Floating point: the `float(...)` conversions and `round(x, 2)` in the entry balance test, the reports and the totals are modelled on exact cents. `Ledger.IsBalanced` is therefore exact equality of the totals.
- `Invoicing.ItemVat`: `tva_amount` rounds a float product. The model rounds the exact decimal product half-to-even to the cent, and does not claim bit-for-bit float fidelity on ties.
- `Shares.Holders`: the percentage is an exact real, not the source's float.
- Register order: `Societe.associates` is a relationship without `order_by` (cabinet_compta/cabinet/models.py:50). The model takes the associates in insertion order, the order the database usually returns them in. That order decides which row `Shares.FindByName` finds first and the order of `Shares.Distribution`'s rows. Another order is not modelled.
- `Reports.LedgerReport`: rows with equal (date, reference) have no order in SQL. The model states only that each page is sorted and holds exactly the account's lines.
- Reports ordering: codes and references are compared code point by code point. A database collation other than SQLite's default binary one is not modelled.
- `Reports.BalanceSheetMatchesResult`: requires every account to be in classes 1 to 7. Class-8 accounts appear in no report group, so the identity cannot hold with them.
- The VAT declaration route (`vat_declaration`) and its sums over invoices are not part of this model. It is a query and template pass over `_period_bounds` and `tva_amount`, both modelled.
- `Vat.PeriodBounds` takes the year and month already split. Parsing `"YYYY-MM"` (`period.split("-")` and `int`) and its `ValueError`s is not modelled.
- The non-logical columns of a cession (`date`, `price`, `payment_mode`, `conditions`) and the `TimestampMixin` timestamps are not modelled.
- PDF and Excel export, authentication and password hashing, configuration, app factories and seeding, and the CRUD-only route modules are not modelled.

## Findings

| source | as written | input that shows it | evidently intended | confidence | as-written member | corrected member |
|---|---|---|---|---|---|---|
| app/routes.py:440-444 | The income statement computes both revenue and expenses as credit − debit, then reports `result = revenue - expenses`. A normal expense (a class-6 debit) therefore gives a negative expense figure, and subtracting it raises the result. | One validated cash purchase of 100.00: debit 6111 (class 6) 100.00, credit 5141 (class 5) 100.00. The statement as written shows expenses −100.00 and a result of +100.00, while the balance sheet shows assets down by 100.00. | Expenses as debit − credit, so that the result is revenue minus expenses and agrees with the balance sheet. | high; not executed | Reports.IncomeStatementAsWritten, shown by Reports.IncomeStatementSignCounterexample and Reports.AsWrittenOvershoots | Reports.IncomeStatementReport, with Reports.BalanceSheetMatchesResult, Reports.CashPurchaseCorrectedResult and Reports.CashPurchaseBalanceSheet |
