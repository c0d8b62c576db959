/** The general ledger's records and the rules for recording an entry:
    `Entry.total_debit/total_credit/is_balanced`, the line filter of
    `entry_create` and its reject-if-unbalanced commit, and `entry_validate`. */
module Ledger {
  import opened Wrappers
  import opened Calendar
  import opened Sums
  import opened Numbering

  /** A chart-of-accounts row; `classCode` is the one-character class '1'..'8'. */
  datatype Account = Account(code: string, name: string, classCode: string, kind: string)

  /** A posting line. `account` is the code of the account it posts to (codes
      are unique, so the code stands for the row). Amounts are in cents and
      nullable, as `Numeric(14, 2)` columns are. `lineLabel` is the nullable
      `label` column (`label` is a reserved word in Dafny). */
  datatype EntryLine = EntryLine(account: string, lineLabel: Option<string>, debit: Option<int>, credit: Option<int>)

  datatype Entry = Entry(
    journal: nat,
    date: CalendarDate,
    reference: string,
    description: Option<string>,
    documentRef: Option<string>,
    validated: bool,
    lines: seq<EntryLine>)

  /** A journal (purchases, sales, cash, general) with its own reference counter. */
  datatype Journal = Journal(code: string, name: string, kind: string, counter: Counter)

  /** The stored state the ledger routes read and write: journals by id, and entries in creation order. */
  datatype Books = Books(journals: map<nat, Journal>, entries: seq<Entry>)

  function LineDebit(l: EntryLine): int { OrZero(l.debit) }

  function LineCredit(l: EntryLine): int { OrZero(l.credit) }

  /** `Entry.total_debit()`, in cents: the lines' debits, a missing one read as 0. */
  function TotalDebit(lines: seq<EntryLine>): (r: int)
    ensures lines == [] ==> r == 0
    ensures |lines| == 1 ==> r == OrZero(lines[0].debit)
    ensures (forall l :: l in lines ==> OrZero(l.debit) >= 0) ==> r >= 0
  {
    SumNonNegative(lines, LineDebit);
    SumSingleton(lines, LineDebit);
    Sum(lines, LineDebit)
  }

  /** `Entry.total_credit()`, in cents: the lines' credits, a missing one read as 0. */
  function TotalCredit(lines: seq<EntryLine>): (r: int)
    ensures lines == [] ==> r == 0
    ensures |lines| == 1 ==> r == OrZero(lines[0].credit)
    ensures (forall l :: l in lines ==> OrZero(l.credit) >= 0) ==> r >= 0
  {
    SumNonNegative(lines, LineCredit);
    SumSingleton(lines, LineCredit);
    Sum(lines, LineCredit)
  }

  /** `Entry.is_balanced()`: the debit and credit totals differ by less than
      half a cent. On whole cents that is exact equality, and an entry
      without lines is balanced. */
  predicate IsBalanced(lines: seq<EntryLine>)
    ensures IsBalanced(lines) <==> TotalDebit(lines) == TotalCredit(lines)
    ensures lines == [] ==> IsBalanced(lines)
  {
    var diff := TotalDebit(lines) - TotalCredit(lines);
    -1 < 2 * diff < 1
  }

  /** A missing amount adds nothing: the totals are the same over only the
      lines whose amount is present. */
  lemma TotalsIgnoreMissingAmounts(lines: seq<EntryLine>)
    ensures TotalDebit(lines) == TotalDebit(Filter(lines, (l: EntryLine) => l.debit.Some?))
    ensures TotalCredit(lines) == TotalCredit(Filter(lines, (l: EntryLine) => l.credit.Some?))
  {
    SumFilter(lines, (l: EntryLine) => l.debit.Some?, LineDebit, LineDebit);
    SumFilter(lines, (l: EntryLine) => l.credit.Some?, LineCredit, LineCredit);
  }

  function LineNet(l: EntryLine): int { LineDebit(l) - LineCredit(l) }

  /** An entry is balanced exactly when its lines' net amounts (debit minus credit) add up to zero. */
  lemma BalancedIffNetZero(lines: seq<EntryLine>)
    ensures IsBalanced(lines) <==> Sum(lines, LineNet) == 0
  {
    SumScale(lines, LineCredit, -1, (l: EntryLine) => -LineCredit(l));
    SumAdd(lines, LineDebit, (l: EntryLine) => -LineCredit(l), LineNet);
  }

  /** Concatenating balanced line sets gives a balanced line set. */
  lemma BalancedConcat(a: seq<EntryLine>, b: seq<EntryLine>)
    requires IsBalanced(a) && IsBalanced(b)
    ensures IsBalanced(a + b)
  {
    SumConcat(a, b, LineDebit);
    SumConcat(a, b, LineCredit);
  }

  // ----- entry_create -----

  /** One posted form row: `account_i`, `label_i` and the parsed `debit_i` /
      `credit_i` in cents (an empty amount field reads as 0). */
  datatype FormLine = FormLine(account: Option<string>, lineLabel: Option<string>, debit: int, credit: int)

  /** The form's `x or None`: an empty string counts as absent. */
  function OrNone(x: Option<string>): (r: Option<string>)
    ensures r.Some? ==> r.value != ""
    ensures r.None? <==> x.None? || x.value == ""
    ensures x.Some? && x.value != "" ==> r == x
  {
    if x == Some("") then None else x
  }

  /** A row is recorded when it names an account and has a non-zero amount. */
  predicate Kept(f: FormLine) {
    && f.account.Some? && f.account.value != ""
    && !(f.debit == 0 && f.credit == 0)
  }

  function ToLine(f: FormLine): EntryLine
    requires f.account.Some?
  {
    EntryLine(f.account.value, OrNone(f.lineLabel), Some(f.debit), Some(f.credit))
  }

  /** The lines `entry_create` records: kept rows, converted, in form order. */
  function KeptLines(form: seq<FormLine>): (r: seq<EntryLine>)
    ensures |r| <= |form|
    ensures forall i :: 0 <= i < |form| && Kept(form[i]) ==> ToLine(form[i]) in r
    ensures forall l :: l in r ==>
      && l.account != "" && l.debit.Some? && l.credit.Some?
      && (l.debit.value != 0 || l.credit.value != 0)
  {
    if |form| == 0 then []
    else
      var rest := KeptLines(form[1..]);
      assert forall i :: 1 <= i < |form| ==> form[i] == form[1..][i - 1];
      if Kept(form[0]) then [ToLine(form[0])] + rest else rest
  }

  /** Dropping rows commutes with splitting the form, so kept rows stay in form order. */
  lemma {:induction false} KeptLinesConcat(a: seq<FormLine>, b: seq<FormLine>)
    ensures KeptLines(a + b) == KeptLines(a) + KeptLines(b)
  {
    if |a| == 0 {
      assert a + b == b;
    } else {
      assert (a + b)[1..] == a[1..] + b;
      KeptLinesConcat(a[1..], b);
    }
  }

  /** A single row is recorded exactly when it is kept; dropped rows leave nothing. */
  lemma KeptLinesSingle(f: FormLine)
    ensures KeptLines([f]) == if Kept(f) then [ToLine(f)] else []
  {
  }

  datatype EntryOutcome = Created(reference: string) | JournalNotFound | Unbalanced

  /** `entry_create`: draws the journal's next reference for the entry date,
      records the kept rows as a new unvalidated entry, and commits only when
      the entry balances. On an unbalanced entry the rollback also undoes the
      counter increment, so the books come back unchanged. */
  function CreateEntry(
    books: Books, journalId: nat, date: CalendarDate,
    description: Option<string>, documentRef: Option<string>, form: seq<FormLine>)
    : (r: (Books, EntryOutcome))
    ensures journalId !in books.journals <==> r.1 == JournalNotFound
    ensures r.1 == Unbalanced <==> journalId in books.journals && !IsBalanced(KeptLines(form))
    ensures !r.1.Created? ==> r.0 == books
    ensures r.1.Created? ==>
      && journalId in books.journals
      && |r.0.entries| == |books.entries| + 1
      && r.0.entries[..|books.entries|] == books.entries
      && var j := books.journals[journalId];
      && var e := r.0.entries[|books.entries|];
      && e.journal == journalId && e.date == date && !e.validated
      && e.lines == KeptLines(form) && IsBalanced(e.lines)
      && e.reference == r.1.reference
      && e.reference == Reference(j.counter.prefix, date.year, j.counter.nextNumber)
      && e.description == OrNone(description) && e.documentRef == OrNone(documentRef)
      && ParseReference(j.counter.prefix, e.reference) == Some(RefParts(date.year, j.counter.nextNumber))
      && r.0.journals == books.journals[journalId := j.(counter := Counter(j.counter.prefix, j.counter.nextNumber + 1))]
  {
    if journalId !in books.journals then (books, JournalNotFound)
    else
      var j := books.journals[journalId];
      var step := NextSequence(j.counter, Some(date), date);
      assert step.0 == Reference(j.counter.prefix, date.year, j.counter.nextNumber);
      var lines := KeptLines(form);
      if !IsBalanced(lines) then (books, Unbalanced)
      else
        var e := Entry(journalId, date, step.0, OrNone(description), OrNone(documentRef), false, lines);
        (Books(books.journals[journalId := j.(counter := step.1)], books.entries + [e]), Created(step.0))
  }

  /** `entry_validate`: marks one entry as validated; a missing entry is a 404. */
  function ValidateEntry(books: Books, index: nat): (r: Option<Books>)
    ensures r.None? <==> index >= |books.entries|
    ensures r.Some? ==>
      && r.value.journals == books.journals
      && |r.value.entries| == |books.entries|
      && r.value.entries[index].validated
      && r.value.entries[index] == books.entries[index].(validated := true)
      && forall k :: 0 <= k < |books.entries| && k != index ==> r.value.entries[k] == books.entries[k]
  {
    if index < |books.entries|
    then Some(books.(entries := books.entries[index := books.entries[index].(validated := true)]))
    else None
  }

  // ----- invariants of the stored books -----

  /** Every stored entry balances. */
  predicate AllBalanced(books: Books) {
    forall i :: 0 <= i < |books.entries| ==> IsBalanced(books.entries[i].lines)
  }

  /** Every entry's reference carries its journal's prefix, its own year, and
      a number the journal's counter has already passed. */
  predicate Numbered(books: Books) {
    forall i :: 0 <= i < |books.entries| ==> EntryNumbered(books.journals, books.entries[i])
  }

  predicate EntryNumbered(journals: map<nat, Journal>, e: Entry) {
    && e.journal in journals
    && var c := journals[e.journal].counter;
    && ParseReference(c.prefix, e.reference).Some?
    && ParseReference(c.prefix, e.reference).value.year == e.date.year
    && ParseReference(c.prefix, e.reference).value.number < c.nextNumber
  }

  /** No two entries of one journal share a reference. */
  predicate DistinctReferences(books: Books) {
    forall i, j :: 0 <= i < j < |books.entries| && books.entries[i].journal == books.entries[j].journal
      ==> books.entries[i].reference != books.entries[j].reference
  }

  predicate Consistent(books: Books) {
    AllBalanced(books) && Numbered(books) && DistinctReferences(books)
  }

  /** Recording an entry keeps the books balanced and its journal's references unique. */
  lemma CreateEntryPreservesConsistency(
    books: Books, journalId: nat, date: CalendarDate,
    description: Option<string>, documentRef: Option<string>, form: seq<FormLine>)
    requires Consistent(books)
    ensures Consistent(CreateEntry(books, journalId, date, description, documentRef, form).0)
  {
    var r := CreateEntry(books, journalId, date, description, documentRef, form);
    if r.1.Created? {
      var j := books.journals[journalId];
      var e := r.0.entries[|books.entries|];
      assert r.0.entries == books.entries + [e];
      AppendBalanced(books, e);
      AppendNumbered(books, journalId, e);
      AppendDistinct(books, journalId, e);
    }
  }

  /** The books after recording `e` in journal `id` and moving that journal's counter on. */
  function Appended(books: Books, id: nat, e: Entry): Books
    requires id in books.journals
  {
    var j := books.journals[id];
    Books(books.journals[id := j.(counter := Counter(j.counter.prefix, j.counter.nextNumber + 1))], books.entries + [e])
  }

  /** A fresh reference: the journal's prefix, the entry's year, the counter's current number. */
  predicate FreshlyNumbered(books: Books, id: nat, e: Entry)
    requires id in books.journals
  {
    var c := books.journals[id].counter;
    e.journal == id && ParseReference(c.prefix, e.reference) == Some(RefParts(e.date.year, c.nextNumber))
  }

  lemma AppendBalanced(books: Books, e: Entry)
    requires AllBalanced(books) && IsBalanced(e.lines)
    ensures forall i :: 0 <= i < |books.entries + [e]| ==> IsBalanced((books.entries + [e])[i].lines)
  {
  }

  lemma AppendNumbered(books: Books, id: nat, e: Entry)
    requires id in books.journals && Numbered(books) && FreshlyNumbered(books, id, e)
    ensures Numbered(Appended(books, id, e))
  {
    var after := Appended(books, id, e);
    forall i | 0 <= i < |after.entries|
      ensures EntryNumbered(after.journals, after.entries[i])
    {
      if i < |books.entries| {
        assert after.entries[i] == books.entries[i];
        assert EntryNumbered(books.journals, books.entries[i]);
      }
    }
  }

  lemma AppendDistinct(books: Books, id: nat, e: Entry)
    requires id in books.journals && Numbered(books) && DistinctReferences(books) && FreshlyNumbered(books, id, e)
    ensures DistinctReferences(Appended(books, id, e))
  {
    var after := Appended(books, id, e);
    var c := books.journals[id].counter;
    forall i, k | 0 <= i < k < |after.entries| && after.entries[i].journal == after.entries[k].journal
      ensures after.entries[i].reference != after.entries[k].reference
    {
      if k == |books.entries| {
        assert after.entries[i] == books.entries[i];
        assert EntryNumbered(books.journals, books.entries[i]);
        assert ParseReference(c.prefix, books.entries[i].reference).value.number < c.nextNumber;
      } else {
        assert after.entries[i] == books.entries[i];
        assert after.entries[k] == books.entries[k];
      }
    }
  }

  /** Validating an entry changes no amounts and no references. */
  lemma ValidateEntryPreservesConsistency(books: Books, index: nat)
    requires Consistent(books)
    requires index < |books.entries|
    ensures Consistent(ValidateEntry(books, index).value)
  {
  }
}
