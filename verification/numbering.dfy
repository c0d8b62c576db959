/** Year-scoped sequential references: `Journal.next_sequence` and
    `Numbering.next_sequence`, which are the same code on two tables, and the
    per-scope lookup `_next_number` that invoices and quotes go through. */
module Numbering {
  import opened Wrappers
  import opened Calendar
  import opened Text

  /** The numbering state of one scope: a journal, or a `Numbering` row. */
  datatype Counter = Counter(prefix: string, nextNumber: nat)

  /** `f"{prefix}{year}-{number:04d}"`: the prefix, then the year's digits,
      a dash, and at least four digits of the number. */
  function Reference(prefix: string, year: nat, number: nat): (r: string)
    ensures |r| >= |prefix| + |Digits(year)| + 5 && r[..|prefix|] == prefix
    ensures r[|prefix| + |Digits(year)|] == '-'
    ensures number < 10000 ==> |r| == |prefix| + |Digits(year)| + 5
  {
    Pad4Shape(number);
    prefix + Digits(year) + "-" + Pad4(number)
  }

  /** The year and number a reference carries. */
  datatype RefParts = RefParts(year: nat, number: nat)

  /** Position of the first `c` in `s`, if any. */
  function IndexOf(s: string, c: char): (r: Option<nat>)
    ensures r.Some? ==> r.value < |s| && s[r.value] == c && c !in s[..r.value]
    ensures r.None? ==> c !in s
  {
    if |s| == 0 then None
    else if s[0] == c then Some(0)
    else
      match IndexOf(s[1..], c)
      case None => None
      case Some(i) =>
        assert s[..i + 1] == [s[0]] + s[1..][..i];
        Some(i + 1)
  }

  /** Reads a reference back: strips `prefix`, splits at the first `-`, and
      reads the two digit runs around it. The inverse of `Reference`. */
  function ParseReference(prefix: string, s: string): (r: Option<RefParts>)
    ensures r.Some? ==> |s| > |prefix| + 2 && s[..|prefix|] == prefix && '-' in s[|prefix|..]
  {
    if |s| < |prefix| || s[..|prefix|] != prefix then None
    else
      var rest := s[|prefix|..];
      match IndexOf(rest, '-')
      case None => None
      case Some(i) =>
        var year := rest[..i];
        var number := rest[i + 1..];
        if |year| > 0 && |number| > 0 && AllDigits(year) && AllDigits(number)
        then Some(RefParts(Value(year), Value(number)))
        else None
  }

  lemma {:induction false} IndexOfAfter(a: string, c: char, b: string)
    requires c !in a
    ensures IndexOf(a + [c] + b, c) == Some(|a|)
  {
    if |a| > 0 {
      assert (a + [c] + b)[1..] == a[1..] + [c] + b;
      IndexOfAfter(a[1..], c, b);
    }
  }

  /** Every reference reads back as the year and number it was made from. */
  lemma ParseReference_Reference(prefix: string, year: nat, number: nat)
    ensures ParseReference(prefix, Reference(prefix, year, number)) == Some(RefParts(year, number))
  {
    ParseParts(prefix, Digits(year), Pad4(number));
    ValueOfDigits(year);
    ValueOfPad4(number);
  }

  /** A prefix, two non-empty digit runs and a dash between them parse back into the runs' values. */
  lemma ParseParts(prefix: string, y: string, n: string)
    requires |y| > 0 && |n| > 0 && AllDigits(y) && AllDigits(n)
    ensures ParseReference(prefix, prefix + y + "-" + n) == Some(RefParts(Value(y), Value(n)))
  {
    var s := prefix + y + "-" + n;
    assert s[..|prefix|] == prefix;
    var rest := s[|prefix|..];
    assert rest == y + ['-'] + n;
    assert '-' !in y by {
      assert forall k :: 0 <= k < |y| ==> y[k] != '-';
    }
    IndexOfAfter(y, '-', n);
    assert rest[..|y|] == y;
    assert rest[|y| + 1..] == n;
  }

  /** Two references of one prefix are equal only if their years and numbers are. */
  lemma ReferenceInjective(prefix: string, y1: nat, n1: nat, y2: nat, n2: nat)
    requires Reference(prefix, y1, n1) == Reference(prefix, y2, n2)
    ensures y1 == y2 && n1 == n2
  {
    ParseReference_Reference(prefix, y1, n1);
    ParseReference_Reference(prefix, y2, n2);
  }

  /** `next_sequence(when)`: the reference for the current counter value in
      the year of `when` (of `today` when `when` is absent), and the counter
      moved on by one. */
  function NextSequence(c: Counter, when: Option<CalendarDate>, today: CalendarDate): (r: (string, Counter))
    ensures r.0 == c.prefix + Digits(when.GetOr(today).year) + "-" + Pad4(c.nextNumber)
    ensures r.1.prefix == c.prefix && r.1.nextNumber == c.nextNumber + 1
    ensures ParseReference(c.prefix, r.0) == Some(RefParts(when.GetOr(today).year, c.nextNumber))
  {
    var d := when.GetOr(today);
    ParseReference_Reference(c.prefix, d.year, c.nextNumber);
    (Reference(c.prefix, d.year, c.nextNumber), Counter(c.prefix, c.nextNumber + 1))
  }

  /** The first reference of a fresh "ACH-" journal in 2024 is "ACH-2024-0001",
      the year of `today` stands in for a missing date, and a fifth digit
      widens the number field. */
  lemma NextSequenceExamples()
    ensures NextSequence(Counter("ACH-", 1), Some(Date(2024, 3, 15)), Date(2025, 1, 1)).0 == "ACH-2024-0001"
    ensures NextSequence(Counter("ACH-", 1), None, Date(2025, 1, 1)).0 == "ACH-2025-0001"
    ensures NextSequence(Counter("INV-", 12345), None, Date(2024, 1, 1)).0 == "INV-2024-12345"
  {
    ReferenceExamples();
  }

  lemma ReferenceExamples()
    ensures Reference("ACH-", 2024, 1) == "ACH-2024-0001"
    ensures Reference("ACH-", 2025, 1) == "ACH-2025-0001"
    ensures Reference("INV-", 2024, 12345) == "INV-2024-12345"
  {
    RenderingExamples();
    assert "ACH-" + "2024" + "-" + "0001" == "ACH-2024-0001";
    assert "ACH-" + "2025" + "-" + "0001" == "ACH-2025-0001";
    assert "INV-" + "2024" + "-" + "12345" == "INV-2024-12345";
  }

  lemma RenderingExamples()
    ensures Digits(2024) == "2024" && Digits(2025) == "2025"
    ensures Pad4(1) == "0001" && Pad4(12345) == "12345"
  {
    YearDigits();
    NumberDigits();
    assert Zeros(3) == "000";
  }

  lemma YearDigits()
    ensures Digits(2024) == "2024" && Digits(2025) == "2025"
  {
    assert Digits(2) == "2";
    assert Digits(20) == "20";
    assert Digits(202) == "202";
  }

  lemma NumberDigits()
    ensures Digits(1) == "1" && Digits(12345) == "12345"
  {
    assert Digits(12) == "12";
    assert Digits(123) == "123";
    assert Digits(1234) == "1234";
  }

  /** Successive `next_sequence` calls on one scope with the given dates. */
  method IssueReferences(c: Counter, whens: seq<Option<CalendarDate>>, today: CalendarDate)
    returns (refs: seq<string>, after: Counter)
    ensures after == Counter(c.prefix, c.nextNumber + |whens|)
    ensures |refs| == |whens|
    ensures forall i :: 0 <= i < |refs| ==>
      refs[i] == Reference(c.prefix, whens[i].GetOr(today).year, c.nextNumber + i)
    ensures forall i :: 0 <= i < |refs| ==>
      ParseReference(c.prefix, refs[i]) == Some(RefParts(whens[i].GetOr(today).year, c.nextNumber + i))
    ensures forall i, j :: 0 <= i < j < |refs| ==> refs[i] != refs[j]
  {
    refs := [];
    after := c;
    while |refs| < |whens|
      invariant |refs| <= |whens|
      invariant after == Counter(c.prefix, c.nextNumber + |refs|)
      invariant Issued(c.prefix, refs, whens, today, c.nextNumber)
      invariant Rendered(c.prefix, refs, whens, today, c.nextNumber)
      invariant forall i, j :: 0 <= i < j < |refs| ==> refs[i] != refs[j]
    {
      var n := |refs|;
      var (r, next) := NextSequence(after, whens[n], today);
      FreshReference(c.prefix, refs, c.nextNumber, r);
      DistinctAppend(refs, r);
      IssuedAppend(c.prefix, refs, whens, today, c.nextNumber, r);
      RenderedAppend(c.prefix, refs, whens, today, c.nextNumber, r);
      refs := refs + [r];
      after := next;
    }
  }

  /** `refs` read back, in order, as the years of `whens` and consecutive numbers from `first`. */
  predicate Issued(prefix: string, refs: seq<string>, whens: seq<Option<CalendarDate>>, today: CalendarDate, first: nat) {
    && |refs| <= |whens|
    && forall i :: 0 <= i < |refs| ==>
         ParseReference(prefix, refs[i]) == Some(RefParts(whens[i].GetOr(today).year, first + i))
  }

  lemma IssuedAppend(prefix: string, refs: seq<string>, whens: seq<Option<CalendarDate>>, today: CalendarDate, first: nat, r: string)
    requires Issued(prefix, refs, whens, today, first) && |refs| < |whens|
    requires ParseReference(prefix, r) == Some(RefParts(whens[|refs|].GetOr(today).year, first + |refs|))
    ensures Issued(prefix, refs + [r], whens, today, first)
  {
    var s := refs + [r];
    forall i | 0 <= i < |s|
      ensures ParseReference(prefix, s[i]) == Some(RefParts(whens[i].GetOr(today).year, first + i))
    {
      if i < |refs| {
        assert s[i] == refs[i];
      }
    }
  }

  /** `refs` are, in order, the references for the years of `whens` and consecutive numbers from `first`. */
  predicate Rendered(prefix: string, refs: seq<string>, whens: seq<Option<CalendarDate>>, today: CalendarDate, first: nat) {
    && |refs| <= |whens|
    && forall i :: 0 <= i < |refs| ==>
         refs[i] == Reference(prefix, whens[i].GetOr(today).year, first + i)
  }

  lemma RenderedAppend(prefix: string, refs: seq<string>, whens: seq<Option<CalendarDate>>, today: CalendarDate, first: nat, r: string)
    requires Rendered(prefix, refs, whens, today, first) && |refs| < |whens|
    requires r == Reference(prefix, whens[|refs|].GetOr(today).year, first + |refs|)
    ensures Rendered(prefix, refs + [r], whens, today, first)
  {
    assert forall i :: 0 <= i < |refs| ==> (refs + [r])[i] == refs[i];
  }

  /** A reference numbered past the end of a run numbered from `first` is new to that run. */
  lemma FreshReference(prefix: string, refs: seq<string>, first: nat, r: string)
    requires forall i :: 0 <= i < |refs| ==>
      ParseReference(prefix, refs[i]).Some? && ParseReference(prefix, refs[i]).value.number == first + i
    requires ParseReference(prefix, r).Some? && ParseReference(prefix, r).value.number == first + |refs|
    ensures forall i :: 0 <= i < |refs| ==> refs[i] != r
  {
  }

  lemma DistinctAppend(refs: seq<string>, r: string)
    requires forall i, j :: 0 <= i < j < |refs| ==> refs[i] != refs[j]
    requires forall i :: 0 <= i < |refs| ==> refs[i] != r
    ensures forall i, j :: 0 <= i < j < |refs + [r]| ==> (refs + [r])[i] != (refs + [r])[j]
  {
  }

  /** A `Numbering` row: one counter per document scope ("invoice", "quote", ...). */
  datatype NumberingRow = NumberingRow(scope: string, counter: Counter)

  /** Index of the row for `scope` (`Numbering.query.filter_by(scope=scope).first()`). */
  function FindScope(rows: seq<NumberingRow>, scope: string): (r: Option<nat>)
    ensures r.Some? ==>
      && r.value < |rows|
      && rows[r.value].scope == scope
      && forall k :: 0 <= k < r.value ==> rows[k].scope != scope
    ensures r.None? ==> forall k :: 0 <= k < |rows| ==> rows[k].scope != scope
  {
    if |rows| == 0 then None
    else if rows[0].scope == scope then Some(0)
    else
      match FindScope(rows[1..], scope)
      case None => None
      case Some(i) => Some(i + 1)
  }

  /** `_next_number(scope, prefix)`: creates the scope's row with `prefix`
      and counter 1 when it is missing, then draws the next reference dated
      today. Rows of other scopes are untouched. */
  function NextNumber(rows: seq<NumberingRow>, scope: string, prefix: string, today: CalendarDate)
    : (r: (string, seq<NumberingRow>))
    ensures FindScope(rows, scope).None? ==>
      && r.0 == prefix + Digits(today.year) + "-" + Pad4(1)
      && |r.1| == |rows| + 1
      && r.1[..|rows|] == rows
      && r.1[|rows|] == NumberingRow(scope, Counter(prefix, 2))
      && ParseReference(prefix, r.0) == Some(RefParts(today.year, 1))
    ensures FindScope(rows, scope).Some? ==>
      var i := FindScope(rows, scope).value;
      && |r.1| == |rows|
      && (forall k :: 0 <= k < |rows| && k != i ==> r.1[k] == rows[k])
      && r.1[i].scope == scope
      && r.1[i].counter == Counter(rows[i].counter.prefix, rows[i].counter.nextNumber + 1)
      && r.0 == rows[i].counter.prefix + Digits(today.year) + "-" + Pad4(rows[i].counter.nextNumber)
      && ParseReference(rows[i].counter.prefix, r.0) == Some(RefParts(today.year, rows[i].counter.nextNumber))
  {
    match FindScope(rows, scope)
    case None =>
      var (ref, c) := NextSequence(Counter(prefix, 1), Some(today), today);
      (ref, rows + [NumberingRow(scope, c)])
    case Some(i) =>
      var (ref, c) := NextSequence(rows[i].counter, Some(today), today);
      (ref, rows[i := NumberingRow(scope, c)])
  }
}
