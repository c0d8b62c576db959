/** The share register of a company (`Societe`): its associates, the total
    number of parts, the percentage distribution, and the update a share
    transfer (`Cession`) makes to it. */
module Shares {
  import opened Wrappers
  import opened Sums

  /** `Associate`: an associate of a company and the parts they hold.
      `parts_count` is a non-null integer column with no sign constraint. */
  datatype Associate = Associate(name: string, address: Option<string>, parts: int)

  function PartsOf(a: Associate): int { a.parts }

  /** `Societe.total_parts`: the parts of every associate, added up. */
  function TotalParts(assocs: seq<Associate>): (r: int)
    ensures assocs == [] ==> r == 0
    ensures (forall a :: a in assocs ==> a.parts >= 0) ==> r >= 0
  {
    SumNonNegative(assocs, PartsOf);
    Sum(assocs, PartsOf)
  }

  /** The position of the first associate with this name, as `next(...)` over
      the associates finds it. */
  function FindByName(assocs: seq<Associate>, name: string): (r: Option<nat>)
    ensures r.Some? ==> r.value < |assocs| && assocs[r.value].name == name
    ensures r.Some? ==> forall k :: 0 <= k < r.value ==> assocs[k].name != name
    ensures r.None? ==> forall k :: 0 <= k < |assocs| ==> assocs[k].name != name
  {
    if |assocs| == 0 then None
    else if assocs[0].name == name then Some(0)
    else match FindByName(assocs[1..], name)
      case None => None
      case Some(k) => Some(k + 1)
  }

  /** The parts held under a name: those of its first row, or 0 without one. */
  function Holding(assocs: seq<Associate>, name: string): int {
    match FindByName(assocs, name)
    case None => 0
    case Some(k) => assocs[k].parts
  }

  function Max0(x: int): int { if x < 0 then 0 else x }

  /** The row `apply_to_distribution` creates for a party it does not find. */
  function NewRow(name: string): Associate { Associate(name, None, 0) }

  lemma {:induction false} FindAppended(assocs: seq<Associate>, name: string)
    requires FindByName(assocs, name).None?
    ensures FindByName(assocs + [NewRow(name)], name) == Some(|assocs|)
  {
    if |assocs| > 0 {
      assert (assocs + [NewRow(name)])[1..] == assocs[1..] + [NewRow(name)];
      FindAppended(assocs[1..], name);
    }
  }

  /** Appending a row with another name does not move the first row of a name. */
  lemma {:induction false} FindPastAppended(assocs: seq<Associate>, a: Associate, name: string)
    requires a.name != name
    ensures FindByName(assocs + [a], name) == FindByName(assocs, name)
  {
    if |assocs| > 0 {
      assert (assocs + [a])[1..] == assocs[1..] + [a];
      FindPastAppended(assocs[1..], a, name);
    }
  }

  /** Changing the parts of a row keeps every name where it was. */
  lemma {:induction false} FindAfterUpdate(assocs: seq<Associate>, i: nat, p: int, name: string)
    requires i < |assocs|
    ensures FindByName(assocs[i := assocs[i].(parts := p)], name) == FindByName(assocs, name)
  {
    if |assocs| > 0 && i > 0 {
      assert assocs[i := assocs[i].(parts := p)][1..] == assocs[1..][i - 1 := assocs[i].(parts := p)];
      FindAfterUpdate(assocs[1..], i - 1, p, name);
    }
  }

  function SetParts(assocs: seq<Associate>, i: nat, p: int): (r: seq<Associate>)
    requires i < |assocs|
    ensures |r| == |assocs| && r[i].parts == p
    ensures r[i].name == assocs[i].name && r[i].address == assocs[i].address
    ensures forall k :: 0 <= k < |assocs| && k != i ==> r[k] == assocs[k]
  {
    assocs[i := assocs[i].(parts := p)]
  }

  /** The rows finding-or-creating both parties appends: one for each party
      not yet registered, the cedant's first, and one only when both parties
      are the same absent name. */
  function NewParties(assocs: seq<Associate>, cedant: string, cessionnaire: string): (r: seq<Associate>)
    ensures |r| <= 2
    ensures forall k :: 0 <= k < |r| ==> r[k].address.None? && r[k].parts == 0 && (r[k].name == cedant || r[k].name == cessionnaire)
  {
    (if FindByName(assocs, cedant).None? then [NewRow(cedant)] else [])
    + (if FindByName(assocs, cessionnaire).None? && cessionnaire != cedant then [NewRow(cessionnaire)] else [])
  }

  /** The register with rows for both parties, and the positions of those rows. */
  function Parties(assocs: seq<Associate>, cedant: string, cessionnaire: string): (r: (seq<Associate>, nat, nat))
    ensures r.0 == assocs + NewParties(assocs, cedant, cessionnaire)
    ensures |assocs| <= |r.0| <= |assocs| + 2 && r.0[..|assocs|] == assocs
    ensures forall k :: |assocs| <= k < |r.0| ==> r.0[k].address.None? && r.0[k].parts == 0 && (r.0[k].name == cedant || r.0[k].name == cessionnaire)
    ensures r.1 < |r.0| && FindByName(r.0, cedant) == Some(r.1)
    ensures r.2 < |r.0| && FindByName(r.0, cessionnaire) == Some(r.2)
  {
    var (s1, i) := Enrol(assocs, cedant);
    var (s2, j) := Enrol(s1, cessionnaire);
    EnrolBoth(assocs, cedant, cessionnaire);
    var added := NewParties(assocs, cedant, cessionnaire);
    assert s2[..|assocs|] == assocs;
    assert forall k :: |assocs| <= k < |s2| ==> s2[k] == added[k - |assocs|];
    (s2, i, j)
  }

  /** Enrolling the cedant and then the cessionnaire appends exactly their missing rows. */
  lemma EnrolBoth(assocs: seq<Associate>, cedant: string, cessionnaire: string)
    ensures Enrol(Enrol(assocs, cedant).0, cessionnaire).0 == assocs + NewParties(assocs, cedant, cessionnaire)
  {
    var s1 := Enrol(assocs, cedant).0;
    var forCedant := if FindByName(assocs, cedant).None? then [NewRow(cedant)] else [];
    assert s1 == assocs + forCedant;
    if cessionnaire == cedant {
      assert FindByName(s1, cessionnaire).Some?;
      assert NewParties(assocs, cedant, cessionnaire) == forCedant + [];
    } else {
      assert FindByName(s1, cessionnaire) == FindByName(assocs, cessionnaire);
      if FindByName(assocs, cessionnaire).None? {
        assert (assocs + forCedant) + [NewRow(cessionnaire)] == assocs + (forCedant + [NewRow(cessionnaire)]);
      } else {
        assert NewParties(assocs, cedant, cessionnaire) == forCedant + [];
      }
    }
  }

  /** A party's row is an existing row exactly when the party was already
      registered, and then it is the party's first row. */
  lemma PartiesOrigin(assocs: seq<Associate>, cedant: string, cessionnaire: string)
    ensures var (_, i, j) := Parties(assocs, cedant, cessionnaire);
      && (i < |assocs| <==> FindByName(assocs, cedant).Some?)
      && (j < |assocs| <==> FindByName(assocs, cessionnaire).Some?)
      && (i < |assocs| ==> FindByName(assocs, cedant) == Some(i))
      && (j < |assocs| ==> FindByName(assocs, cessionnaire) == Some(j))
  {
    if cedant != cessionnaire {
      FindPastEnrol(assocs, cedant, cessionnaire);
    }
  }

  /** Enrolling one name does not move the first row of another. */
  lemma FindPastEnrol(assocs: seq<Associate>, enrolled: string, name: string)
    requires enrolled != name
    ensures FindByName(Enrol(assocs, enrolled).0, name) == FindByName(assocs, name)
  {
  }

  /** The row for a name, and the register with that row appended when the
      name had none. */
  function Enrol(assocs: seq<Associate>, name: string): (r: (seq<Associate>, nat))
    ensures FindByName(assocs, name).Some? ==> r.0 == assocs
    ensures FindByName(assocs, name).None? ==> r.0 == assocs + [NewRow(name)]
    ensures |assocs| <= |r.0| <= |assocs| + 1 && r.0[..|assocs|] == assocs
    ensures forall k :: |assocs| <= k < |r.0| ==> r.0[k] == NewRow(name)
    ensures r.1 < |r.0| && FindByName(r.0, name) == Some(r.1)
    ensures r.1 < |assocs| <==> FindByName(assocs, name).Some?
    ensures r.1 < |assocs| ==> FindByName(assocs, name) == Some(r.1)
    ensures forall other :: other != name ==> FindByName(r.0, other) == FindByName(assocs, other)
  {
    match FindByName(assocs, name)
    case Some(i) => (assocs, i)
    case None =>
      FindAppended(assocs, name);
      FindPastAppendedAll(assocs, NewRow(name));
      (assocs + [NewRow(name)], |assocs|)
  }

  lemma FindPastAppendedAll(assocs: seq<Associate>, a: Associate)
    ensures forall other :: other != a.name ==> FindByName(assocs + [a], other) == FindByName(assocs, other)
  {
    forall other | other != a.name
      ensures FindByName(assocs + [a], other) == FindByName(assocs, other)
    {
      FindPastAppended(assocs, a, other);
    }
  }

  /** `Cession.apply_to_distribution`: move `parts` from the cedant to the
      cessionnaire, creating either associate if absent, and never letting
      the cedant go below zero. A non-positive number of parts changes nothing. */
  function ApplyCession(assocs: seq<Associate>, cedant: string, cessionnaire: string, parts: int): (r: seq<Associate>)
    ensures parts <= 0 ==> r == assocs
    ensures parts > 0 ==> |assocs| <= |r| <= |assocs| + 2
    ensures parts > 0 ==> |r| == |assocs| + |NewParties(assocs, cedant, cessionnaire)|
    ensures parts > 0 ==> forall k :: |assocs| <= k < |r| ==>
      r[k].name == NewParties(assocs, cedant, cessionnaire)[k - |assocs|].name && r[k].address.None?
    ensures parts > 0 ==> forall k :: 0 <= k < |assocs| ==> r[k].name == assocs[k].name && r[k].address == assocs[k].address
  {
    if parts <= 0 then assocs
    else
      var (s2, i, j) := Parties(assocs, cedant, cessionnaire);
      Transfer(s2, i, j, parts)
  }

  /** Debit row `i` by `parts`, floored at zero, then credit row `j` (the
      same row when both parties are one associate). */
  function Transfer(s: seq<Associate>, i: nat, j: nat, parts: int): (r: seq<Associate>)
    requires i < |s| && j < |s|
    ensures |r| == |s|
    ensures forall k :: 0 <= k < |s| ==> r[k].name == s[k].name && r[k].address == s[k].address
    ensures forall k :: 0 <= k < |s| && k != i && k != j ==> r[k] == s[k]
  {
    var s3 := SetParts(s, i, Max0(s[i].parts - parts));
    SetParts(s3, j, s3[j].parts + parts)
  }

  /** On distinct rows found by name, a transfer sets both parties' holdings. */
  lemma TransferHoldings(s: seq<Associate>, i: nat, j: nat, cedant: string, cessionnaire: string, parts: int)
    requires i < |s| && j < |s| && i != j
    requires FindByName(s, cedant) == Some(i) && FindByName(s, cessionnaire) == Some(j)
    ensures Holding(Transfer(s, i, j, parts), cedant) == Max0(Holding(s, cedant) - parts)
    ensures Holding(Transfer(s, i, j, parts), cessionnaire) == Holding(s, cessionnaire) + parts
  {
    var s3 := SetParts(s, i, Max0(s[i].parts - parts));
    HoldingAfterSet(s, i, Max0(s[i].parts - parts), cessionnaire);
    FindAfterUpdate(s, i, Max0(s[i].parts - parts), cedant);
    FindAfterUpdate(s, i, Max0(s[i].parts - parts), cessionnaire);
    HoldingAfterSet(s3, j, s3[j].parts + parts, cedant);
    HoldingAfterSet(s3, j, s3[j].parts + parts, cessionnaire);
  }

  /** Only the first rows of the two parties change; any new rows belong to
      the parties and carry no address. */
  lemma CessionLeavesOthers(assocs: seq<Associate>, cedant: string, cessionnaire: string, parts: int)
    requires parts > 0
    ensures var r := ApplyCession(assocs, cedant, cessionnaire, parts);
      && (forall k :: 0 <= k < |assocs| && FindByName(assocs, cedant) != Some(k) && FindByName(assocs, cessionnaire) != Some(k)
            ==> r[k] == assocs[k])
      && (forall k :: |assocs| <= k < |r| ==> r[k].address.None? && (r[k].name == cedant || r[k].name == cessionnaire))
  {
    PartiesOrigin(assocs, cedant, cessionnaire);
  }

  /** The cedant's holding drops by `parts` but not below zero, and the
      cessionnaire's grows by `parts`. */
  lemma CessionMovesParts(assocs: seq<Associate>, cedant: string, cessionnaire: string, parts: int)
    requires parts > 0 && cedant != cessionnaire
    ensures Holding(ApplyCession(assocs, cedant, cessionnaire, parts), cedant) == Max0(Holding(assocs, cedant) - parts)
    ensures Holding(ApplyCession(assocs, cedant, cessionnaire, parts), cessionnaire) == Holding(assocs, cessionnaire) + parts
  {
    var (s2, i, j) := Parties(assocs, cedant, cessionnaire);
    PartiesHolding(assocs, cedant, cessionnaire, cedant, i);
    PartiesHolding(assocs, cedant, cessionnaire, cessionnaire, j);
    TransferHoldings(s2, i, j, cedant, cessionnaire, parts);
  }

  /** A transfer to oneself takes the parts away, floored at zero, and gives them back. */
  lemma CessionToSelf(assocs: seq<Associate>, name: string, parts: int)
    requires parts > 0
    ensures Holding(ApplyCession(assocs, name, name, parts), name) == Max0(Holding(assocs, name) - parts) + parts
  {
    var (s2, i, j) := Parties(assocs, name, name);
    PartiesHolding(assocs, name, name, name, i);
    var s3 := SetParts(s2, i, Max0(s2[i].parts - parts));
    HoldingAfterSet(s2, i, Max0(s2[i].parts - parts), name);
    HoldingAfterSet(s3, j, s3[j].parts + parts, name);
  }

  /** Adding the parties' rows leaves every party's holding as it was. */
  lemma PartiesHolding(assocs: seq<Associate>, cedant: string, cessionnaire: string, name: string, k: nat)
    requires k < |Parties(assocs, cedant, cessionnaire).0|
    requires FindByName(Parties(assocs, cedant, cessionnaire).0, name) == Some(k)
    ensures Holding(Parties(assocs, cedant, cessionnaire).0, name) == Holding(assocs, name)
  {
    var s2 := Parties(assocs, cedant, cessionnaire).0;
    if k < |assocs| {
      assert s2[k] == s2[..|assocs|][k] == assocs[k];
      FindInPrefix(s2, |assocs|, name);
    } else {
      FindInPrefix(s2, |assocs|, name);
    }
  }

  /** The first row of a name, found past a prefix, means the prefix lacks it. */
  lemma {:induction false} FindInPrefix(s: seq<Associate>, n: nat, name: string)
    requires n <= |s|
    ensures match FindByName(s, name)
      case Some(k) => if k < n then FindByName(s[..n], name) == Some(k) else FindByName(s[..n], name).None?
      case None => FindByName(s[..n], name).None?
  {
    if |s| > 0 && n > 0 {
      assert s[..n][1..] == s[1..][..n - 1];
      FindInPrefix(s[1..], n - 1, name);
    }
  }

  /** Setting the parts of a name's first row sets that name's holding and no other's. */
  lemma HoldingAfterSet(s: seq<Associate>, i: nat, p: int, name: string)
    requires i < |s|
    ensures Holding(SetParts(s, i, p), name) == if FindByName(s, name) == Some(i) then p else Holding(s, name)
  {
    FindAfterUpdate(s, i, p, name);
  }

  /** Parts are conserved when the cedant holds enough: the total changes
      only by what the floor at zero creates, `parts - holding` when the
      cedant holds fewer than `parts`. */
  lemma CessionTotal(assocs: seq<Associate>, cedant: string, cessionnaire: string, parts: int)
    requires parts > 0
    ensures var h := Holding(assocs, cedant);
      TotalParts(ApplyCession(assocs, cedant, cessionnaire, parts)) == TotalParts(assocs) + Max0(h - parts) - h + parts
  {
    var (s2, i, j) := Parties(assocs, cedant, cessionnaire);
    PartiesHolding(assocs, cedant, cessionnaire, cedant, i);
    PartiesTotal(assocs, cedant, cessionnaire);
    TransferTotal(s2, i, j, parts);
  }

  /** The rows added for absent parties hold no parts. */
  lemma PartiesTotal(assocs: seq<Associate>, cedant: string, cessionnaire: string)
    ensures TotalParts(Parties(assocs, cedant, cessionnaire).0) == TotalParts(assocs)
  {
    var s2 := Parties(assocs, cedant, cessionnaire).0;
    assert s2 == assocs + s2[|assocs|..];
    SumConcat(assocs, s2[|assocs|..], PartsOf);
    SumZero(s2[|assocs|..], PartsOf);
  }

  /** A transfer changes the total by what the debited row loses and the credited row gains. */
  lemma TransferTotal(s: seq<Associate>, i: nat, j: nat, parts: int)
    requires i < |s| && j < |s|
    ensures TotalParts(Transfer(s, i, j, parts)) == TotalParts(s) - s[i].parts + Max0(s[i].parts - parts) + parts
  {
    var s3 := SetParts(s, i, Max0(s[i].parts - parts));
    SumUpdate(s, i, s[i].(parts := Max0(s[i].parts - parts)), PartsOf);
    SumUpdate(s3, j, s3[j].(parts := s3[j].parts + parts), PartsOf);
  }

  /** When the cedant holds at least the parts transferred, the total is unchanged. */
  lemma CessionConservesParts(assocs: seq<Associate>, cedant: string, cessionnaire: string, parts: int)
    requires parts <= 0 || Holding(assocs, cedant) >= parts
    ensures TotalParts(ApplyCession(assocs, cedant, cessionnaire, parts)) == TotalParts(assocs)
  {
    if parts > 0 {
      CessionTotal(assocs, cedant, cessionnaire, parts);
    }
  }

  /** A strict alternative to the floored transfer: it refuses a transfer
      larger than the cedant's holding instead of absorbing the shortfall. */
  function ApplyCessionStrict(assocs: seq<Associate>, cedant: string, cessionnaire: string, parts: int): (r: Result<seq<Associate>, string>)
    ensures r.Failure? <==> parts > 0 && Holding(assocs, cedant) < parts
    ensures r.Success? ==> r.value == ApplyCession(assocs, cedant, cessionnaire, parts)
    ensures r.Success? ==> TotalParts(r.value) == TotalParts(assocs)
  {
    if parts > 0 && Holding(assocs, cedant) < parts then Failure("insufficient parts")
    else
      CessionConservesParts(assocs, cedant, cessionnaire, parts);
      Success(ApplyCession(assocs, cedant, cessionnaire, parts))
  }

  /** One row of `Societe.distribution`. */
  datatype Holder = Holder(name: string, address: Option<string>, parts: int, percent: real)

  /** The divisor of the percentages: the total, or 1 when the total is 0. */
  function Divisor(assocs: seq<Associate>): (d: int)
    ensures d != 0
    ensures TotalParts(assocs) != 0 ==> d == TotalParts(assocs)
    ensures TotalParts(assocs) == 0 ==> d == 1
  {
    var t := TotalParts(assocs);
    if t == 0 then 1 else t
  }

  function Percent(parts: int, divisor: int): real
    requires divisor != 0
  {
    (parts as real / divisor as real) * 100.0
  }

  function Holders(assocs: seq<Associate>, divisor: int): (r: seq<Holder>)
    requires divisor != 0
    ensures |r| == |assocs|
    ensures forall k :: 0 <= k < |assocs| ==>
      && r[k].name == assocs[k].name && r[k].address == assocs[k].address && r[k].parts == assocs[k].parts
      && r[k].percent == Percent(assocs[k].parts, divisor)
  {
    if |assocs| == 0 then [] else [Holder(assocs[0].name, assocs[0].address, assocs[0].parts, Percent(assocs[0].parts, divisor))] + Holders(assocs[1..], divisor)
  }

  /** `Societe.distribution`: one row per associate, in register order, its
      percentage taken of the total, or of 1 when the total is 0. */
  function Distribution(assocs: seq<Associate>): (r: seq<Holder>)
    ensures |r| == |assocs|
    ensures forall k :: 0 <= k < |assocs| ==>
      && r[k].name == assocs[k].name && r[k].address == assocs[k].address && r[k].parts == assocs[k].parts
    ensures TotalParts(assocs) != 0 ==> forall k :: 0 <= k < |assocs| ==>
      r[k].percent == (assocs[k].parts as real / TotalParts(assocs) as real) * 100.0
    ensures TotalParts(assocs) == 0 ==> forall k :: 0 <= k < |assocs| ==>
      r[k].percent == assocs[k].parts as real * 100.0
  {
    Holders(assocs, Divisor(assocs))
  }

  /** A register whose holdings cancel out divides by 1, so each percentage
      is a hundred times the holding: {A:5, B:-5} gives 500 and -500. */
  lemma ZeroTotalDistributionExample()
    ensures var rows := Distribution([Associate("A", None, 5), Associate("B", None, -5)]);
      && |rows| == 2
      && rows[0].percent == 500.0 && rows[1].percent == -500.0
  {
    var assocs := [Associate("A", None, 5), Associate("B", None, -5)];
    assert TotalParts(assocs) == 0 by {
      assert assocs[1..] == [Associate("B", None, -5)];
    }
  }

  function PercentSum(rows: seq<Holder>): real {
    if |rows| == 0 then 0.0 else rows[0].percent + PercentSum(rows[1..])
  }

  lemma {:induction false} HoldersPercentSum(assocs: seq<Associate>, divisor: int)
    requires divisor != 0
    ensures PercentSum(Holders(assocs, divisor)) == Percent(TotalParts(assocs), divisor)
  {
    if |assocs| > 0 {
      HoldersPercentSum(assocs[1..], divisor);
      PercentAdd(assocs[0].parts, TotalParts(assocs[1..]), divisor);
    }
  }

  lemma PercentAdd(a: int, b: int, divisor: int)
    requires divisor != 0
    ensures Percent(a, divisor) + Percent(b, divisor) == Percent(a + b, divisor)
  {
    var d := divisor as real;
    assert a as real / d + b as real / d == (a + b) as real / d;
  }

  /** The percentages add up to 100 whenever the company has a non-zero total. */
  lemma DistributionSumsToHundred(assocs: seq<Associate>)
    requires TotalParts(assocs) != 0
    ensures PercentSum(Distribution(assocs)) == 100.0
  {
    HoldersPercentSum(assocs, Divisor(assocs));
    var t := TotalParts(assocs) as real;
    assert t / t == 1.0;
  }

  /** With non-negative holdings each percentage lies between 0 and 100. */
  lemma PercentBounds(assocs: seq<Associate>, k: nat)
    requires k < |assocs|
    requires forall a :: a in assocs ==> a.parts >= 0
    ensures 0.0 <= Distribution(assocs)[k].percent <= 100.0
  {
    PartBelowTotal(assocs, k);
    RatioBounds(assocs[k].parts as real, Divisor(assocs) as real);
  }

  lemma RatioBounds(p: real, d: real)
    requires 0.0 <= p <= d && d > 0.0
    ensures 0.0 <= p / d <= 1.0
  {
    var q := p / d;
    assert q * d == p;
    assert (1.0 - q) * d == d - p;
  }

  lemma {:induction false} PartBelowTotal(assocs: seq<Associate>, k: nat)
    requires k < |assocs|
    requires forall a :: a in assocs ==> a.parts >= 0
    ensures 0 <= assocs[k].parts <= TotalParts(assocs)
  {
    assert assocs[0] in assocs;
    if k > 0 {
      PartBelowTotal(assocs[1..], k - 1);
    } else {
      assert TotalParts(assocs[1..]) >= 0 by { NonNegativeTotal(assocs[1..]); }
    }
  }

  lemma {:induction false} NonNegativeTotal(assocs: seq<Associate>)
    requires forall a :: a in assocs ==> a.parts >= 0
    ensures TotalParts(assocs) >= 0
  {
    if |assocs| > 0 {
      assert assocs[0] in assocs;
      NonNegativeTotal(assocs[1..]);
    }
  }

  /** Two transfers from A to B, of 30 parts and then of 150 parts. The second
      exceeds A's 70 parts: A is floored at 0 while B still receives all 150,
      so the total rises from 100 to 180. */
  lemma CessionExample()
    ensures var start := [Associate("A", None, 100), Associate("B", None, 0)];
      var once := ApplyCession(start, "A", "B", 30);
      && once == [Associate("A", None, 70), Associate("B", None, 30)]
      && ApplyCession(once, "A", "B", 150) == [Associate("A", None, 0), Associate("B", None, 180)]
  {
    var start := [Associate("A", None, 100), Associate("B", None, 0)];
    assert FindByName(start, "A") == Some(0);
    assert FindByName(start, "B") == Some(1) by {
      assert start[1..] == [Associate("B", None, 0)];
    }
    assert Parties(start, "A", "B") == (start, 0, 1);
    var once := [Associate("A", None, 70), Associate("B", None, 30)];
    assert Transfer(start, 0, 1, 30) == once;
    assert FindByName(once, "A") == Some(0);
    assert FindByName(once, "B") == Some(1) by {
      assert once[1..] == [Associate("B", None, 30)];
    }
    assert Parties(once, "A", "B") == (once, 0, 1);
    assert Transfer(once, 0, 1, 150) == [Associate("A", None, 0), Associate("B", None, 180)];
  }

  /** A share transfer as the cession form records it. */
  datatype Cession = Cession(
    company: int,
    cedant: string,
    cedantAddress: Option<string>,
    cessionnaire: string,
    cessionnaireAddress: Option<string>,
    parts: int)

  datatype Company = Company(name: string, associates: seq<Associate>)

  /** The companies by id, and the cessions recorded so far. */
  datatype Registry = Registry(companies: map<int, Company>, cessions: seq<Cession>)

  datatype CessionOutcome = Redirected | CompanyNotFound | Recorded

  /** Python truthiness of the optional form fields the guard tests. */
  predicate Present(s: Option<string>) { s.Some? && s.value != "" }
  predicate NonZero(n: Option<int>) { n.Some? && n.value != 0 }

  /** The cession creation route: the guard on the form fields, the company
      lookup, then the recorded cession and the updated register. */
  function CreateCession(
    reg: Registry,
    companyId: Option<int>,
    cedant: Option<string>,
    cedantAddress: Option<string>,
    cessionnaire: Option<string>,
    cessionnaireAddress: Option<string>,
    parts: Option<int>): (r: (Registry, CessionOutcome))
    ensures r.1 == Redirected <==> !(NonZero(companyId) && Present(cedant) && Present(cessionnaire) && NonZero(parts))
    ensures r.1 == CompanyNotFound <==> r.1 != Redirected && companyId.value !in reg.companies
    ensures r.1 != Recorded ==> r.0 == reg
    ensures r.1 == Recorded ==>
      && r.0.cessions == reg.cessions + [Cession(companyId.value, cedant.value, cedantAddress, cessionnaire.value, cessionnaireAddress, parts.value)]
      && r.0.companies.Keys == reg.companies.Keys
      && (forall id :: id in reg.companies && id != companyId.value ==> r.0.companies[id] == reg.companies[id])
      && r.0.companies[companyId.value].name == reg.companies[companyId.value].name
      && r.0.companies[companyId.value].associates
         == ApplyCession(reg.companies[companyId.value].associates, cedant.value, cessionnaire.value, parts.value)
  {
    if !(NonZero(companyId) && Present(cedant) && Present(cessionnaire) && NonZero(parts)) then (reg, Redirected)
    else if companyId.value !in reg.companies then (reg, CompanyNotFound)
    else
      var id := companyId.value;
      var company := reg.companies[id];
      var cession := Cession(id, cedant.value, cedantAddress, cessionnaire.value, cessionnaireAddress, parts.value);
      var updated := company.(associates := ApplyCession(company.associates, cedant.value, cessionnaire.value, parts.value));
      (Registry(reg.companies[id := updated], reg.cessions + [cession]), Recorded)
  }

  /** A negative part count passes the guard: the cession is recorded but no
      parts move. */
  lemma NegativeCessionMovesNothing(reg: Registry, id: int, cedant: string, cessionnaire: string, parts: int)
    requires id != 0 && id in reg.companies && cedant != "" && cessionnaire != "" && parts < 0
    ensures var (after, outcome) := CreateCession(reg, Some(id), Some(cedant), None, Some(cessionnaire), None, Some(parts));
      && outcome == Recorded
      && |after.cessions| == |reg.cessions| + 1
      && after.companies == reg.companies
  {
    var (after, outcome) := CreateCession(reg, Some(id), Some(cedant), None, Some(cessionnaire), None, Some(parts));
    assert after.companies[id] == reg.companies[id];
  }
}
