/** Sums of a per-element quantity over a sequence, the shape shared by every
    total in the model (entry debits and credits, report columns, invoice
    totals, parts held by associates). */
module Sums {

  /** Sum of `f(x)` over the elements `x` of `s`, left to right. */
  function Sum<T>(s: seq<T>, f: T -> int): int {
    if |s| == 0 then 0 else f(s[0]) + Sum(s[1..], f)
  }

  /** Summing a concatenation is adding the sums of its parts. */
  lemma {:induction false} SumConcat<T>(a: seq<T>, b: seq<T>, f: T -> int)
    ensures Sum(a + b, f) == Sum(a, f) + Sum(b, f)
  {
    if |a| == 0 {
      assert a + b == b;
    } else {
      assert (a + b)[1..] == a[1..] + b;
      SumConcat(a[1..], b, f);
    }
  }

  /** A one-element sum is that element's value. */
  lemma SumSingle<T>(x: T, f: T -> int)
    ensures Sum([x], f) == f(x)
  {
    assert [x][1..] == [];
  }

  /** A sequence of one element sums to that element's value. */
  lemma SumSingleton<T>(s: seq<T>, f: T -> int)
    ensures |s| == 1 ==> Sum(s, f) == f(s[0])
  {
    if |s| == 1 {
      assert s == [s[0]];
      SumSingle(s[0], f);
    }
  }

  /** Inserting one element anywhere adds its value. */
  lemma SumInsert<T>(a: seq<T>, x: T, b: seq<T>, f: T -> int)
    ensures Sum(a + [x] + b, f) == Sum(a, f) + f(x) + Sum(b, f)
  {
    SumConcat(a + [x], b, f);
    SumConcat(a, [x], f);
  }

  /** Replacing one element changes the sum by the difference of their values. */
  lemma SumUpdate<T>(s: seq<T>, i: nat, x: T, f: T -> int)
    requires i < |s|
    ensures Sum(s[i := x], f) == Sum(s, f) - f(s[i]) + f(x)
  {
    assert s == s[..i] + [s[i]] + s[i + 1..];
    assert s[i := x] == s[..i] + [x] + s[i + 1..];
    SumInsert(s[..i], s[i], s[i + 1..], f);
    SumInsert(s[..i], x, s[i + 1..], f);
  }

  lemma RemoveFirst<T>(a: seq<T>)
    requires |a| > 0
    ensures multiset(a[1..]) == multiset(a) - multiset{a[0]}
  {
    assert a == [a[0]] + a[1..];
  }

  lemma RemoveAt<T>(b: seq<T>, k: nat)
    requires k < |b|
    ensures multiset(b[..k] + b[k + 1..]) == multiset(b) - multiset{b[k]}
  {
    assert b == b[..k] + [b[k]] + b[k + 1..];
  }

  /** A sum does not depend on the order of the elements. */
  lemma {:induction false} SumPermutation<T>(a: seq<T>, b: seq<T>, f: T -> int)
    requires multiset(a) == multiset(b)
    ensures Sum(a, f) == Sum(b, f)
  {
    if |a| == 0 {
      assert |b| == |multiset(b)| == 0;
    } else {
      var x := a[0];
      assert x in multiset(b);
      var k :| 0 <= k < |b| && b[k] == x;
      assert b == b[..k] + [x] + b[k + 1..];
      RemoveFirst(a);
      RemoveAt(b, k);
      SumPermutation(a[1..], b[..k] + b[k + 1..], f);
      SumConcat(b[..k], b[k + 1..], f);
      SumInsert(b[..k], x, b[k + 1..], f);
    }
  }

  /** Adding two per-element quantities adds their sums. */
  lemma {:induction false} SumAdd<T>(s: seq<T>, f: T -> int, g: T -> int, h: T -> int)
    requires forall x :: x in s ==> h(x) == f(x) + g(x)
    ensures Sum(s, h) == Sum(s, f) + Sum(s, g)
  {
    if |s| > 0 {
      SumAdd(s[1..], f, g, h);
    }
  }

  /** A sum of quantities that agree element-wise is the same sum. */
  lemma {:induction false} SumCongruent<T>(s: seq<T>, f: T -> int, g: T -> int)
    requires forall x :: x in s ==> f(x) == g(x)
    ensures Sum(s, f) == Sum(s, g)
  {
    if |s| > 0 {
      SumCongruent(s[1..], f, g);
    }
  }

  /** Scaling every element scales the sum. */
  lemma {:induction false} SumScale<T>(s: seq<T>, f: T -> int, k: int, g: T -> int)
    requires forall x :: x in s ==> g(x) == k * f(x)
    ensures Sum(s, g) == k * Sum(s, f)
  {
    if |s| > 0 {
      SumScale(s[1..], f, k, g);
    }
  }

  /** A sum of zeros is zero. */
  lemma {:induction false} SumZero<T>(s: seq<T>, f: T -> int)
    requires forall x :: x in s ==> f(x) == 0
    ensures Sum(s, f) == 0
  {
    if |s| > 0 {
      SumZero(s[1..], f);
    }
  }

  /** A sum of non-negative values is non-negative. */
  lemma {:induction false} SumNonNegative<T>(s: seq<T>, f: T -> int)
    ensures (forall x :: x in s ==> f(x) >= 0) ==> Sum(s, f) >= 0
  {
    if |s| > 0 {
      assert forall x :: x in s[1..] ==> x in s;
      SumNonNegative(s[1..], f);
    }
  }

  /** The elements of `s` that satisfy `p`, in their original order. */
  function Filter<T(!new)>(s: seq<T>, p: T -> bool): (r: seq<T>)
    ensures |r| <= |s|
    ensures forall x :: x in r <==> x in s && p(x)
  {
    if |s| == 0 then []
    else if p(s[0]) then [s[0]] + Filter(s[1..], p)
    else Filter(s[1..], p)
  }

  /** Summing over a filter is summing with the rejected elements counted as zero. */
  lemma {:induction false} SumFilter<T(!new)>(s: seq<T>, p: T -> bool, f: T -> int, g: T -> int)
    requires forall x :: x in s ==> g(x) == (if p(x) then f(x) else 0)
    ensures Sum(Filter(s, p), f) == Sum(s, g)
  {
    if |s| > 0 {
      SumFilter(s[1..], p, f, g);
    }
  }
}
