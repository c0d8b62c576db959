/** Invoice and quote totals: `InvoiceItem.total_ht`, `InvoiceItem.tva_amount`
    and `Invoice.total_ht/total_tva/total_ttc`, computed on exact decimals.
    Amounts are scaled integers: quantities in thousandths (`Numeric(12, 3)`),
    prices in cents (`Numeric(14, 2)`), VAT rates in ten-thousandths
    (`Numeric(5, 4)`, so 20% is 2000). A line total is therefore in units of
    10^-5, an unrounded VAT amount in units of 10^-9, and a rounded VAT amount
    in cents. */
module Invoicing {
  import opened Wrappers
  import opened Sums

  datatype VatRate = VatRate(code: string, name: string, rate: int)

  /** A document line; quantity and price are nullable, and so is the rate
      reference (an item without a rate bears no VAT). */
  datatype InvoiceItem = InvoiceItem(description: string, quantity: Option<int>, unitPrice: Option<int>, vatRate: Option<VatRate>)

  /** Units of 10^-9 in one cent. */
  const CentUnit: int := 10000000
  /** Units of 10^-5 in one cent. */
  const CentInHt: int := 1000

  /** Rounds `v / unit` to the nearest integer, ties to the even neighbour
      (the behaviour of `round(x, 2)` on the exact value). */
  function RoundHalfEven(v: int, unit: int): (r: int)
    requires unit > 0
    ensures 2 * (r * unit - v) <= unit && 2 * (v - r * unit) <= unit
    ensures (2 * (r * unit - v) == unit || 2 * (v - r * unit) == unit) ==> r % 2 == 0
  {
    var q := v / unit;
    var rem := v % unit;
    if 2 * rem < unit then q
    else if 2 * rem > unit then q + 1
    else if q % 2 == 0 then q
    else q + 1
  }

  /** Rounding never turns a non-negative amount negative. */
  lemma RoundNonNegative(v: int, unit: int)
    requires unit > 0 && v >= 0
    ensures RoundHalfEven(v, unit) >= 0
  {
  }

  /** An amount that is already a whole number of units is left as it is. */
  lemma RoundExact(k: int, unit: int)
    requires unit > 0
    ensures RoundHalfEven(k * unit, unit) == k
  {
    var v := k * unit;
    var q, rem := v / unit, v % unit;
    assert v == q * unit + rem && 0 <= rem < unit;
    assert (k - q) * unit == rem by {
      assert (k - q) * unit == k * unit - q * unit;
    }
    NonZeroMultiple(k - q, unit);
  }

  lemma NonZeroMultiple(x: int, unit: int)
    requires unit > 0
    ensures x == 0 || x * unit >= unit || x * unit <= -unit
  {
    if x >= 1 {
      assert x * unit == (x - 1) * unit + unit;
    } else if x <= -1 {
      assert x * unit == (x + 1) * unit - unit;
    }
  }

  /** `InvoiceItem.total_ht`: quantity times unit price, a missing factor read as 0. */
  function ItemHt(item: InvoiceItem): (r: int)
    ensures item.quantity.None? || item.unitPrice.None? ==> r == 0
    ensures OrZero(item.quantity) >= 0 && OrZero(item.unitPrice) >= 0 ==> r >= 0
  {
    OrZero(item.quantity) * OrZero(item.unitPrice)
  }

  /** The line total times the rate, before rounding, or 0 without a rate. */
  function ItemVatExact(item: InvoiceItem): int {
    match item.vatRate
    case None => 0
    case Some(r) => ItemHt(item) * r.rate
  }

  /** `InvoiceItem.tva_amount`: the item's VAT rounded to the cent. */
  function ItemVat(item: InvoiceItem): (r: int)
    ensures 2 * (r * CentUnit - ItemVatExact(item)) <= CentUnit
    ensures 2 * (ItemVatExact(item) - r * CentUnit) <= CentUnit
    ensures item.vatRate.None? ==> r == 0
  {
    RoundHalfEven(ItemVatExact(item), CentUnit)
  }

  /** An item's tax-inclusive amount, in units of 10^-5. */
  function ItemTtc(item: InvoiceItem): int {
    ItemHt(item) + ItemVat(item) * CentInHt
  }

  /** `Invoice.total_ht`, in units of 10^-5: the items' pre-tax amounts. */
  function TotalHt(items: seq<InvoiceItem>): (r: int)
    ensures items == [] ==> r == 0
    ensures (forall item :: item in items ==> ItemHt(item) >= 0) ==> r >= 0
  {
    SumNonNegative(items, ItemHt);
    Sum(items, ItemHt)
  }

  /** `Invoice.total_tva`: the sum of the rounded item amounts, in cents. It
      is within half a cent per item of the exact VAT of the document. */
  function TotalVat(items: seq<InvoiceItem>): (r: int)
    ensures items == [] ==> r == 0
    ensures 2 * (r * CentUnit - Sum(items, ItemVatExact)) <= |items| * CentUnit
    ensures 2 * (Sum(items, ItemVatExact) - r * CentUnit) <= |items| * CentUnit
  {
    VatRounding(items);
    Sum(items, ItemVat)
  }

  /** Rounding each item to the cent moves the VAT total by at most half a
      cent per item. */
  lemma {:induction false} VatRounding(items: seq<InvoiceItem>)
    ensures 2 * (Sum(items, ItemVat) * CentUnit - Sum(items, ItemVatExact)) <= |items| * CentUnit
    ensures 2 * (Sum(items, ItemVatExact) - Sum(items, ItemVat) * CentUnit) <= |items| * CentUnit
  {
    if |items| > 0 {
      VatRounding(items[1..]);
      assert Sum(items, ItemVat) * CentUnit == ItemVat(items[0]) * CentUnit + Sum(items[1..], ItemVat) * CentUnit;
    }
  }

  /** `Invoice.total_ttc`, in units of 10^-5: HT plus VAT, which is the sum
      of the items' tax-inclusive amounts. */
  function TotalTtc(items: seq<InvoiceItem>): (r: int)
    ensures r == Sum(items, ItemTtc)
  {
    var scaled := (item: InvoiceItem) => ItemVat(item) * CentInHt;
    SumScale(items, ItemVat, CentInHt, scaled);
    SumAdd(items, ItemHt, scaled, ItemTtc);
    TotalHt(items) + TotalVat(items) * CentInHt
  }

  predicate Rated(item: InvoiceItem) { item.vatRate.Some? }

  /** Items without a VAT rate add nothing to the VAT total. */
  lemma UnratedItemsBearNoVat(items: seq<InvoiceItem>)
    ensures TotalVat(items) == TotalVat(Filter(items, Rated))
  {
    SumFilter(items, Rated, ItemVat, ItemVat);
  }

  /** With one rate on every item, the VAT total is the pre-tax total times
      the rate, up to half a cent of rounding per item. */
  lemma {:induction false} UniformRate(items: seq<InvoiceItem>, r: VatRate)
    requires forall item :: item in items ==> item.vatRate == Some(r)
    ensures 2 * (TotalVat(items) * CentUnit - TotalHt(items) * r.rate) <= |items| * CentUnit
    ensures 2 * (TotalHt(items) * r.rate - TotalVat(items) * CentUnit) <= |items| * CentUnit
  {
    ExactVatUniform(items, r);
  }

  /** With one rate on every item, the exact VAT is the pre-tax total times the rate. */
  lemma {:induction false} ExactVatUniform(items: seq<InvoiceItem>, r: VatRate)
    requires forall item :: item in items ==> item.vatRate == Some(r)
    ensures Sum(items, ItemVatExact) == TotalHt(items) * r.rate
  {
    if |items| > 0 {
      var item := items[0];
      assert item in items;
      assert forall x :: x in items[1..] ==> x in items;
      ExactVatUniform(items[1..], r);
      assert ItemVatExact(item) == ItemHt(item) * r.rate;
      assert TotalHt(items) == ItemHt(item) + TotalHt(items[1..]);
      MulDistributes(ItemHt(item), TotalHt(items[1..]), r.rate);
    }
  }

  lemma MulDistributes(a: int, b: int, k: int)
    ensures (a + b) * k == a * k + b * k
  {
  }

  /** Totals are additive over the items, so splitting a document splits its totals. */
  lemma TotalsConcat(a: seq<InvoiceItem>, b: seq<InvoiceItem>)
    ensures TotalHt(a + b) == TotalHt(a) + TotalHt(b)
    ensures TotalVat(a + b) == TotalVat(a) + TotalVat(b)
    ensures TotalTtc(a + b) == TotalTtc(a) + TotalTtc(b)
  {
    SumConcat(a, b, ItemHt);
    SumConcat(a, b, ItemVat);
  }

  /** With non-negative quantities, prices and rates, tax only adds: TTC is at least HT. */
  lemma {:induction false} TtcAtLeastHt(items: seq<InvoiceItem>)
    requires forall item :: item in items ==> OrZero(item.quantity) >= 0 && OrZero(item.unitPrice) >= 0
    requires forall item :: item in items && item.vatRate.Some? ==> item.vatRate.value.rate >= 0
    ensures TotalVat(items) >= 0
    ensures TotalTtc(items) >= TotalHt(items)
  {
    if |items| > 0 {
      var item := items[0];
      assert item in items;
      assert ItemVatExact(item) >= 0;
      RoundNonNegative(ItemVatExact(item), CentUnit);
      TtcAtLeastHt(items[1..]);
    }
  }
}
