/**
 * The persisted records (RefactorThis.API/Entities) and the wire shapes
 * (RefactorThis.API/Models) of the product service, as values.
 */
module Entities {

  /** 2^128, one more than the largest identifier. */
  const GuidBound: nat := 0x1_0000_0000_0000_0000_0000_0000_0000_0000

  /** The numeric value of a 128-bit identifier. */
  type Bits128 = n: nat | n < GuidBound

  /** A 128-bit globally unique identifier, kept as its numeric value. */
  datatype Guid = Guid(bits: Bits128)

  /**
   * A System.Decimal: `units` scaled down by 10^`scale`. The scale is kept, as
   * the runtime keeps it (10.00 and 10 are different representations), but
   * decimals compare by the number they denote (`SameAmount`).
   */
  datatype Decimal = Decimal(units: int, scale: nat)

  function Pow10(n: nat): (r: nat)
    ensures r >= 1
  {
    if n == 0 then 1 else 10 * Pow10(n - 1)
  }

  /** Decimal equality: both denote the same number, whatever their scales. */
  predicate SameAmount(a: Decimal, b: Decimal) {
    a.units * Pow10(b.scale) == b.units * Pow10(a.scale)
  }

  /** A row of the Product table. */
  datatype Product = Product(
    id: Guid,
    name: string,
    description: string,
    price: Decimal,
    deliveryPrice: Decimal)

  /**
   * Two product rows hold the same values: equal ids and strings, and prices
   * that compare equal as decimals.
   */
  predicate SameValues(p: Product, q: Product) {
    && p.id == q.id && p.name == q.name && p.description == q.description
    && SameAmount(p.price, q.price) && SameAmount(p.deliveryPrice, q.deliveryPrice)
  }

  lemma Pow10Add(a: nat, b: nat)
    ensures Pow10(a + b) == Pow10(a) * Pow10(b)
    decreases a
  {
    if a > 0 {
      Pow10Add(a - 1, b);
    }
  }

  /** Rescaling a decimal (appending zero digits) keeps the number it denotes: 10.00 equals 10. */
  lemma {:induction false} SameAmountRescaled(d: Decimal, k: nat)
    ensures SameAmount(d, Decimal(d.units * Pow10(k), d.scale + k))
  {
    Pow10Add(k, d.scale);
    assert d.units * Pow10(d.scale + k) == d.units * Pow10(k) * Pow10(d.scale);
  }

  /** Decimal equality is symmetric and transitive, so SameAmount is an equivalence. */
  lemma {:induction false} SameAmountEquivalence(a: Decimal, b: Decimal, c: Decimal)
    ensures SameAmount(a, a)
    ensures SameAmount(a, b) ==> SameAmount(b, a)
    ensures SameAmount(a, b) && SameAmount(b, c) ==> SameAmount(a, c)
  {
    if SameAmount(a, b) && SameAmount(b, c) {
      var pa, pb, pc := Pow10(a.scale), Pow10(b.scale), Pow10(c.scale);
      calc {
        a.units * pc * pb;
      ==  (a.units * pb) * pc;
      ==  (b.units * pa) * pc;
      ==  (b.units * pc) * pa;
      ==  (c.units * pb) * pa;
      ==  c.units * pa * pb;
      }
      CancelFactor(a.units * pc, c.units * pa, pb);
    }
  }

  lemma CancelFactor(x: int, y: int, k: int)
    requires k > 0 && x * k == y * k
    ensures x == y
  {
    assert (x - y) * k == 0;
  }

  /** A row of the ProductOption table; `productId` names the owning product. */
  datatype ProductOption = ProductOption(
    id: Guid,
    productId: Guid,
    name: string,
    description: string)

}

module Models {
  import opened Entities

  /** Request body of "create product". */
  datatype ProductForCreationDto = ProductForCreationDto(
    name: string,
    description: string,
    price: Decimal,
    deliveryPrice: Decimal)

  /** Request body of "update product". */
  datatype ProductForUpdateDto = ProductForUpdateDto(
    name: string,
    description: string,
    price: Decimal,
    deliveryPrice: Decimal)

  /** Request body of "create option". */
  datatype ProductOptionForCreationDto = ProductOptionForCreationDto(
    name: string,
    description: string)

  /** Request body of "update option". */
  datatype ProductOptionForUpdateDto = ProductOptionForUpdateDto(
    name: string,
    description: string)

  /** Response shape of a product. */
  datatype ProductDto = ProductDto(
    id: Guid,
    name: string,
    description: string,
    price: Decimal,
    deliveryPrice: Decimal)

  /** Response shape of an option. */
  datatype ProductOptionDto = ProductOptionDto(
    id: Guid,
    productId: Guid,
    name: string,
    description: string)

}
