/** Bit widths in scripts/sg3-domain.ts: how many bits a value needs, and which encrypted width holds it. */
module WidthDomain {
  import opened Arithmetic
  import opened Outcomes
  import opened Rejection

  /** `w` bits hold the value. */
  predicate Holds(w: nat, value: int) {
    value <= Pow2(w) - 1
  }

  /** `w` is the least width that holds the value. */
  predicate IsRequired(w: nat, value: int) {
    Holds(w, value) && (w > 0 ==> !Holds(w - 1, value))
  }

  lemma {:induction false} RequiredIsLeast(w: nat, value: int, v: nat)
    requires IsRequired(w, value)
    ensures Holds(v, value) <==> w <= v
  {
    if w <= v {
      Pow2Monotone(w, v);
    } else {
      Pow2Monotone(v, w - 1);
    }
  }

  /** The loop of the source ends with the least width. */
  method RequiredBits(value: int) returns (r: Result<nat>)
    ensures r.Ok? <==> 0 <= value
    ensures r.Ok? ==> IsRequired(r.value, value)
  {
    if value < 0 {
      return Err("requiredBits input must be non-negative");
    }
    var bits: nat, maximum := 0, 0;
    while maximum < value
      invariant maximum == Pow2(bits) - 1
      invariant bits > 0 ==> !Holds(bits - 1, value)
      decreases value - maximum
    {
      bits := bits + 1;
      maximum := Pow2(bits) - 1;
    }
    return Ok(bits);
  }

  predicate Supported(w: int) {
    w == 64 || w == 128 || w == 256
  }

  /** The first listed width with enough bits is the least one. */
  method SmallestSupportedWidth(bits: int) returns (r: Result<int>)
    ensures r.Ok? <==> bits <= 256
    ensures r.Ok? ==> Supported(r.value) && bits <= r.value
    ensures r.Ok? ==> forall w :: Supported(w) && bits <= w ==> r.value <= w
  {
    var widths := [64, 128, 256];
    for i := 0 to |widths|
      invariant forall j :: 0 <= j < i ==> widths[j] < bits
    {
      if widths[i] >= bits {
        assert forall w :: Supported(w) ==> w == widths[0] || w == widths[1] || w == widths[2];
        return Ok(widths[i]);
      }
    }
    assert widths[2] < bits;
    return Err("no supported encrypted width");
  }

  /** Composed: the least listed width that holds the value, if any does. */
  method WidthFor(value: int) returns (r: Result<int>)
    requires 0 <= value
    ensures r.Ok? <==> Holds(256, value)
    ensures r.Ok? ==> Supported(r.value) && Holds(r.value, value)
    ensures r.Ok? ==> forall w: nat :: Supported(w) && Holds(w, value) ==> r.value <= w
  {
    var bits := RequiredBits(value);
    r := SmallestSupportedWidth(bits.value);
    RequiredIsLeast(bits.value, value, 64);
    RequiredIsLeast(bits.value, value, 128);
    RequiredIsLeast(bits.value, value, 256);
  }

  /** Larger values never need fewer bits. */
  lemma {:induction false} RequiredIsMonotone(v: nat, x: int, w: nat, y: int)
    requires IsRequired(v, x) && IsRequired(w, y) && x <= y
    ensures v <= w
  {
    RequiredIsLeast(v, x, w);
  }

  /** A product needs at most as many bits as its factors together: widening before multiplying is enough. */
  lemma {:induction false} ProductNeedsSumOfBits(v: nat, x: nat, w: nat, y: nat, b: nat)
    requires IsRequired(v, x) && IsRequired(w, y) && IsRequired(b, x * y)
    ensures b <= v + w
  {
    Pow2Sum(v, w);
    ProductBelow(x, Pow2(v), y, Pow2(w));
    RequiredIsLeast(b, x * y, v + w);
  }

  lemma ProductBelow(x: nat, p: nat, y: nat, q: nat)
    requires x < p && y < q
    ensures x * y < p * q
  {
    Scaled(x, y, q);
    Scaled(q, x, p - 1);
    assert q * (p - 1) == q * p - q;
  }
}
