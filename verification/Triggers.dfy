/**
 The integer conversions between the pad's axes, the wire and the virtual report.
 C++ `uint32_t` arithmetic is written out with its wrap-around.
 */
module Triggers {
  import opened Protocol

  function Wrap32(x: nat): U32 {
    x % 0x1_0000_0000
  }

  /** Widens an SDL trigger (0..32767) to the protocol's 16 bits. */
  function NormalizeTrigger(value: I16): U16 {
    if value <= 0 then 0
    else Wrap32(Wrap32(value * 65535) + 16383) / 32767 % 0x1_0000
  }

  /** Narrows a protocol trigger to the 8 bits of the Xbox 360 report. */
  function QuantizeTrigger(value: U16): U8 {
    Wrap32(Wrap32(value * 255) + 32767) / 65535 % 0x100
  }

  function InvertYAxis(value: I16): I16 {
    if value == -0x8000 then 0x7FFF else -value
  }

  /** `r` is the integer closest to numerator/denominator, strictly: there is no tie. */
  predicate IsNearest(r: int, numerator: int, denominator: int) {
    -denominator < 2 * (r * denominator - numerator) < denominator
  }

  lemma NearestIsUnique(r: int, s: int, numerator: int, denominator: int)
    requires IsNearest(r, numerator, denominator) && IsNearest(s, numerator, denominator)
    ensures r == s
  {
    if r < s {
      AtLeastOneMore(r, s, denominator);
    } else if s < r {
      AtLeastOneMore(s, r, denominator);
    }
  }

  lemma AtLeastOneMore(a: int, b: int, d: int)
    requires a < b && d >= 0
    ensures b * d - a * d >= d
  {
    assert b * d - a * d == (b - a) * d;
    assert (b - a - 1) * d >= 0;
  }

  function Positive(v: int): nat {
    if v > 0 then v else 0
  }

  /** The 32-bit products and sums never wrap and the casts never truncate. */
  lemma NoOverflow(v: I16, n: U16)
    ensures Positive(v) * 65535 + 16383 < 0x1_0000_0000
    ensures n * 255 + 32767 < 0x1_0000_0000
    ensures NormalizeTrigger(v) == (Positive(v) * 65535 + 16383) / 32767
    ensures QuantizeTrigger(n) == (n * 255 + 32767) / 65535
  {
  }

  lemma NormalizeIsNearest(v: I16)
    ensures IsNearest(NormalizeTrigger(v), Positive(v) * 65535, 32767)
  {
    NoOverflow(v, 0);
    var q: int := NormalizeTrigger(v);
    assert q * 32767 <= Positive(v) * 65535 + 16383 < q * 32767 + 32767;
  }

  lemma QuantizeIsNearest(n: U16)
    ensures IsNearest(QuantizeTrigger(n), n * 255, 65535)
  {
    NoOverflow(0, n);
    var q: int := QuantizeTrigger(n);
    assert q * 65535 <= n * 255 + 32767 < q * 65535 + 65535;
  }

  /**
   Rounding twice, 15 to 16 to 8 bits, is as good as rounding once: the byte in the
   virtual report is the one closest to the pad's own value.
   */
  lemma DoubleRoundingIsHarmless(v: I16)
    ensures IsNearest(QuantizeTrigger(NormalizeTrigger(v)), Positive(v) * 255, 32767)
  {
    var p := Positive(v);
    var n: int := NormalizeTrigger(v);
    var q: int := QuantizeTrigger(n);
    NoOverflow(v, n);
    var e := if p >= 16384 then 1 else 0;
    assert n == 2 * p + e;
    assert q * 65535 <= n * 255 + 32767 < q * 65535 + 65535;
    assert 257 * q <= n + 128 < 257 * q + 257;
  }

  lemma NormalizeMonotone(v: I16, w: I16)
    requires v <= w
    ensures NormalizeTrigger(v) <= NormalizeTrigger(w)
  {
    NoOverflow(v, 0);
    NoOverflow(w, 0);
    assert Positive(v) * 65535 + 16383 <= Positive(w) * 65535 + 16383;
  }

  lemma QuantizeMonotone(m: U16, n: U16)
    requires m <= n
    ensures QuantizeTrigger(m) <= QuantizeTrigger(n)
  {
    NoOverflow(0, m);
    NoOverflow(0, n);
    assert m * 255 + 32767 <= n * 255 + 32767;
  }

  /** Larger inputs never give smaller outputs, in either stage and in both together. */
  lemma TriggerMonotone(v: I16, w: I16, m: U16, n: U16)
    requires v <= w && m <= n
    ensures NormalizeTrigger(v) <= NormalizeTrigger(w)
    ensures QuantizeTrigger(m) <= QuantizeTrigger(n)
    ensures QuantizeTrigger(NormalizeTrigger(v)) <= QuantizeTrigger(NormalizeTrigger(w))
  {
    NormalizeMonotone(v, w);
    QuantizeMonotone(m, n);
    QuantizeMonotone(NormalizeTrigger(v), NormalizeTrigger(w));
  }

  lemma TriggerEndpoints(v: I16)
    ensures NormalizeTrigger(v) == 0 <==> v <= 0
    ensures NormalizeTrigger(v) == 65535 <==> v == 32767
    ensures QuantizeTrigger(0) == 0 && QuantizeTrigger(65535) == 255
  {
    NoOverflow(v, 0);
  }

  /** Inverting twice is the identity exactly off the saturated value. */
  lemma InvertTwice(v: I16)
    ensures InvertYAxis(InvertYAxis(v)) == v <==> v != -0x8000
    ensures InvertYAxis(v) + v == 0 || (v == -0x8000 && InvertYAxis(v) == 0x7FFF)
  {
  }
}
