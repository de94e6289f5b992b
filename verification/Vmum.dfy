/** The multiplication behind the VMUM hash: the portable form with four 32-bit products against the
    128-bit product it stands for. */
module Vmum {
  const B32: nat := 0x1_0000_0000
  const B64: nat := 0x1_0000_0000_0000_0000

  /** A 64-bit unsigned integer. */
  type Word = n: int | 0 <= n < 0x1_0000_0000_0000_0000 witness 0

  /** `_vmum` with 128-bit integers: the sum of the high and the low word of the product. */
  function Mul(v: Word, p: Word): Word {
    Folded(v * p)
  }

  function Folded(x: int): Word {
    (x / B64 + x % B64) % B64
  }

  lemma FoldedIs(x: int, hi: int, lo: int)
    requires x == hi * B64 + lo && 0 <= lo < B64
    ensures Folded(x) == (hi + lo) % B64
  {
    Remainder(hi, lo);
  }

  /** The four partial products: high, the two middle ones, low. */
  function Partial(v: Word, p: Word): (r: (Word, Word, Word, Word))
    ensures v * p == r.0 * B64 + (r.1 + r.2) * B32 + r.3
    ensures r.0 <= (B32 - 1) * (B32 - 1) && r.1 <= (B32 - 1) * (B32 - 1)
    ensures r.2 <= (B32 - 1) * (B32 - 1) && r.3 <= (B32 - 1) * (B32 - 1)
  {
    var hv, hp, lv, lp := v / B32, p / B32, v % B32, p % B32;
    PartialProducts(v, p, hv, hp, lv, lp);
    (hv * hp, hv * lp, hp * lv, lv * lp)
  }

  lemma PartialProducts(v: int, p: int, hv: int, hp: int, lv: int, lp: int)
    requires v == hv * B32 + lv && p == hp * B32 + lp
    requires 0 <= hv < B32 && 0 <= hp < B32 && 0 <= lv < B32 && 0 <= lp < B32
    ensures v * p == hv * hp * B64 + (hv * lp + hp * lv) * B32 + lv * lp
    ensures 0 <= hv * hp <= (B32 - 1) * (B32 - 1) && 0 <= hv * lp <= (B32 - 1) * (B32 - 1)
    ensures 0 <= hp * lv <= (B32 - 1) * (B32 - 1) && 0 <= lv * lp <= (B32 - 1) * (B32 - 1)
  {
    Bounded(hv, hp);
    Bounded(hv, lp);
    Bounded(hp, lv);
    Bounded(lv, lp);
    calc {
      v * p;
      (hv * B32 + lv) * (hp * B32 + lp);
      hv * B32 * (hp * B32) + hv * B32 * lp + lv * (hp * B32) + lv * lp;
      hv * hp * B64 + (hv * lp + hp * lv) * B32 + lv * lp;
    }
  }

  lemma Bounded(a: int, b: int)
    requires 0 <= a < B32 && 0 <= b < B32
    ensures 0 <= a * b <= (B32 - 1) * (B32 - 1)
  {
    Grows(a, B32 - 1, b);
    Grows(b, B32 - 1, B32 - 1);
  }

  lemma Grows(a: int, c: int, b: int)
    requires 0 <= a <= c && 0 <= b
    ensures 0 <= a * b <= c * b
  {
    assert c * b == a * b + (c - a) * b;
  }

  /** The high and the low word as the portable form computes them from the partial products, every
      operation modulo 2^64.  The carries out of the low word are kept only when the hash must not depend on
      the target. */
  function HalvesOf(rh: Word, rm0: Word, rm1: Word, rl: Word, carries: bool): (r: (Word, Word)) {
    var t := (rl + rm0 * B32 % B64) % B64;
    var c0 := if carries && t < rl then 1 else 0;
    var lo := (t + rm1 * B32 % B64) % B64;
    var c1 := if carries && lo < t then 1 else 0;
    ((rh + rm0 / B32 + rm1 / B32 + c0 + c1) % B64, lo)
  }

  /** How many times the low word overflows. */
  function Overflows(rm0: Word, rm1: Word, rl: Word): (n: nat)
    ensures n <= 2
  {
    (rl / B32 + rm0 % B32 + rm1 % B32) / B32
  }

  function Halves(v: Word, p: Word, carries: bool): (r: (Word, Word)) {
    var (rh, rm0, rm1, rl) := Partial(v, p);
    HalvesOf(rh, rm0, rm1, rl, carries)
  }

  function Carries(v: Word, p: Word): (n: nat)
    ensures n <= 2
  {
    var (rh, rm0, rm1, rl) := Partial(v, p);
    Overflows(rm0, rm1, rl)
  }

  /** A 32-bit shift to the left. */
  lemma Shifted(m: Word)
    ensures m * B32 % B64 == m % B32 * B32
    ensures m * B32 == m / B32 * B64 + m % B32 * B32
  {
    var q, r := m / B32, m % B32;
    assert m * B32 == q * B64 + r * B32;
    Remainder(q, r * B32);
  }

  lemma Remainder(q: int, r: int)
    requires 0 <= r < B64
    ensures (q * B64 + r) % B64 == r && (q * B64 + r) / B64 == q
  {
  }

  /** The low word and its overflows. */
  lemma LowWord(rl: Word, a: int, b: int)
    requires 0 <= a < B32 && 0 <= b < B32
    ensures
      var t := (rl + a * B32) % B64;
      var lo := (t + b * B32) % B64;
      var c := (if t < rl then 1 else 0) + if lo < t then 1 else 0;
      rl + a * B32 + b * B32 == c * B64 + lo && c == (rl / B32 + a + b) / B32
  {
  }

  /** What the portable form computes, before the high word is reduced. */
  lemma Assembled(rh: Word, rm0: Word, rm1: Word, rl: Word)
    ensures
      var q := rh + rm0 / B32 + rm1 / B32;
      var c := Overflows(rm0, rm1, rl);
      var (hi, lo) := HalvesOf(rh, rm0, rm1, rl, true);
      && rh * B64 + (rm0 + rm1) * B32 + rl == (q + c) * B64 + lo
      && hi == (q + c) % B64 && HalvesOf(rh, rm0, rm1, rl, false) == (q % B64, lo)
  {
    Shifted(rm0);
    Shifted(rm1);
    LowWord(rl, rm0 % B32, rm1 % B32);
  }

  /** The two words of any product `x` put together from the partial products. */
  lemma Exact(x: int, rh: Word, rm0: Word, rm1: Word, rl: Word)
    requires x == rh * B64 + (rm0 + rm1) * B32 + rl && x < B64 * B64
    ensures var (hi, lo) := HalvesOf(rh, rm0, rm1, rl, true); hi * B64 + lo == x && (hi + lo) % B64 == Folded(x)
  {
    hide HalvesOf, Overflows, Folded;
    Assembled(rh, rm0, rm1, rl);
    Fits(x, rh + rm0 / B32 + rm1 / B32 + Overflows(rm0, rm1, rl), HalvesOf(rh, rm0, rm1, rl, true).1);
  }

  lemma Fits(x: int, hi: int, lo: Word)
    requires 0 <= hi && x == hi * B64 + lo < B64 * B64
    ensures hi < B64 && hi % B64 == hi && Folded(x) == (hi + lo) % B64
  {
    FoldedIs(x, hi, lo);
  }

  lemma Inexact(x: int, rh: Word, rm0: Word, rm1: Word, rl: Word)
    requires x == rh * B64 + (rm0 + rm1) * B32 + rl && x < B64 * B64
    ensures
      var (hi, lo) := HalvesOf(rh, rm0, rm1, rl, false);
      var c := Overflows(rm0, rm1, rl);
      (hi + lo + c) % B64 == Folded(x) && ((hi + lo) % B64 == Folded(x) <==> c == 0)
  {
    hide HalvesOf, Overflows, Folded;
    Exact(x, rh, rm0, rm1, rl);
    Assembled(rh, rm0, rm1, rl);
    Short(rh + rm0 / B32 + rm1 / B32, Overflows(rm0, rm1, rl), HalvesOf(rh, rm0, rm1, rl, true).1);
  }

  lemma ProductFits(v: Word, p: Word)
    ensures 0 <= v * p < B64 * B64
  {
    Grows(v, B64 - 1, p);
    Grows(p, B64 - 1, B64 - 1);
  }

  /** With the carries the two words are the product, whatever the operands, and their sum is the 128-bit
      form. */
  lemma PortableIsMul(v: Word, p: Word)
    ensures var (hi, lo) := Halves(v, p, true); hi * B64 + lo == v * p && (hi + lo) % B64 == Mul(v, p)
  {
    hide Partial, HalvesOf, Overflows, Folded;
    ProductFits(v, p);
    var (rh, rm0, rm1, rl) := Partial(v, p);
    Exact(v * p, rh, rm0, rm1, rl);
  }

  /** Without the carries the sum is short by exactly their number, so that the two forms agree if and only
      if the low word never overflows. */
  lemma WithoutCarries(v: Word, p: Word)
    ensures var (hi, lo) := Halves(v, p, false); (hi + lo + Carries(v, p)) % B64 == Mul(v, p)
    ensures var (hi, lo) := Halves(v, p, false); (hi + lo) % B64 == Mul(v, p) <==> Carries(v, p) == 0
  {
    hide Partial, HalvesOf, Overflows, Folded;
    ProductFits(v, p);
    var (rh, rm0, rm1, rl) := Partial(v, p);
    Inexact(v * p, rh, rm0, rm1, rl);
  }

  lemma Short(q: int, c: int, lo: int)
    requires 0 <= q && 0 <= c <= 2 && 0 <= lo
    ensures (q % B64 + lo + c) % B64 == ((q + c) % B64 + lo) % B64
    ensures (q % B64 + lo) % B64 == ((q + c) % B64 + lo) % B64 <==> c == 0
  {
    Reduced(q, lo + c);
    Reduced(q, lo);
    Reduced(q + c, lo);
    var k, r := (q + lo) / B64, (q + lo) % B64;
    if r + c < B64 { Remainder(k, r + c); } else { Remainder(k + 1, r + c - B64); }
  }

  lemma Reduced(q: int, y: int)
    requires 0 <= q && 0 <= y
    ensures (q % B64 + y) % B64 == (q + y) % B64
  {
    var k, r := (q % B64 + y) / B64, (q % B64 + y) % B64;
    Remainder(q / B64 + k, r);
  }

  /** Two carries do occur. */
  lemma TwoCarries()
    ensures Carries(0x1_ffff_ffff, 0x1_ffff_ffff) == 2
  {
  }

  /** The ways to compile `_vmum`: with 128-bit integers, or without them and with or without the carries. */
  datatype Form = Wide | Portable(carries: bool)

  function MulBy(form: Form, v: Word, p: Word): Word {
    match form
    case Wide => Mul(v, p)
    case Portable(carries) => var (hi, lo) := Halves(v, p, carries); (hi + lo) % B64
  }

  /** With the carries the product does not depend on the target; without them it does exactly if there are some. */
  lemma FormsAgree(v: Word, p: Word)
    ensures MulBy(Portable(true), v, p) == MulBy(Wide, v, p)
    ensures MulBy(Portable(false), v, p) == MulBy(Wide, v, p) <==> Carries(v, p) == 0
  {
    hide Halves, Mul, Carries;
    PortableIsMul(v, p);
    WithoutCarries(v, p);
  }
}
