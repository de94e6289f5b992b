/** The parallel comparison of the eight tag bytes of a group, in its three forms: SSE2 and NEON
    by the meaning of the intrinsics on each byte, and the portable form on a 64-bit word.  The
    portable form may also select bytes that do not match; `Selected` says exactly which. */
module Swar {

  datatype Platform = Sse2 | Neon | Portable

  const LSB: bv64 := 0x0101_0101_0101_0101
  const MSB: bv64 := 0x8080_8080_8080_8080
  const EMPTY: nat := 0xc0
  const DELETED: nat := 0x80
  const EMPTY_V0: nat := 0x80

  predicate IsGroup(t: seq<nat>) {
    |t| == 8 && forall k :: 0 <= k < 8 ==> t[k] < 256
  }

  /** `n` with its lowest bit flipped. */
  function Flip(n: nat): nat {
    if n % 2 == 0 then n + 1 else n - 1
  }

  /** What a match mask selects: the bytes equal to `h`, and on the portable path also a byte that
      differs from `h` in bit 0 alone and sits directly above a selected byte. */
  predicate Selected(p: Platform, t: seq<nat>, h: nat, k: nat)
    requires IsGroup(t) && k < 8
  {
    t[k] == h || (p.Portable? && k > 0 && t[k] == Flip(h) && Selected(p, t, h, k - 1))
  }

  /** A selected byte is at most one bit away from `h`, so it is never a tag with its top bit set. */
  lemma SelectedIsOrdinary(p: Platform, t: seq<nat>, h: nat, k: nat)
    requires IsGroup(t) && k < 8 && h < 0x80 && Selected(p, t, h, k)
    ensures t[k] < 0x80
  {
  }

  // ---- Bytes of a word ----

  /** Eight bits as one byte of a word. */
  function Pack(b0: bool, b1: bool, b2: bool, b3: bool, b4: bool, b5: bool, b6: bool, b7: bool): (w: bv64) {
    (if b0 then 1 else 0) | (if b1 then 2 else 0) | (if b2 then 4 else 0) | (if b3 then 8 else 0)
    | (if b4 then 16 else 0) | (if b5 then 32 else 0) | (if b6 then 64 else 0) | (if b7 then 128 else 0)
  }

  function Half(n: nat): nat { n / 2 }

  predicate Odd(n: nat) { n % 2 == 1 }

  /** A byte as a bit vector. */
  function Bits(n: nat): (w: bv64) {
    var n1 := Half(n);
    var n2 := Half(n1);
    var n3 := Half(n2);
    var n4 := Half(n3);
    var n5 := Half(n4);
    var n6 := Half(n5);
    var n7 := Half(n6);
    Pack(Odd(n), Odd(n1), Odd(n2), Odd(n3), Odd(n4), Odd(n5), Odd(n6), Odd(n7))
  }

  function Xor(a: bv64, b: bv64): (r: bv64) { a ^ b }

  /** A byte repeated in every position of a word. */
  function Repeat(w: bv64): (r: bv64) { LSB * w }

  /** The zero-byte test on the whole word. */
  function ZeroBytes(c: bv64): (m: bv64) { (c - LSB) & !c & MSB }

  /** Byte `k` of a word, lowest first. */
  function Byte(w: bv64, k: nat): (b: bv64)
    requires k < 8
  {
    if k == 0 then w & 0xff
    else if k == 1 then (w >> 8) & 0xff
    else if k == 2 then (w >> 16) & 0xff
    else if k == 3 then (w >> 24) & 0xff
    else if k == 4 then (w >> 32) & 0xff
    else if k == 5 then (w >> 40) & 0xff
    else if k == 6 then (w >> 48) & 0xff
    else (w >> 56) & 0xff
  }

  function Meet(a: bv64, b: bv64): (r: bv64) { a & b }

  function Drop(m: bv64, a: bv64): (r: bv64) { m & !a }

  function TopFlag(k: nat): (f: bv64)
    requires k < 8
  {
    if k == 0 then 0x80
    else if k == 1 then 0x8000
    else if k == 2 then 0x80_0000
    else if k == 3 then 0x8000_0000
    else if k == 4 then 0x80_0000_0000
    else if k == 5 then 0x8000_0000_0000
    else if k == 6 then 0x80_0000_0000_0000
    else 0x8000_0000_0000_0000
  }

  function LowFlag(k: nat): (f: bv64)
    requires k < 8
  {
    if k == 0 then 1
    else if k == 1 then 2
    else if k == 2 then 4
    else if k == 3 then 8
    else if k == 4 then 16
    else if k == 5 then 32
    else if k == 6 then 64
    else 128
  }

  /** The top bit of byte `k`. */
  predicate TopBit(w: bv64, k: nat)
    requires k < 8
  {
    Meet(w, TopFlag(k)) != 0
  }

  /** Bit `k` of a gathered mask. */
  predicate LowBit(w: bv64, k: nat)
    requires k < 8
  {
    Meet(w, LowFlag(k)) != 0
  }

  /** The word `g` holds the bytes `t`. */
  predicate Holds(g: bv64, t: seq<nat>)
    requires IsGroup(t)
  {
    forall k :: 0 <= k < 8 ==> Byte(g, k) == Bits(t[k])
  }

  lemma PackDigits(b0: bool, b1: bool, b2: bool, b3: bool, b4: bool, b5: bool, b6: bool, b7: bool, m: bv64)
    requires m == Pack(b0, b1, b2, b3, b4, b5, b6, b7)
    ensures m & !0xff == 0
    ensures (m & 1 != 0 <==> b0) && (m & 2 != 0 <==> b1) && (m & 4 != 0 <==> b2) && (m & 8 != 0 <==> b3)
    ensures (m & 16 != 0 <==> b4) && (m & 32 != 0 <==> b5) && (m & 64 != 0 <==> b6) && (m & 128 != 0 <==> b7)
  {
  }

  lemma PackLower(b0: bool, b1: bool, b2: bool, b3: bool, b4: bool, b5: bool, b6: bool, b7: bool, m: bv64)
    requires m == Pack(b0, b1, b2, b3, b4, b5, b6, b7)
    ensures (LowBit(m, 0) <==> b0) && (LowBit(m, 1) <==> b1) && (LowBit(m, 2) <==> b2) && (LowBit(m, 3) <==> b3)
  {
    hide Pack;
    PackDigits(b0, b1, b2, b3, b4, b5, b6, b7, m);
  }

  lemma PackUpper(b0: bool, b1: bool, b2: bool, b3: bool, b4: bool, b5: bool, b6: bool, b7: bool, m: bv64)
    requires m == Pack(b0, b1, b2, b3, b4, b5, b6, b7)
    ensures (LowBit(m, 4) <==> b4) && (LowBit(m, 5) <==> b5) && (LowBit(m, 6) <==> b6) && (LowBit(m, 7) <==> b7)
  {
    hide Pack;
    PackDigits(b0, b1, b2, b3, b4, b5, b6, b7, m);
  }

  lemma PackClean(b0: bool, b1: bool, b2: bool, b3: bool, b4: bool, b5: bool, b6: bool, b7: bool, m: bv64)
    requires m == Pack(b0, b1, b2, b3, b4, b5, b6, b7)
    ensures Clean(Sse2, m) && Clean(Neon, m)
  {
    hide Pack;
    PackDigits(b0, b1, b2, b3, b4, b5, b6, b7, m);
  }

  lemma PackInjective(b0: bool, b1: bool, b2: bool, b3: bool, b4: bool, b5: bool, b6: bool, b7: bool,
                      c0: bool, c1: bool, c2: bool, c3: bool, c4: bool, c5: bool, c6: bool, c7: bool)
    requires Pack(b0, b1, b2, b3, b4, b5, b6, b7) == Pack(c0, c1, c2, c3, c4, c5, c6, c7)
    ensures b0 == c0 && b1 == c1 && b2 == c2 && b3 == c3 && b4 == c4 && b5 == c5 && b6 == c6 && b7 == c7
  {
    hide Pack, LowBit;
    var m := Pack(b0, b1, b2, b3, b4, b5, b6, b7);
    PackLower(b0, b1, b2, b3, b4, b5, b6, b7, m);
    PackUpper(b0, b1, b2, b3, b4, b5, b6, b7, m);
    PackLower(c0, c1, c2, c3, c4, c5, c6, c7, m);
    PackUpper(c0, c1, c2, c3, c4, c5, c6, c7, m);
  }

  lemma PackFlip(b0: bool, b1: bool, b2: bool, b3: bool, b4: bool, b5: bool, b6: bool, b7: bool)
    ensures Pack(!b0, b1, b2, b3, b4, b5, b6, b7) == Xor(Pack(b0, b1, b2, b3, b4, b5, b6, b7), 1)
  {
    hide Pack, Xor;
    var m := Pack(false, b1, b2, b3, b4, b5, b6, b7);
    PackDigits(false, b1, b2, b3, b4, b5, b6, b7, m);
    PackOne(b1, b2, b3, b4, b5, b6, b7);
    FlipLast(m);
  }

  lemma PackOne(b1: bool, b2: bool, b3: bool, b4: bool, b5: bool, b6: bool, b7: bool)
    ensures Pack(true, b1, b2, b3, b4, b5, b6, b7) == Pack(false, b1, b2, b3, b4, b5, b6, b7) | 1
  {
  }

  lemma FlipLast(m: bv64)
    requires m & 1 == 0
    ensures Xor(m, 1) == m | 1 && Xor(m | 1, 1) == m
  {
  }

  lemma HalfInjective(a: nat, b: nat)
    requires Half(a) == Half(b) && Odd(a) == Odd(b)
    ensures a == b
  {
  }

  lemma BitsInjective(a: nat, b: nat)
    requires a < 256 && b < 256
    ensures Bits(a) == Bits(b) <==> a == b
  {
    hide Pack, Odd;
    if Bits(a) == Bits(b) {
      var a1 := Half(a);
      var a2 := Half(a1);
      var a3 := Half(a2);
      var a4 := Half(a3);
      var a5 := Half(a4);
      var a6 := Half(a5);
      var a7 := Half(a6);
      var b1 := Half(b);
      var b2 := Half(b1);
      var b3 := Half(b2);
      var b4 := Half(b3);
      var b5 := Half(b4);
      var b6 := Half(b5);
      var b7 := Half(b6);
      PackInjective(Odd(a), Odd(a1), Odd(a2), Odd(a3), Odd(a4), Odd(a5), Odd(a6), Odd(a7),
                    Odd(b), Odd(b1), Odd(b2), Odd(b3), Odd(b4), Odd(b5), Odd(b6), Odd(b7));
      assert Half(a7) == 0 == Half(b7);
      HalfInjective(a7, b7);
      HalfInjective(a6, b6);
      HalfInjective(a5, b5);
      HalfInjective(a4, b4);
      HalfInjective(a3, b3);
      HalfInjective(a2, b2);
      HalfInjective(a1, b1);
      HalfInjective(a, b);
    }
  }

  lemma FlipHalves(n: nat)
    ensures Half(Flip(n)) == Half(n) && Odd(Flip(n)) == !Odd(n)
    ensures n < 256 ==> Flip(n) < 256
  {
  }

  lemma BitsFlip(n: nat)
    ensures Bits(Flip(n)) == Xor(Bits(n), 1)
  {
    FlipHalves(n);
    hide Pack, Odd, Half, Flip, Xor;
    var n1 := Half(n);
    var n2 := Half(n1);
    var n3 := Half(n2);
    var n4 := Half(n3);
    var n5 := Half(n4);
    var n6 := Half(n5);
    var n7 := Half(n6);
    PackFlip(Odd(n), Odd(n1), Odd(n2), Odd(n3), Odd(n4), Odd(n5), Odd(n6), Odd(n7));
  }

  // ---- The borrow argument ----

  /** A byte is flagged exactly when its difference is zero, or is one and the byte below is flagged. */
  lemma Borrow(c: bv64, m: bv64, k: nat)
    requires k < 8 && m == ZeroBytes(c)
    ensures TopBit(m, k) <==> Byte(c, k) == 0 || (Byte(c, k) == 1 && k > 0 && TopBit(m, k - 1))
  {
    if
    case k == 0 => case k == 1 => case k == 2 => case k == 3 =>
    case k == 4 => case k == 5 => case k == 6 => case k == 7 =>
  }

  /** Multiplying a byte by 0x01...01 repeats it. */
  lemma RepeatByte(w: bv64, k: nat)
    requires k < 8 && w & !0xff == 0
    ensures Byte(Repeat(w), k) == w
  {
    if
    case k == 0 => case k == 1 => case k == 2 => case k == 3 =>
    case k == 4 => case k == 5 => case k == 6 => case k == 7 =>
  }

  lemma XorByte(g: bv64, r: bv64, k: nat)
    requires k < 8
    ensures Byte(Xor(g, r), k) == Xor(Byte(g, k), Byte(r, k))
  {
    if
    case k == 0 => case k == 1 => case k == 2 => case k == 3 =>
    case k == 4 => case k == 5 => case k == 6 => case k == 7 =>
  }

  lemma XorCancel(a: bv64, b: bv64)
    ensures Xor(Xor(a, b), b) == a && Xor(a, b) == Xor(b, a)
  {
  }

  lemma Difference(a: bv64, b: bv64, d: bv64)
    ensures Xor(a, b) == d <==> a == Xor(b, d)
  {
    hide Xor;
    XorCancel(a, b);
    XorCancel(b, d);
    XorCancel(d, b);
  }

  lemma XorZero(a: bv64)
    ensures Xor(a, 0) == a
  {
  }

  /** The difference of two bytes is zero when they are equal, one when they differ in bit 0 alone. */
  lemma BitsDifference(a: nat, h: nat, d: bv64)
    requires a < 256 && h < 256 && d == Xor(Bits(a), Bits(h))
    ensures d == 0 <==> a == h
    ensures d == 1 <==> a == Flip(h)
  {
    hide Bits, Flip, Xor;
    assert Xor(Bits(h), 0) == Bits(h) by { XorZero(Bits(h)); }
    FlipHalves(h);
    BitsFlip(h);
    BitsInjective(a, h);
    BitsInjective(a, Flip(h));
    Difference(Bits(a), Bits(h), 0);
    Difference(Bits(a), Bits(h), 1);
  }

  lemma DifferenceByte(g: bv64, r: bv64, k: nat, a: nat, h: nat)
    requires k < 8 && a < 256 && h < 256
    requires Byte(g, k) == Bits(a) && Byte(r, k) == Bits(h)
    ensures Byte(Xor(g, r), k) == 0 <==> a == h
    ensures Byte(Xor(g, r), k) == 1 <==> a == Flip(h)
  {
    hide Byte, Bits, Flip, Xor;
    XorByte(g, r, k);
    BitsDifference(a, h, Byte(Xor(g, r), k));
  }

  lemma BitsSmall(n: nat)
    ensures Bits(n) & !0xff == 0
  {
    hide Odd, Half, Pack;
    var n1 := Half(n);
    var n2 := Half(n1);
    var n3 := Half(n2);
    var n4 := Half(n3);
    var n5 := Half(n4);
    var n6 := Half(n5);
    var n7 := Half(n6);
    PackDigits(Odd(n), Odd(n1), Odd(n2), Odd(n3), Odd(n4), Odd(n5), Odd(n6), Odd(n7), Bits(n));
  }

  lemma RepeatedBits(h: nat, k: nat)
    requires k < 8
    ensures Byte(Repeat(Bits(h)), k) == Bits(h)
  {
    hide Byte, Bits, Repeat;
    BitsSmall(h);
    RepeatByte(Bits(h), k);
  }

  /** The portable mask reads the group from the bottom up. */
  lemma {:induction false} PortableSelects(t: seq<nat>, h: nat, g: bv64, r: bv64, c: bv64, m: bv64, k: nat)
    requires IsGroup(t) && h < 256 && k < 8 && Holds(g, t)
    requires r == Repeat(Bits(h)) && c == Xor(g, r) && m == ZeroBytes(c)
    ensures TopBit(m, k) <==> Selected(Portable, t, h, k)
  {
    hide TopBit, Byte, Bits, Flip, Xor, Repeat, ZeroBytes;
    RepeatedBits(h, k);
    DifferenceByte(g, r, k, t[k], h);
    Borrow(c, m, k);
    if k > 0 { PortableSelects(t, h, g, r, c, m, k - 1); }
  }

  // ---- Masks and the bytes they stand for ----

  /** Byte `k` is marked in the mask `m`: its top bit on the portable path, bit `k` otherwise. */
  predicate Marks(p: Platform, m: bv64, k: nat)
    requires k < 8
  {
    if p.Portable? then TopBit(m, k) else LowBit(m, k)
  }

  /** Only bits that stand for a byte are set. */
  predicate Clean(p: Platform, m: bv64) {
    if p.Portable? then m & !MSB == 0 else m & !0xff == 0
  }

  function Shift(m: bv64): (r: bv64) { m >> 1 }

  predicate LastBit(m: bv64) { m & 1 == 1 }

  /** Count of trailing zeros. */
  function Ctz(m: bv64): (n: nat)
    requires m != 0
    decreases m
  {
    if LastBit(m) then 0 else ShiftSmaller(m); 1 + Ctz(Shift(m))
  }

  lemma ShiftSmaller(m: bv64)
    requires m != 0
    ensures Shift(m) < m
    ensures !LastBit(m) ==> Shift(m) != 0
  {
  }

  /** The byte that the lowest set bit stands for. */
  function Lowest(p: Platform, m: bv64): (k: nat)
    requires m != 0
  {
    if p.Portable? then Ctz(m) / 8 else Ctz(m)
  }

  /** `m & (m - 1)`. */
  function ClearLowest(m: bv64): (r: bv64) { m & (m - 1) }

  lemma ShiftLow(m: bv64, j: nat)
    requires j < 7 && m & !0xff == 0
    ensures LowBit(Shift(m), j) <==> LowBit(m, j + 1)
    ensures Shift(m) & !0xff == 0
  {
    if
    case j == 0 => case j == 1 => case j == 2 => case j == 3 =>
    case j == 4 => case j == 5 => case j == 6 =>
  }

  lemma {:induction false} CtzLow(m: bv64, k: nat)
    requires k < 8 && m & !0xff == 0 && LowBit(m, k)
    requires forall j :: 0 <= j < k ==> !LowBit(m, j)
    ensures m != 0 && Ctz(m) == k
  {
    LowNonZero(m, k);
    if k > 0 {
      assert !LowBit(m, 0);
      hide LowBit, Shift;
      forall j | 0 <= j < 7 ensures LowBit(Shift(m), j) <==> LowBit(m, j + 1) { ShiftLow(m, j); }
      ShiftLow(m, 0);
      CtzLow(Shift(m), k - 1);
    }
  }

  lemma LowNonZero(m: bv64, k: nat)
    requires k < 8 && LowBit(m, k)
    ensures m != 0
    ensures LastBit(m) <==> LowBit(m, 0)
  {
    if
    case k == 0 => case k == 1 => case k == 2 => case k == 3 =>
    case k == 4 => case k == 5 => case k == 6 => case k == 7 =>
  }

  function ShiftByte(m: bv64): (r: bv64) { m >> 8 }

  predicate LastByte(m: bv64, b: bv64) { m & 0xff == b }

  lemma ShiftTop(m: bv64, j: nat)
    requires j < 7 && m & !MSB == 0
    ensures TopBit(ShiftByte(m), j) <==> TopBit(m, j + 1)
    ensures ShiftByte(m) & !MSB == 0
  {
    if
    case j == 0 => case j == 1 => case j == 2 => case j == 3 =>
    case j == 4 => case j == 5 => case j == 6 =>
  }

  lemma TopNonZero(m: bv64, k: nat)
    requires k < 8 && m & !MSB == 0 && TopBit(m, k)
    ensures m != 0
    ensures LastByte(m, if TopBit(m, 0) then 0x80 else 0)
  {
    if
    case k == 0 => case k == 1 => case k == 2 => case k == 3 =>
    case k == 4 => case k == 5 => case k == 6 => case k == 7 =>
  }

  /** Seven shifts of a word whose low byte is 0 or 0x80 meet no set bit. */
  lemma SevenShifts(m: bv64)
    requires LastByte(m, 0) || LastByte(m, 0x80)
    requires m != 0
    ensures m >> 7 != 0
    ensures Ctz(m) == 7 + Ctz(m >> 7)
  {
    var m1, m2, m3, m4, m5, m6, m7 := m >> 1, m >> 2, m >> 3, m >> 4, m >> 5, m >> 6, m >> 7;
    ShiftFacts(m);
    hide Shift, LastBit, LastByte;
    assert Ctz(m6) == 1 + Ctz(m7);
    assert Ctz(m5) == 1 + Ctz(m6);
    assert Ctz(m4) == 1 + Ctz(m5);
    assert Ctz(m3) == 1 + Ctz(m4);
    assert Ctz(m2) == 1 + Ctz(m3);
    assert Ctz(m1) == 1 + Ctz(m2);
    assert Ctz(m) == 1 + Ctz(m1);
  }

  lemma ShiftFacts(m: bv64)
    requires LastByte(m, 0) || LastByte(m, 0x80)
    requires m != 0
    ensures m >> 1 != 0 && m >> 2 != 0 && m >> 3 != 0 && m >> 4 != 0 && m >> 5 != 0 && m >> 6 != 0 && m >> 7 != 0
    ensures Shift(m) == m >> 1 && Shift(m >> 1) == m >> 2 && Shift(m >> 2) == m >> 3 && Shift(m >> 3) == m >> 4
    ensures Shift(m >> 4) == m >> 5 && Shift(m >> 5) == m >> 6 && Shift(m >> 6) == m >> 7
    ensures !LastBit(m) && !LastBit(m >> 1) && !LastBit(m >> 2) && !LastBit(m >> 3)
    ensures !LastBit(m >> 4) && !LastBit(m >> 5) && !LastBit(m >> 6)
  {
  }

  lemma EighthShift(m: bv64)
    requires m != 0 && (LastByte(m, 0) || LastByte(m, 0x80))
    ensures LastByte(m, 0x80) ==> LastBit(m >> 7)
    ensures LastByte(m, 0) ==> !LastBit(m >> 7) && Shift(m >> 7) == ShiftByte(m) && ShiftByte(m) != 0
  {
  }

  lemma {:induction false} CtzTop(m: bv64, k: nat)
    requires k < 8 && m & !MSB == 0 && TopBit(m, k)
    requires forall j :: 0 <= j < k ==> !TopBit(m, j)
    ensures m != 0 && Ctz(m) == 8 * k + 7
  {
    TopNonZero(m, k);
    SevenShifts(m);
    EighthShift(m);
    hide TopBit, LastByte, LastBit, Shift, ShiftByte;
    if k > 0 {
      forall j | 0 <= j < 7 ensures TopBit(ShiftByte(m), j) <==> TopBit(m, j + 1) { ShiftTop(m, j); }
      ShiftTop(m, 0);
      CtzTop(ShiftByte(m), k - 1);
    }
  }

  lemma ClearIsWithoutTop(m: bv64, k: nat)
    requires k < 8 && m & !MSB == 0 && TopBit(m, k)
    requires forall j :: 0 <= j < k ==> !TopBit(m, j)
    ensures ClearLowest(m) == Drop(m, TopFlag(k))
    ensures ClearLowest(m) & !MSB == 0
  {
    assert k > 0 ==> !TopBit(m, 0);
    assert k > 1 ==> !TopBit(m, 1);
    assert k > 2 ==> !TopBit(m, 2);
    assert k > 3 ==> !TopBit(m, 3);
    assert k > 4 ==> !TopBit(m, 4);
    assert k > 5 ==> !TopBit(m, 5);
    assert k > 6 ==> !TopBit(m, 6);
  }

  lemma ClearIsWithoutLow(m: bv64, k: nat)
    requires k < 8 && m & !0xff == 0 && LowBit(m, k)
    requires forall j :: 0 <= j < k ==> !LowBit(m, j)
    ensures ClearLowest(m) == Drop(m, LowFlag(k))
    ensures ClearLowest(m) & !0xff == 0
  {
    assert k > 0 ==> !LowBit(m, 0);
    assert k > 1 ==> !LowBit(m, 1);
    assert k > 2 ==> !LowBit(m, 2);
    assert k > 3 ==> !LowBit(m, 3);
    assert k > 4 ==> !LowBit(m, 4);
    assert k > 5 ==> !LowBit(m, 5);
    assert k > 6 ==> !LowBit(m, 6);
  }

  lemma FlagsDisjoint(k: nat, j: nat)
    requires k < 8 && j < 8
    ensures k != j ==> Meet(TopFlag(k), TopFlag(j)) == 0 && Meet(LowFlag(k), LowFlag(j)) == 0
  {
  }

  lemma MaskOut(m: bv64, a: bv64, b: bv64)
    ensures Meet(a, b) == 0 ==> Meet(Drop(m, a), b) == Meet(m, b)
    ensures Meet(Drop(m, a), a) == 0
  {
  }

  lemma WithoutTop(m: bv64, k: nat, j: nat)
    requires k < 8 && j < 8
    ensures TopBit(Drop(m, TopFlag(k)), j) <==> TopBit(m, j) && j != k
  {
    hide TopFlag, Meet, Drop;
    FlagsDisjoint(k, j);
    MaskOut(m, TopFlag(k), TopFlag(j));
  }

  lemma WithoutLow(m: bv64, k: nat, j: nat)
    requires k < 8 && j < 8
    ensures LowBit(Drop(m, LowFlag(k)), j) <==> LowBit(m, j) && j != k
  {
    hide LowFlag, Meet, Drop;
    FlagsDisjoint(k, j);
    MaskOut(m, LowFlag(k), LowFlag(j));
  }

  /** A mask is zero when it marks no byte. */
  lemma ZeroMask(p: Platform, m: bv64)
    requires Clean(p, m)
    ensures m == 0 <==> forall k :: 0 <= k < 8 ==> !Marks(p, m, k)
  {
    if forall k :: 0 <= k < 8 ==> !Marks(p, m, k) {
      assert !Marks(p, m, 0) && !Marks(p, m, 1) && !Marks(p, m, 2) && !Marks(p, m, 3);
      assert !Marks(p, m, 4) && !Marks(p, m, 5) && !Marks(p, m, 6) && !Marks(p, m, 7);
    }
  }

  // ---- The group searches ----

  /** `iht_group_load`: the eight tag bytes as one little-endian word. */
  function Load(t: seq<nat>): (g: bv64)
    requires IsGroup(t)
  {
    Bits(t[0]) | (Bits(t[1]) << 8) | (Bits(t[2]) << 16) | (Bits(t[3]) << 24)
    | (Bits(t[4]) << 32) | (Bits(t[5]) << 40) | (Bits(t[6]) << 48) | (Bits(t[7]) << 56)
  }

  lemma JoinBytes(a0: bv64, a1: bv64, a2: bv64, a3: bv64, a4: bv64, a5: bv64, a6: bv64, a7: bv64, g: bv64)
    requires a0 & !0xff == 0 && a1 & !0xff == 0 && a2 & !0xff == 0 && a3 & !0xff == 0
    requires a4 & !0xff == 0 && a5 & !0xff == 0 && a6 & !0xff == 0 && a7 & !0xff == 0
    requires g == a0 | (a1 << 8) | (a2 << 16) | (a3 << 24) | (a4 << 32) | (a5 << 40) | (a6 << 48) | (a7 << 56)
    ensures Byte(g, 0) == a0 && Byte(g, 1) == a1 && Byte(g, 2) == a2 && Byte(g, 3) == a3
    ensures Byte(g, 4) == a4 && Byte(g, 5) == a5 && Byte(g, 6) == a6 && Byte(g, 7) == a7
  {
  }

  lemma LoadHolds(t: seq<nat>)
    requires IsGroup(t)
    ensures Holds(Load(t), t)
  {
    hide Bits, Byte;
    BitsSmall(t[0]);
    BitsSmall(t[1]);
    BitsSmall(t[2]);
    BitsSmall(t[3]);
    BitsSmall(t[4]);
    BitsSmall(t[5]);
    BitsSmall(t[6]);
    BitsSmall(t[7]);
    JoinBytes(Bits(t[0]), Bits(t[1]), Bits(t[2]), Bits(t[3]), Bits(t[4]), Bits(t[5]), Bits(t[6]), Bits(t[7]), Load(t));
  }

  /** Eight flags, one bit each: what `movemask` and the NEON horizontal sum produce. */
  function Gather(f: seq<bool>): (m: bv64)
    requires |f| == 8
  {
    Pack(f[0], f[1], f[2], f[3], f[4], f[5], f[6], f[7])
  }

  lemma GatherMarks(p: Platform, f: seq<bool>, k: nat)
    requires |f| == 8 && k < 8 && !p.Portable?
    ensures Marks(p, Gather(f), k) <==> f[k]
  {
    hide Pack, LowBit;
    if k < 4 {
      PackLower(f[0], f[1], f[2], f[3], f[4], f[5], f[6], f[7], Gather(f));
    } else {
      PackUpper(f[0], f[1], f[2], f[3], f[4], f[5], f[6], f[7], Gather(f));
    }
  }

  lemma GatherClean(p: Platform, f: seq<bool>)
    requires |f| == 8 && !p.Portable?
    ensures Clean(p, Gather(f))
  {
    hide Pack, Clean;
    PackClean(f[0], f[1], f[2], f[3], f[4], f[5], f[6], f[7], Gather(f));
  }

  /** The bytes of `g` equal to `b`, gathered into one bit each. */
  function EqualMask(g: bv64, b: bv64): (m: bv64) {
    Gather(seq(8, k requires 0 <= k < 8 => Byte(g, k) == b))
  }

  /** The top bits of the bytes of `g`, gathered into one bit each. */
  function TopMask(g: bv64): (m: bv64) {
    Gather(seq(8, k requires 0 <= k < 8 => TopBit(g, k)))
  }

  /** `iht_match_mask`. */
  function MatchMask(p: Platform, g: bv64, h: nat): (m: bv64) {
    if p.Portable? then ZeroBytes(Xor(g, Repeat(Bits(h)))) else EqualMask(g, Bits(h))
  }

  /** `g & (g << 1)`: its top bits mark the bytes with both top bits set. */
  function BothTop(g: bv64): (w: bv64) { g & (g << 1) }

  /** `iht_match_empty`. */
  function MatchEmpty(p: Platform, g: bv64): (m: bv64) {
    match p
    case Sse2 => TopMask(BothTop(g))
    case Neon => EqualMask(g, Bits(EMPTY))
    case Portable => Meet(Meet(g, MSB), g << 1)
  }

  /** `iht_match_empty` of the earlier layout, where EMPTY is 0x80 and every other tag is below it. */
  function MatchEmptyV0(p: Platform, g: bv64): (m: bv64) {
    match p
    case Sse2 => TopMask(Meet(g, MSB))
    case Neon => EqualMask(g, Bits(EMPTY_V0))
    case Portable => Meet(g, MSB)
  }

  lemma EqualMarks(p: Platform, t: seq<nat>, g: bv64, h: nat, k: nat)
    requires IsGroup(t) && Holds(g, t) && h < 256 && k < 8 && !p.Portable?
    ensures Marks(p, EqualMask(g, Bits(h)), k) <==> t[k] == h
    ensures Clean(p, EqualMask(g, Bits(h)))
  {
    hide Gather, Byte, Bits, LowBit, Clean;
    var b := Bits(h);
    GatherMarks(p, seq(8, k requires 0 <= k < 8 => Byte(g, k) == b), k);
    GatherClean(p, seq(8, k requires 0 <= k < 8 => Byte(g, k) == b));
    BitsInjective(t[k], h);
  }

  lemma TopMarks(p: Platform, g: bv64, k: nat)
    requires k < 8 && !p.Portable?
    ensures Marks(p, TopMask(g), k) <==> TopBit(g, k)
    ensures Clean(p, TopMask(g))
  {
    hide Gather, TopBit, LowBit, Clean;
    GatherMarks(p, seq(8, k requires 0 <= k < 8 => TopBit(g, k)), k);
    GatherClean(p, seq(8, k requires 0 <= k < 8 => TopBit(g, k)));
  }

  /** The match mask selects, on every platform, exactly the bytes `Selected` describes. */
  lemma MatchMaskSelects(p: Platform, t: seq<nat>, h: nat)
    requires IsGroup(t) && h < 256
    ensures Clean(p, MatchMask(p, Load(t), h))
    ensures forall k :: 0 <= k < 8 ==> (Marks(p, MatchMask(p, Load(t), h), k) <==> Selected(p, t, h, k))
  {
    hide Load, Bits, TopBit, LowBit, Byte, Xor, Repeat, ZeroBytes, EqualMask, Clean;
    LoadHolds(t);
    var g := Load(t);
    var r := Repeat(Bits(h));
    ZeroBytesClean(Xor(g, r));
    if p.Portable? {
      forall k | 0 <= k < 8 ensures Marks(p, MatchMask(p, g, h), k) <==> Selected(p, t, h, k) {
        PortableSelects(t, h, g, r, Xor(g, r), ZeroBytes(Xor(g, r)), k);
      }
    } else {
      EqualMarks(p, t, g, h, 0);
      forall k | 0 <= k < 8 ensures Marks(p, MatchMask(p, g, h), k) <==> Selected(p, t, h, k) {
        EqualMarks(p, t, g, h, k);
      }
    }
  }

  lemma ZeroBytesClean(c: bv64)
    ensures Clean(Portable, ZeroBytes(c))
  {
  }

  /** Tags that occur in a table: seven-bit fingerprints, DELETED and EMPTY. */
  predicate IsTag(b: nat) {
    b < 0x80 || b == DELETED || b == EMPTY
  }

  lemma BothTopBit(g: bv64, k: nat)
    requires k < 8
    ensures TopBit(BothTop(g), k) <==> Byte(g, k) & 0xc0 == 0xc0
  {
    if
    case k == 0 => case k == 1 => case k == 2 => case k == 3 =>
    case k == 4 => case k == 5 => case k == 6 => case k == 7 =>
  }

  lemma TopBitOfByte(g: bv64, k: nat)
    requires k < 8
    ensures TopBit(Meet(g, MSB), k) <==> Byte(g, k) & 0x80 == 0x80
  {
    if
    case k == 0 => case k == 1 => case k == 2 => case k == 3 =>
    case k == 4 => case k == 5 => case k == 6 => case k == 7 =>
  }

  /** The top digits of a byte. */
  lemma TopDigits(n: nat)
    requires n < 256
    ensures Odd(Half(Half(Half(Half(Half(Half(Half(n)))))))) <==> n >= 128
    ensures n >= 192 <==> n >= 128 && Odd(Half(Half(Half(Half(Half(Half(n)))))))
  {
  }

  lemma PackTop(b0: bool, b1: bool, b2: bool, b3: bool, b4: bool, b5: bool, b6: bool, b7: bool)
    ensures Pack(b0, b1, b2, b3, b4, b5, b6, b7) & 0x80 == 0x80 <==> b7
    ensures Pack(b0, b1, b2, b3, b4, b5, b6, b7) & 0xc0 == 0xc0 <==> b7 && b6
  {
  }

  lemma BitsTop(n: nat)
    requires n < 256
    ensures Bits(n) & 0x80 == 0x80 <==> n >= 128
    ensures Bits(n) & 0xc0 == 0xc0 <==> n >= 192
  {
    hide Odd, Pack;
    TopDigits(n);
    var n1 := Half(n);
    var n2 := Half(n1);
    var n3 := Half(n2);
    var n4 := Half(n3);
    var n5 := Half(n4);
    var n6 := Half(n5);
    var n7 := Half(n6);
    PackTop(Odd(n), Odd(n1), Odd(n2), Odd(n3), Odd(n4), Odd(n5), Odd(n6), Odd(n7));
  }

  lemma PortableEmpty(g: bv64, m: bv64, k: nat)
    requires k < 8 && m == Meet(Meet(g, MSB), g << 1)
    ensures TopBit(m, k) <==> TopBit(BothTop(g), k)
    ensures Clean(Portable, m)
  {
    if
    case k == 0 => case k == 1 => case k == 2 => case k == 3 =>
    case k == 4 => case k == 5 => case k == 6 => case k == 7 =>
  }

  lemma EmptyMark(p: Platform, t: seq<nat>, g: bv64, k: nat)
    requires IsGroup(t) && Holds(g, t) && k < 8 && IsTag(t[k])
    ensures Marks(p, MatchEmpty(p, g), k) <==> t[k] == EMPTY
    ensures Clean(p, MatchEmpty(p, g))
  {
    hide TopBit, LowBit, Byte, Bits, BothTop, EqualMask, TopMask, Meet, Clean;
    BothTopBit(g, k);
    BitsTop(t[k]);
    match p
    case Neon => EqualMarks(p, t, g, EMPTY, k);
    case Sse2 => TopMarks(p, BothTop(g), k);
    case Portable => PortableEmpty(g, MatchEmpty(p, g), k);
  }

  /** The search for an empty slot is exact on all three platforms. */
  lemma MatchEmptyExact(p: Platform, t: seq<nat>)
    requires IsGroup(t) && forall k :: 0 <= k < 8 ==> IsTag(t[k])
    ensures Clean(p, MatchEmpty(p, Load(t)))
    ensures forall k :: 0 <= k < 8 ==> (Marks(p, MatchEmpty(p, Load(t)), k) <==> t[k] == EMPTY)
  {
    hide Load, MatchEmpty, Clean, Marks;
    LoadHolds(t);
    EmptyMark(p, t, Load(t), 0);
    forall k | 0 <= k < 8 ensures Marks(p, MatchEmpty(p, Load(t)), k) <==> t[k] == EMPTY {
      EmptyMark(p, t, Load(t), k);
    }
  }

  lemma MeetMsbClean(g: bv64)
    ensures Clean(Portable, Meet(g, MSB))
  {
  }

  lemma EmptyMarkV0(p: Platform, t: seq<nat>, g: bv64, k: nat)
    requires IsGroup(t) && Holds(g, t) && k < 8 && t[k] <= EMPTY_V0
    ensures Marks(p, MatchEmptyV0(p, g), k) <==> t[k] == EMPTY_V0
    ensures Clean(p, MatchEmptyV0(p, g))
  {
    hide TopBit, LowBit, Byte, Bits, EqualMask, TopMask, Meet, Clean;
    TopBitOfByte(g, k);
    BitsTop(t[k]);
    match p
    case Neon => EqualMarks(p, t, g, EMPTY_V0, k);
    case Sse2 => TopMarks(p, Meet(g, MSB), k);
    case Portable => MeetMsbClean(g);
  }

  lemma MatchEmptyV0Exact(p: Platform, t: seq<nat>)
    requires IsGroup(t) && forall k :: 0 <= k < 8 ==> t[k] <= EMPTY_V0
    ensures Clean(p, MatchEmptyV0(p, Load(t)))
    ensures forall k :: 0 <= k < 8 ==> (Marks(p, MatchEmptyV0(p, Load(t)), k) <==> t[k] == EMPTY_V0)
  {
    hide Load, MatchEmptyV0, Clean, Marks;
    LoadHolds(t);
    EmptyMarkV0(p, t, Load(t), 0);
    forall k | 0 <= k < 8 ensures Marks(p, MatchEmptyV0(p, Load(t)), k) <==> t[k] == EMPTY_V0 {
      EmptyMarkV0(p, t, Load(t), k);
    }
  }

  // ---- Walking the set bits of a mask ----

  lemma LowestMark(p: Platform, m: bv64, k: nat)
    requires k < 8 && Clean(p, m) && Marks(p, m, k)
    requires forall j :: 0 <= j < k ==> !Marks(p, m, j)
    ensures m != 0 && Lowest(p, m) == k
  {
    hide TopBit, LowBit, Ctz;
    assert forall j :: 0 <= j < k ==> Marks(p, m, j) == if p.Portable? then TopBit(m, j) else LowBit(m, j);
    if p.Portable? { CtzTop(m, k); } else { CtzLow(m, k); }
  }

  lemma ClearMarks(p: Platform, m: bv64, k: nat)
    requires k < 8 && Clean(p, m) && Marks(p, m, k)
    requires forall j :: 0 <= j < k ==> !Marks(p, m, j)
    ensures Clean(p, ClearLowest(m))
    ensures forall j :: 0 <= j < 8 ==> (Marks(p, ClearLowest(m), j) <==> Marks(p, m, j) && j != k)
  {
    hide TopBit, LowBit, TopFlag, LowFlag, ClearLowest, Drop;
    assert forall j :: 0 <= j < k ==> Marks(p, m, j) == if p.Portable? then TopBit(m, j) else LowBit(m, j);
    if p.Portable? { ClearIsWithoutTop(m, k); } else { ClearIsWithoutLow(m, k); }
    forall j | 0 <= j < 8 ensures Marks(p, ClearLowest(m), j) <==> Marks(p, m, j) && j != k {
      if p.Portable? { WithoutTop(m, k, j); } else { WithoutLow(m, k, j); }
    }
  }

  /** The first marked byte of a mask, or 8 when the mask is zero. */
  ghost function FirstMark(p: Platform, m: bv64, from: nat): (k: nat)
    requires from <= 8
    ensures from <= k <= 8
    ensures k < 8 ==> Marks(p, m, k)
    ensures forall j :: from <= j < k ==> !Marks(p, m, j)
    decreases 8 - from
  {
    if from == 8 || Marks(p, m, from) then from else FirstMark(p, m, from + 1)
  }

  /** Taking the lowest set bit of a mask and clearing it. */
  method TakeLowest(p: Platform, m: bv64) returns (k: nat, r: bv64)
    requires m != 0 && Clean(p, m)
    ensures k < 8 && Marks(p, m, k) && forall j :: 0 <= j < k ==> !Marks(p, m, j)
    ensures Clean(p, r)
    ensures forall j :: 0 <= j < 8 ==> (Marks(p, r, j) <==> Marks(p, m, j) && j != k)
  {
    hide Marks, Clean, Lowest, ClearLowest;
    k := Lowest(p, m);
    r := ClearLowest(m);
    ZeroMask(p, m);
    ghost var f := FirstMark(p, m, 0);
    LowestMark(p, m, f);
    ClearMarks(p, m, f);
  }

  /** `iht_match_mask` and the loop over its set bits: the selected bytes in ascending order. */
  method Candidates(p: Platform, t: seq<nat>, h: nat) returns (c: seq<nat>)
    requires IsGroup(t) && h < 256
    ensures forall i, j :: 0 <= i < j < |c| ==> c[i] < c[j]
    ensures forall k :: k in c <==> k < 8 && Selected(p, t, h, k)
  {
    hide Marks, Clean, MatchMask, Load;
    var m := MatchMask(p, Load(t), h);
    MatchMaskSelects(p, t, h);
    ZeroMask(p, m);
    ghost var done := 0;
    c := [];
    while m != 0
      invariant Clean(p, m) && done <= 8
      invariant m == 0 <==> forall k :: 0 <= k < 8 ==> !Marks(p, m, k)
      invariant forall k :: 0 <= k < 8 ==> (Marks(p, m, k) <==> done <= k && Selected(p, t, h, k))
      invariant forall k :: k in c <==> k < done && Selected(p, t, h, k)
      invariant forall i :: 0 <= i < |c| ==> c[i] < done
      invariant forall i, j :: 0 <= i < j < |c| ==> c[i] < c[j]
      decreases 8 - done
    {
      var k, r := TakeLowest(p, m);
      assert Marks(p, m, k) && done <= k;
      assert forall j :: done <= j < k ==> !Selected(p, t, h, j) by {
        assert forall j :: done <= j < k ==> !Marks(p, m, j);
      }
      ZeroMask(p, r);
      forall j | 0 <= j < 8 ensures Marks(p, r, j) <==> k + 1 <= j && Selected(p, t, h, j) {
        assert j < k ==> !Marks(p, m, j);
      }
      c, m, done := c + [k], r, k + 1;
    }
    assert forall k :: done <= k < 8 ==> !Selected(p, t, h, k) by {
      assert forall k :: 0 <= k < 8 ==> !Marks(p, m, k);
    }
  }

  /** `iht_match_empty` and the count of trailing zeros: the first EMPTY byte, or 8. */
  method FirstEmpty(p: Platform, t: seq<nat>) returns (k: nat)
    requires IsGroup(t) && forall j :: 0 <= j < 8 ==> IsTag(t[j])
    ensures k <= 8
    ensures k < 8 ==> t[k] == EMPTY
    ensures forall j :: 0 <= j < k ==> t[j] != EMPTY
  {
    hide Marks, Clean, MatchEmpty, Load;
    var m := MatchEmpty(p, Load(t));
    MatchEmptyExact(p, t);
    ZeroMask(p, m);
    if m != 0 {
      var rest;
      k, rest := TakeLowest(p, m);
      assert forall j :: 0 <= j < k ==> !Marks(p, m, j);
    } else {
      k := 8;
      assert forall j :: 0 <= j < 8 ==> !Marks(p, m, j);
    }
  }

  method FirstEmptyV0(p: Platform, t: seq<nat>) returns (k: nat)
    requires IsGroup(t) && forall j :: 0 <= j < 8 ==> t[j] <= EMPTY_V0
    ensures k <= 8
    ensures k < 8 ==> t[k] == EMPTY_V0
    ensures forall j :: 0 <= j < k ==> t[j] != EMPTY_V0
  {
    hide Marks, Clean, MatchEmptyV0, Load;
    var m := MatchEmptyV0(p, Load(t));
    MatchEmptyV0Exact(p, t);
    ZeroMask(p, m);
    if m != 0 {
      var rest;
      k, rest := TakeLowest(p, m);
      assert forall j :: 0 <= j < k ==> !Marks(p, m, j);
    } else {
      k := 8;
      assert forall j :: 0 <= j < 8 ==> !Marks(p, m, j);
    }
  }
}
