/** What the VMUM hash is, without its loops: the hash of the empty key, and the hash of a key from the hash of
    the key without its last bytes, its last pair of words, its last group of pairs or its last block. */
module VmumLaws {
  import opened Vmum
  import opened VmumHash
  import opened XorWords

  // ---- Arithmetic ----

  /** Modulo 2^64 - 1 the multiplication is that of integers, less the carry out of the sum of the two words. */
  lemma MulResidue(v: Word, p: Word)
    ensures
      var c := if v * p / B64 + v * p % B64 >= B64 then 1 else 0;
      (v * p - Mul(v, p) - c) % (B64 - 1) == 0
  {
    var x := v * p;
    ProductBound(v, p);
    var (hi, lo) := (x / B64, x % B64);
    Residue(hi, lo);
  }

  lemma ProductBound(v: Word, p: Word)
    ensures 0 <= v * p <= (B64 - 1) * (B64 - 1)
  {
    Grows(v, B64 - 1, p);
    Grows(p, B64 - 1, B64 - 1);
  }

  lemma Residue(hi: int, lo: int)
    requires 0 <= hi < B64 && 0 <= lo < B64
    ensures var c := if hi + lo >= B64 then 1 else 0; (hi * B64 + lo - (hi + lo) % B64 - c) % (B64 - 1) == 0
  {
    var c := if hi + lo >= B64 then 1 else 0;
    assert (hi + lo) % B64 == hi + lo - c * B64;
    assert hi * B64 + lo - (hi + lo - c * B64) - c == (hi + c) * (B64 - 1);
  }

  lemma MulByOne(v: Word)
    ensures Mul(v, 1) == v && Mul(1, v) == v
  {
  }

  /** `_vmum_val` is the sum of the low and the high partial product. */
  lemma ValIsPartial(v: Word, p: Word)
    ensures Val(v, p) == (Partial(v, p).0 + Partial(v, p).3) % B64
    ensures Val(v, 1) == v % B32 && Val(v, B32) == v / B32
  {
    hide Partial, Val;
    PartialIs(v, p);
    PartialIs(v, 1);
    PartialIs(v, B32);
  }

  lemma PartialIs(v: Word, p: Word)
    ensures Val(v, p) == (Partial(v, p).0 + Partial(v, p).3) % B64
    ensures p == 1 ==> Val(v, p) == v % B32
    ensures p == B32 ==> Val(v, p) == v / B32
  {
  }

  /** A factor that is not 0 is never cancelled: the mixed word is the xor, or the sum, unless that is 0. */
  lemma MixedIsNotZero(a: Word, b: Word)
    ensures b != 0 ==> XorFactor(a, b) != 0 && PlusFactor(a, b) != 0
    ensures XorFactor(a, b) == if a == b then b else Xor(a, b)
    ensures PlusFactor(a, b) == if a + b == B64 then b else (a + b) % B64
  {
    hide Xor;
    XorCancels(a, b);
  }

  // ---- Bytes ----

  /** The digits of a little-endian value to the base 256 are the bytes. */
  lemma {:induction false} LeDigits(s: seq<Byte>, k: nat)
    requires k < |s|
    ensures Pow256(k) > 0 && Le(s) / Pow256(k) % 256 == s[k]
    decreases k
  {
    Pow256Positive(k);
    if k > 0 {
      LeDigits(s[1..], k - 1);
      Pow256Positive(k - 1);
      DropDigit(s[0], Le(s[1..]), Pow256(k - 1));
    }
  }

  lemma {:induction false} Pow256Positive(k: nat)
    ensures Pow256(k) > 0
  {
    if k > 0 { Pow256Positive(k - 1); }
  }

  lemma DropDigit(d: int, x: int, p: int)
    requires 0 <= d < 256 && 0 <= x && p > 0
    ensures (d + 256 * x) / (256 * p) == x / p
  {
    var (q, r) := (x / p, x % p);
    assert x == q * p + r;
    assert d + 256 * x == q * (256 * p) + (d + 256 * r);
    assert d + 256 * r < 256 * p;
    Quotient(d + 256 * x, q, d + 256 * r, 256 * p);
  }

  lemma Quotient(x: int, q: int, r: int, n: int)
    requires x == q * n + r && 0 <= r < n
    ensures x / n == q
  {
    var (a, b) := (x / n, x % n);
    assert a * n + b == q * n + r;
    SameQuotient(a, b, q, r, n);
  }

  lemma SameQuotient(a: int, b: int, q: int, r: int, n: int)
    requires a * n + b == q * n + r && 0 <= b < n && 0 <= r < n
    ensures a == q
  {
    assert (a - q) * n == r - b;
    if a > q { Grows(1, a - q, n); }
    if a < q { Grows(1, q - a, n); }
  }

  // ---- Keys with the same beginning ----

  /** A load from the second part of a key, by the value of the bytes. */
  lemma LoadPart(p: seq<Byte>, q: seq<Byte>, at: nat, n: nat)
    requires at + n <= |q| && n <= 8
    ensures Load(p + q, |p| + at, n) == Le(q[at..at + n])
  {
    hide Le;
    assert (p + q)[|p| + at..|p| + at + n] == q[at..at + n];
  }

  lemma SameLoad(a: seq<Byte>, b: seq<Byte>, shift: nat, at: nat, n: nat)
    requires at + n <= |a| && n <= 8 && shift + at + n <= |b| && a[at..at + n] == b[shift + at..shift + at + n]
    ensures Load(a, at, n) == Load(b, shift + at, n)
  {
  }

  lemma Within(a: seq<Byte>, b: seq<Byte>, shift: nat, hi: nat, at: nat, n: nat)
    requires hi <= |a| && shift + hi <= |b| && a[..hi] == b[shift..shift + hi] && at + n <= hi
    ensures a[at..at + n] == b[shift + at..shift + at + n]
  {
    var (u, v) := (a[at..at + n], b[shift + at..shift + at + n]);
    forall k | 0 <= k < n ensures u[k] == v[k] {
      assert u[k] == a[..hi][at + k] && v[k] == b[shift..shift + hi][at + k];
    }
  }

  /** A load from the common part of two keys. */
  lemma LoadWithin(a: seq<Byte>, b: seq<Byte>, shift: nat, hi: nat, at: nat, n: nat)
    requires hi <= |a| && shift + hi <= |b| && a[..hi] == b[shift..shift + hi] && at + n <= hi && n <= 8
    ensures Load(a, at, n) == Load(b, shift + at, n)
  {
    Within(a, b, shift, hi, at, n);
    SameLoad(a, b, shift, at, n);
  }

  /** One more step of a lane, with factors `k` and `k + 4`. */
  lemma LaneStep(f: Factors, key: seq<Byte>, c: nat, j: nat, k: nat)
    requires f.Ok() && c < 4 && 0 < j && 64 * j <= |key| && k == 8 * ((j - 1) % 8) + c
    ensures k < 60
    ensures
      var (a, b) := (Load(key, 64 * (j - 1) + 8 * c, 8), Load(key, 64 * (j - 1) + 8 * c + 32, 8));
      Unmixed(f, key, c, j) == Xor(Lane(f, key, c, j - 1), LaneTerm(f, k, a, b))
    ensures Lane(f, key, c, j) == if j % 8 == 0 then Val(Unmixed(f, key, c, j), f.unroll[c]) else Unmixed(f, key, c, j)
  {
    hide Load, Xor, XorFactor, Val;
  }

  function LaneTerm(f: Factors, k: nat, a: Word, b: Word): Word
    requires f.Ok() && k < 60
  {
    Val(XorFactor(a, f.At(k)), XorFactor(b, f.At(k + 4)))
  }

  lemma NoLane(f: Factors, key: seq<Byte>, c: nat)
    requires f.Ok() && c < 4
    ensures Lane(f, key, c, 0) == 0
  {
  }

  lemma {:induction false} LaneSame(f: Factors, a: seq<Byte>, b: seq<Byte>, c: nat, j: nat)
    requires f.Ok() && c < 4 && 64 * j <= |a| && 64 * j <= |b| && a[..64 * j] == b[..64 * j]
    ensures Lane(f, a, c, j) == Lane(f, b, c, j)
    decreases j
  {
    hide Load, Xor, LaneTerm, Val, Lane, Unmixed;
    if j == 0 {
      NoLane(f, a, c);
      NoLane(f, b, c);
    } else {
      var (at, n) := (64 * (j - 1) + 8 * c, 64 * (j - 1));
      Shorter(a, b, 64 * j, n);
      LaneSame(f, a, b, c, j - 1);
      LoadWithin(a, b, 0, 64 * j, at, 8);
      LoadWithin(a, b, 0, 64 * j, at + 32, 8);
      LaneStep(f, a, c, j, 8 * ((j - 1) % 8) + c);
      LaneStep(f, b, c, j, 8 * ((j - 1) % 8) + c);
    }
  }

  lemma Shorter(a: seq<Byte>, b: seq<Byte>, hi: nat, n: nat)
    requires n <= hi <= |a| && hi <= |b| && a[..hi] == b[..hi]
    ensures a[..n] == b[..n]
  {
    assert a[..n] == a[..hi][..n] && b[..n] == b[..hi][..n];
  }

  lemma BlocksSame(f: Factors, start: Word, a: seq<Byte>, b: seq<Byte>)
    requires f.Ok() && |a| / 512 == |b| / 512 && a[..|a| / 512 * 512] == b[..|b| / 512 * 512]
    ensures AfterBlocks(f, start, a) == AfterBlocks(f, start, b)
  {
    hide Lane, Xor, Sum;
    var j := |a| / 512 * 8;
    forall c | 0 <= c < 4 ensures Lane(f, a, c, j) == Lane(f, b, c, j) { LaneSame(f, a, b, c, j); }
  }

  /** One more pair, of a key with `base` bytes in blocks and `g` pairs in complete groups after them. */
  lemma PairStep(f: Factors, start: Word, key: seq<Byte>, m: nat, base: nat, g: nat)
    requires f.Ok() && base == |key| / 512 * 512 && g == |key| % 512 / 128 * 8 && m > 0 && base + 16 * m <= |key|
    ensures
      var (a, b) := (Load(key, base + 16 * (m - 1), 8), Load(key, base + 16 * (m - 1) + 8, 8));
      AfterPairs(f, start, key, m) == Xor(AfterPairs(f, start, key, m - 1), PairTerm(f, 2 * (m - 1), a, b, m <= g))
  {
    hide Load, Xor, XorFactor, PlusFactor, AfterBlocks;
  }

  function PairTerm(f: Factors, i: nat, a: Word, b: Word, grouped: bool): Word
    requires f.Ok() && i < 69
  {
    if grouped then f.Mul(XorFactor(a, f.At(i)), XorFactor(b, f.At(i + 1)))
    else f.Mul(PlusFactor(a, f.At(i)), PlusFactor(b, f.At(i + 1)))
  }

  /** Two keys of as many blocks that agree in their first pairs, and complete groups of pairs alike. */
  lemma {:induction false} PairsSame(
    f: Factors, start: Word, a: seq<Byte>, b: seq<Byte>, m: nat, base: nat, ga: nat, gb: nat)
    requires f.Ok() && base == |a| / 512 * 512 == |b| / 512 * 512
    requires ga == |a| % 512 / 128 * 8 && gb == |b| % 512 / 128 * 8 && (ga == gb || (m <= ga && m <= gb))
    requires base + 16 * m <= |a| && base + 16 * m <= |b| && a[..base + 16 * m] == b[..base + 16 * m]
    ensures AfterPairs(f, start, a, m) == AfterPairs(f, start, b, m)
    decreases m
  {
    hide Load, Xor, PairTerm, AfterPairs;
    if m == 0 {
      NoPairs(f, start, a);
      NoPairs(f, start, b);
      BlocksSame(f, start, a, b);
    } else {
      var n := base + 16 * (m - 1);
      Shorter(a, b, base + 16 * m, n);
      PairsSame(f, start, a, b, m - 1, base, ga, gb);
      LoadWithin(a, b, 0, base + 16 * m, n, 8);
      LoadWithin(a, b, 0, base + 16 * m, n + 8, 8);
      PairStep(f, start, a, m, base, ga);
      PairStep(f, start, b, m, base, gb);
    }
  }

  lemma NoPairs(f: Factors, start: Word, key: seq<Byte>)
    requires f.Ok()
    ensures AfterPairs(f, start, key, 0) == AfterBlocks(f, start, key)
  {
  }

  // ---- The laws ----

  /** A length in blocks, groups of pairs, pairs and bytes. */
  lemma Sized(n: nat, b: nat, g: nat, r: nat, t: nat)
    requires n == 512 * b + 128 * g + 16 * r + t && g < 4 && r < 8 && t < 16
    ensures n / 512 == b && n % 512 / 128 == g && n % 512 / 16 == 8 * g + r && TailAt(n) == n - t
  {
    assert n % 512 == 128 * g + 16 * r + t;
  }

  /** The parts of a hash: `m` pairs after the blocks, and the tail from `at` on. */
  lemma HashParts(f: Factors, start: Word, key: seq<Byte>, m: nat, at: nat)
    requires f.Ok() && m == |key| % 512 / 16 && at == TailAt(|key|)
    ensures |key| / 512 * 512 + 16 * m == at <= |key| && m < 32
    ensures Hash(f, start, key) == AfterTail(f, AfterPairs(f, start, key, m), key, at, 2 * m)
  {
    hide AfterPairs, AfterTail;
  }

  lemma NoTail(f: Factors, state: Word, key: seq<Byte>, i: nat)
    requires f.Ok() && i <= 62
    ensures AfterTail(f, state, key, |key|, i) == state
  {
  }

  /** The hash of a key of whole blocks, groups and pairs. */
  lemma WholePairs(f: Factors, start: Word, p: seq<Byte>, b: nat, g: nat, r: nat)
    requires f.Ok() && |p| == 512 * b + 128 * g + 16 * r && g < 4 && r < 8
    ensures |p| / 512 == b && |p| % 512 / 128 == g
    ensures Hash(f, start, p) == AfterPairs(f, start, p, 8 * g + r)
  {
    hide AfterPairs, AfterTail, Hash, TailAt;
    Sized(|p|, b, g, r, 0);
    HashParts(f, start, p, 8 * g + r, |p|);
    NoTail(f, AfterPairs(f, start, p, 8 * g + r), p, 2 * (8 * g + r));
  }

  lemma EmptyKey(f: Factors, start: Word)
    requires f.Ok()
    ensures Hash(f, start, []) == f.Mul(start, f.blockStart)
  {
  }

  /** The value of up to sixteen bytes, as two words. */
  lemma LowHigh(q: seq<Byte>)
    requires |q| <= 16
    ensures 0 <= Le(q) / B64 < B64 && (|q| <= 8 ==> Le(q) < B64)
    ensures |q| > 8 ==> Le(q[..8]) == Le(q) % B64 && Le(q[8..]) == Le(q) / B64
  {
    hide Le, Pow256;
    if |q| <= 8 {
      LeBound(q);
      Pow256Word(|q|);
      Remainder(0, Le(q));
    } else {
      LePieces(q, 8);
      LeBound(q[..8]);
      LeBound(q[8..]);
      Pow256Word(|q| - 8);
      Pow256Is();
      Remainder(Le(q[8..]), Le(q[..8]));
    }
  }

  lemma Pow256Is()
    ensures Pow256(8) == B64
  {
    assert Pow256(4) == B32;
  }

  /** What the tail of `n` bytes with low word `lo` and high word `hi` adds, with factors from `i` on. */
  function TailTerm(f: Factors, i: nat, n: nat, lo: Word, hi: Word): Word
    requires f.Ok() && 0 < n < 16 && i <= 62
  {
    if n < 8 then f.Mul((f.words[i + 8 - n] + lo) % B64, f.tail)
    else if n == 8 then f.Mul((lo + f.words[i]) % B64, f.words[i])
    else f.Mul(Xor((f.words[i + 16 - n] + hi) % B64, f.tail), PlusFactor(lo, f.words[i]))
  }

  lemma TailIs(f: Factors, state: Word, key: seq<Byte>, at: nat, i: nat)
    requires f.Ok() && at < |key| < at + 16 && i <= 62
    ensures
      var n := |key| - at;
      AfterTail(f, state, key, at, i) == Xor(state, TailTerm(f, i, n, Load(key, at, if n < 8 then n else 8),
                                                             if n <= 8 then 0 else Load(key, at + 8, n - 8)))
  {
    hide Xor, PlusFactor, Load, MulBy;
  }

  lemma TailLoads(p: seq<Byte>, q: seq<Byte>)
    requires 0 < |q| <= 16
    ensures |q| <= 8 ==> Load(p + q, |p|, |q|) == Le(q)
    ensures |q| > 8 ==> Load(p + q, |p|, 8) == Le(q) % B64 && Load(p + q, |p| + 8, |q| - 8) == Le(q) / B64
  {
    hide Le, Load;
    LowHigh(q);
    if |q| <= 8 {
      LoadPart(p, q, 0, |q|);
      assert q[0..|q|] == q;
    } else {
      LoadPart(p, q, 0, 8);
      LoadPart(p, q, 8, |q| - 8);
      assert q[0..8] == q[..8] && q[8..8 + (|q| - 8)] == q[8..];
    }
  }

  /** The last one to fifteen bytes of a key, `q`, after the `b` blocks, `g` groups and `r` pairs of `p`: what is
      xored to the hash of `p`. */
  lemma TailLaw(f: Factors, start: Word, p: seq<Byte>, q: seq<Byte>, b: nat, g: nat, r: nat)
    requires f.Ok() && |p| == 512 * b + 128 * g + 16 * r && g < 4 && r < 8 && 0 < |q| < 16
    ensures 0 <= Le(q) / B64 < B64
    ensures
      var (lo, hi) := (Le(q) % B64, Le(q) / B64);
      Hash(f, start, p + q) == Xor(Hash(f, start, p), TailTerm(f, 16 * g + 2 * r, |q|, lo, hi))
  {
    hide AfterPairs, AfterTail, Hash, TailAt, Xor, TailTerm, Le, Load;
    var (key, m) := (p + q, 8 * g + r);
    WholePairs(f, start, p, b, g, r);
    Sized(|key|, b, g, r, |q|);
    HashParts(f, start, key, m, |p|);
    assert key[..|p|] == p == p[..|p|];
    PairsSame(f, start, key, p, m, 512 * b, 8 * g, 8 * g);
    LowHigh(q);
    TailLoads(p, q);
    TailIs(f, AfterPairs(f, start, key, m), key, |p|, 2 * m);
  }

  /** The hash of every key shorter than sixteen bytes, from the value `v` of its bytes. */
  lemma ShortHash(f: Factors, start: Word, key: seq<Byte>, v: nat)
    requires f.Ok() && |key| < 16 && v == Le(key)
    ensures 0 <= v / B64 < B64
    ensures
      var (n, w, s) := (|key|, f.words, f.Mul(start, f.blockStart));
      Hash(f, start, key) ==
        if n == 0 then s
        else if n < 8 then Xor(s, f.Mul((w[8 - n] + v) % B64, f.tail))
        else if n == 8 then Xor(s, f.Mul((v + w[0]) % B64, w[0]))
        else Xor(s, f.Mul(Xor((w[16 - n] + v / B64) % B64, f.tail), PlusFactor(v % B64, w[0])))
  {
    hide Hash, Xor, PlusFactor, Le, MulBy;
    LowHigh(key);
    EmptyKey(f, start);
    if key != [] {
      assert [] + key == key;
      TailLaw(f, start, [], key, 0, 0, 0);
    }
  }

  /** The factors that the hash of a short key uses, by its length. */
  function Used(n: nat): set<nat>
    requires n < 16
  {
    if n == 0 then {} else if n < 8 then {8 - n} else if n == 8 then {0} else {0, 16 - n}
  }

  /** Keys of different lengths use different factors. */
  lemma UsedDiffer(n: nat, m: nat)
    requires n < m < 16
    ensures Used(n) != Used(m)
  {
    if m < 8 {
      assert 8 - m in Used(m);
    } else if m == 8 {
      assert 0 in Used(m);
    } else {
      assert 0 in Used(m) && 16 - m in Used(m);
    }
  }

  /** The hash of a short key depends on no factor but those. */
  lemma OthersUnused(f: Factors, start: Word, key: seq<Byte>, k: nat, w: Word)
    requires f.Ok() && |key| < 16 && k < 80 && k !in Used(|key|)
    ensures Hash(f.(words := f.words[k := w]), start, key) == Hash(f, start, key)
  {
    hide Hash, Xor, PlusFactor, Le, MulBy;
    LowHigh(key);
    ShortHash(f, start, key, Le(key));
    ShortHash(f.(words := f.words[k := w]), start, key, Le(key));
  }

  function Zeros(n: nat): (s: seq<Byte>)
    ensures |s| == n
  {
    seq(n, i => 0)
  }

  lemma {:induction false} ZerosAreZero(n: nat)
    ensures Le(Zeros(n)) == 0
  {
    if n > 0 {
      ZerosAreZero(n - 1);
      assert Zeros(n)[1..] == Zeros(n - 1);
    }
  }

  /** Factors that are all 1, but for factor `k`, and a tail factor of `t`. */
  function Ones(t: Word, k: nat, w: Word): (f: Factors)
    requires k < 80
    ensures f.Ok() && forall i :: 0 <= i < 80 ==> f.words[i] == if i == k then w else 1
  {
    Factors(Wide, 0, t, [1, 1, 1, 1], seq(80, i => 1)[k := w])
  }

  /** On each of those factors the hash does depend: the hashes of some key differ when it is changed from 1
      to 2. */
  lemma UsedMatter(n: nat, k: nat)
    requires 0 < n < 16 && k in Used(n)
    ensures var t := if n <= 8 then 1 else 0;
      Hash(Ones(t, k, 2), 0, Zeros(n)) != Hash(Ones(t, k, 1), 0, Zeros(n))
  {
    hide Hash, Xor, Le, Ones;
    var t := if n <= 8 then 1 else 0;
    ZerosAreZero(n);
    OnesHash(n, t, k, 1);
    OnesHash(n, t, k, 2);
  }

  lemma OnesHash(n: nat, t: Word, k: nat, w: Word)
    requires 0 < n < 16 && k in Used(n) && t == (if n <= 8 then 1 else 0) && 1 <= w <= 2
    ensures Hash(Ones(t, k, w), 0, Zeros(n)) == if n == 8 then w * w else w
  {
    hide Hash, Xor, Le, Zeros, PlusFactor, XorFactor;
    var f := Ones(t, k, w);
    ZerosAreZero(n);
    ShortHash(f, 0, Zeros(n), 0);
    MixedIsNotZero(0, 1);
    MixedIsNotZero(0, 2);
    forall x: Word ensures Xor(0, x) == x && Xor(x, 0) == x { XorZero(x); XorComm(0, x); }
    MulByOne(w);
  }

  // ---- The tail factor ----

  lemma {:induction false} PairsWithoutTail(f: Factors, start: Word, key: seq<Byte>, m: nat, t: Word)
    requires f.Ok() && |key| / 512 * 512 + 16 * m <= |key|
    ensures AfterPairs(f.(tail := t), start, key, m) == AfterPairs(f, start, key, m)
    decreases m
  {
    hide Load, Xor, PairTerm, AfterPairs;
    var (base, g) := (|key| / 512 * 512, |key| % 512 / 128 * 8);
    if m == 0 {
      NoPairs(f, start, key);
      NoPairs(f.(tail := t), start, key);
      BlocksWithoutTail(f, start, key, t);
    } else {
      PairsWithoutTail(f, start, key, m - 1, t);
      PairStep(f, start, key, m, base, g);
      PairStep(f.(tail := t), start, key, m, base, g);
      var (a, b) := (Load(key, base + 16 * (m - 1), 8), Load(key, base + 16 * (m - 1) + 8, 8));
      TermWithoutTail(f, 2 * (m - 1), a, b, m <= g, t);
    }
  }

  lemma TermWithoutTail(f: Factors, i: nat, a: Word, b: Word, grouped: bool, t: Word)
    requires f.Ok() && i < 69
    ensures PairTerm(f.(tail := t), i, a, b, grouped) == PairTerm(f, i, a, b, grouped)
  {
  }

  lemma BlocksWithoutTail(f: Factors, start: Word, key: seq<Byte>, t: Word)
    requires f.Ok()
    ensures AfterBlocks(f.(tail := t), start, key) == AfterBlocks(f, start, key)
  {
    hide Lane, Xor, Sum, MulBy;
    var j := |key| / 512 * 8;
    forall c | 0 <= c < 4 ensures Lane(f.(tail := t), key, c, j) == Lane(f, key, c, j) {
      LaneWithoutTail(f, key, c, j, t);
    }
  }

  lemma {:induction false} LaneWithoutTail(f: Factors, key: seq<Byte>, c: nat, j: nat, t: Word)
    requires f.Ok() && c < 4 && 64 * j <= |key|
    ensures Lane(f.(tail := t), key, c, j) == Lane(f, key, c, j)
    decreases j
  {
    hide Load, Xor, Val, Lane, Unmixed, XorFactor;
    if j == 0 {
      NoLane(f, key, c);
      NoLane(f.(tail := t), key, c);
    } else {
      LaneWithoutTail(f, key, c, j - 1, t);
      LaneStep(f, key, c, j, 8 * ((j - 1) % 8) + c);
      LaneStep(f.(tail := t), key, c, j, 8 * ((j - 1) % 8) + c);
    }
  }

  /** Keys of whole words do not use the tail factor. */
  lemma WholeWords(f: Factors, start: Word, key: seq<Byte>, t: Word)
    requires f.Ok() && |key| % 8 == 0
    ensures Hash(f.(tail := t), start, key) == Hash(f, start, key)
  {
    hide AfterPairs, Xor, Load, TailAt, MulBy, Hash;
    var (m, at) := (|key| % 512 / 16, TailAt(|key|));
    HashParts(f, start, key, m, at);
    HashParts(f.(tail := t), start, key, m, at);
    PairsWithoutTail(f, start, key, m, t);
    assert |key| - at == 0 || |key| - at == 8;
  }

  // ---- Pairs ----

  /** The last pair of words `q` of a key, unless it completes a group of eight: mixed by addition. */
  lemma PairLaw(f: Factors, start: Word, p: seq<Byte>, q: seq<Byte>, b: nat, g: nat, r: nat)
    requires f.Ok() && |p| == 512 * b + 128 * g + 16 * r && g < 4 && r < 7 && |q| == 16
    ensures 0 <= Le(q) / B64 < B64
    ensures
      var (lo, hi, i) := (Le(q) % B64, Le(q) / B64, 16 * g + 2 * r);
      Hash(f, start, p + q)
        == Xor(Hash(f, start, p), f.Mul(PlusFactor(lo, f.words[i]), PlusFactor(hi, f.words[i + 1])))
  {
    hide AfterPairs, AfterTail, Hash, Xor, PlusFactor, XorFactor, Le, Load, MulBy;
    var (key, m) := (p + q, 8 * g + r);
    WholePairs(f, start, p, b, g, r);
    WholePairs(f, start, key, b, g, r + 1);
    assert key[..|p|] == p == p[..|p|];
    PairsSame(f, start, key, p, m, 512 * b, 8 * g, 8 * g);
    PairStep(f, start, key, m + 1, 512 * b, 8 * g);
    LowHigh(q);
    TailLoads(p, q);
  }

  /** What the first `n` pairs of a group add, with factors from `i` on: mixed by xor. */
  function GroupTerm(f: Factors, i: nat, q: seq<Byte>, n: nat): Word
    requires f.Ok() && |q| == 128 && n <= 8 && i + 16 <= 64
  {
    if n == 0 then 0 else
      var (a, b) := (Load(q, 16 * (n - 1), 8), Load(q, 16 * (n - 1) + 8, 8));
      var (u, v) := (f.words[i + 2 * (n - 1)], f.words[i + 2 * (n - 1) + 1]);
      Xor(GroupTerm(f, i, q, n - 1), f.Mul(XorFactor(a, u), XorFactor(b, v)))
  }

  /** The last group of eight pairs of a key, unless it completes a block. */
  lemma GroupLaw(f: Factors, start: Word, p: seq<Byte>, q: seq<Byte>, b: nat, g: nat)
    requires f.Ok() && |p| == 512 * b + 128 * g && g < 3 && |q| == 128
    ensures Hash(f, start, p + q) == Xor(Hash(f, start, p), GroupTerm(f, 16 * g, q, 8))
  {
    hide AfterPairs, Hash, Xor, GroupTerm;
    var key := p + q;
    WholePairs(f, start, p, b, g, 0);
    WholePairs(f, start, key, b, g + 1, 0);
    assert key[..|p|] == p == p[..|p|];
    PairsSame(f, start, key, p, 8 * g, 512 * b, 8 * g + 8, 8 * g);
    GroupPairs(f, start, p, q, 8 * g, 512 * b, 8);
  }

  lemma {:induction false} GroupPairs(
    f: Factors, start: Word, p: seq<Byte>, q: seq<Byte>, m: nat, base: nat, n: nat)
    requires f.Ok() && |q| == 128 && n <= 8 && 2 * m <= 48 && |p| == base + 16 * m
    requires base == |p + q| / 512 * 512 && m + 8 == |p + q| % 512 / 128 * 8
    ensures AfterPairs(f, start, p + q, m + n) == Xor(AfterPairs(f, start, p + q, m), GroupTerm(f, 2 * m, q, n))
    decreases n
  {
    hide AfterPairs, Xor, Load, XorFactor, PlusFactor, MulBy;
    var key := p + q;
    if n == 0 {
      XorZero(AfterPairs(f, start, key, m));
    } else {
      GroupPairs(f, start, p, q, m, base, n - 1);
      PairStep(f, start, key, m + n, base, m + 8);
      assert key[|p|..|p| + 128] == q[..128];
      LoadWithin(q, key, |p|, 128, 16 * (n - 1), 8);
      LoadWithin(q, key, |p|, 128, 16 * (n - 1) + 8, 8);
      var (a, b) := (Load(q, 16 * (n - 1), 8), Load(q, 16 * (n - 1) + 8, 8));
      XorAssoc(AfterPairs(f, start, key, m), GroupTerm(f, 2 * m, q, n - 1),
               PairTerm(f, 2 * (m + n - 1), a, b, true));
    }
  }

  // ---- Blocks ----

  /** The bytes after the blocks do not depend on them: they change the hash as they change that of the empty
      key. */
  lemma RestLaw(f: Factors, start: Word, p: seq<Byte>, q: seq<Byte>, b: nat)
    requires f.Ok() && |p| == 512 * b && |q| < 512
    ensures Hash(f, start, p + q) == Xor(Xor(Hash(f, start, p), Hash(f, start, [])), Hash(f, start, q))
  {
    hide AfterPairs, AfterTail, Hash, TailAt, Xor;
    var (key, m, at) := (p + q, |q| % 512 / 16, TailAt(|q|));
    var x := Xor(Hash(f, start, p), Hash(f, start, []));
    RestSizes(b, |q|);
    HashParts(f, start, key, m, 512 * b + at);
    HashParts(f, start, q, m, at);
    RestPairs(f, start, p, q, b, m);
    RestTail(f, x, AfterPairs(f, start, q, m), p, q, at, 2 * m);
  }

  lemma RestSizes(b: nat, n: nat)
    requires n < 512
    ensures (512 * b + n) / 512 == b && (512 * b + n) % 512 == n && n / 512 == 0 && n % 512 == n
    ensures TailAt(512 * b + n) == 512 * b + TailAt(n)
  {
  }

  lemma {:induction false} RestPairs(f: Factors, start: Word, p: seq<Byte>, q: seq<Byte>, b: nat, m: nat)
    requires f.Ok() && |p| == 512 * b && |q| < 512 && |p + q| / 512 == b && |p + q| % 512 == |q|
    requires |p + q| / 512 * 512 + 16 * m <= |p + q| && |q| / 512 * 512 + 16 * m <= |q|
    ensures
      var x := Xor(Hash(f, start, p), Hash(f, start, []));
      AfterPairs(f, start, p + q, m) == Xor(x, AfterPairs(f, start, q, m))
    decreases m
  {
    hide AfterPairs, Hash, Xor, PairTerm, Load;
    var key := p + q;
    var x := Xor(Hash(f, start, p), Hash(f, start, []));
    if m == 0 {
      RestStart(f, start, p, q, b);
    } else {
      var g := |q| % 512 / 128 * 8;
      RestPairs(f, start, p, q, b, m - 1);
      PairStep(f, start, key, m, 512 * b, g);
      PairStep(f, start, q, m, 0, g);
      assert key[|p|..|p| + |q|] == q[..|q|];
      LoadWithin(q, key, |p|, |q|, 16 * (m - 1), 8);
      LoadWithin(q, key, |p|, |q|, 16 * (m - 1) + 8, 8);
      var (u, v) := (Load(q, 16 * (m - 1), 8), Load(q, 16 * (m - 1) + 8, 8));
      XorAssoc(x, AfterPairs(f, start, q, m - 1), PairTerm(f, 2 * (m - 1), u, v, m <= g));
    }
  }

  lemma RestStart(f: Factors, start: Word, p: seq<Byte>, q: seq<Byte>, b: nat)
    requires f.Ok() && |p| == 512 * b && |q| < 512 && |p + q| / 512 == b
    ensures
      var x := Xor(Hash(f, start, p), Hash(f, start, []));
      AfterPairs(f, start, p + q, 0) == Xor(x, AfterPairs(f, start, q, 0))
  {
    hide AfterPairs, Hash, Xor, AfterBlocks;
    var (a, c) := (Hash(f, start, p), Hash(f, start, []));
    WholePairs(f, start, p, b, 0, 0);
    WholePairs(f, start, [], 0, 0, 0);
    assert (p + q)[..512 * b] == p == p[..512 * b] && q[..0] == [] == [][..0];
    PairsSame(f, start, p + q, p, 0, 512 * b, |p + q| % 512 / 128 * 8, 0);
    PairsSame(f, start, q, [], 0, 0, |q| % 512 / 128 * 8, 0);
    XorAssoc(a, c, c);
    XorZero(c);
    XorZero(a);
  }

  lemma RestTail(f: Factors, x: Word, s: Word, p: seq<Byte>, q: seq<Byte>, at: nat, i: nat)
    requires f.Ok() && at <= |q| < at + 16 && i <= 62
    ensures AfterTail(f, Xor(x, s), p + q, |p| + at, i) == Xor(x, AfterTail(f, s, q, at, i))
  {
    hide AfterTail, Xor, TailTerm, Load;
    var (key, n) := (p + q, |q| - at);
    if n == 0 {
      NoTail(f, Xor(x, s), key, i);
      NoTail(f, s, q, i);
    } else {
      TailIs(f, Xor(x, s), key, |p| + at, i);
      TailIs(f, s, q, at, i);
      assert key[|p|..|p| + |q|] == q[..|q|];
      LoadWithin(q, key, |p|, |q|, at, if n < 8 then n else 8);
      if n > 8 { LoadWithin(q, key, |p|, |q|, at + 8, n - 8); }
      var (lo, hi) := (Load(q, at, if n < 8 then n else 8), if n <= 8 then 0 else Load(q, at + 8, n - 8));
      XorAssoc(x, s, TailTerm(f, i, n, lo, hi));
    }
  }

  /** The hash of a key of one or more blocks: the sum of the start and the four lanes. */
  lemma BlocksHash(f: Factors, start: Word, p: seq<Byte>, b: nat)
    requires f.Ok() && |p| == 512 * b && b > 0
    ensures
      var (s, j) := (f.Mul(start, f.blockStart), 8 * b);
      var lanes := Xor(Xor(Xor(Lane(f, p, 0, j), Lane(f, p, 1, j)), Lane(f, p, 2, j)), Lane(f, p, 3, j));
      Hash(f, start, p) == (s + lanes) % B64
  {
    hide Hash, Xor, Lane, MulBy;
    WholePairs(f, start, p, b, 0, 0);
    NoPairs(f, start, p);
  }

  /** What the first `n` steps of a block add to a lane: the products of its words, mixed by xor. */
  function BlockTerm(f: Factors, q: seq<Byte>, c: nat, n: nat): Word
    requires f.Ok() && |q| == 512 && c < 4 && n <= 8
  {
    if n == 0 then 0 else
      var (at, k) := (64 * (n - 1) + 8 * c, 8 * (n - 1) + c);
      var (u, v) := (XorFactor(Load(q, at, 8), f.words[k]), XorFactor(Load(q, at + 32, 8), f.words[k + 4]));
      Xor(BlockTerm(f, q, c, n - 1), Val(u, v))
  }

  /** One more block: every lane takes its products and is multiplied by its own factor. */
  lemma BlockLaw(f: Factors, p: seq<Byte>, q: seq<Byte>, c: nat, b: nat)
    requires f.Ok() && |p| == 512 * b && |q| == 512 && c < 4
    ensures Lane(f, [], c, 0) == 0
    ensures Lane(f, p + q, c, 8 * b + 8) == Val(Xor(Lane(f, p, c, 8 * b), BlockTerm(f, q, c, 8)), f.unroll[c])
  {
    hide Lane, Unmixed, Xor, Val, BlockTerm;
    NoLane(f, [], c);
    BlockSteps(f, p, q, c, b, 8);
    BlockStep(f, p + q, c, b, 8);
  }

  /** Step `n` of block `b`. */
  lemma BlockStep(f: Factors, key: seq<Byte>, c: nat, b: nat, n: nat)
    requires f.Ok() && c < 4 && 0 < n <= 8 && 512 * b + 64 * n <= |key|
    ensures
      var at := 512 * b + 64 * (n - 1) + 8 * c;
      var term := LaneTerm(f, 8 * (n - 1) + c, Load(key, at, 8), Load(key, at + 32, 8));
      Unmixed(f, key, c, 8 * b + n) == Xor(Lane(f, key, c, 8 * b + n - 1), term)
    ensures Lane(f, key, c, 8 * b + n)
      == if n == 8 then Val(Unmixed(f, key, c, 8 * b + n), f.unroll[c]) else Unmixed(f, key, c, 8 * b + n)
  {
    hide Lane, Unmixed, Xor, Val, LaneTerm, Load;
    LaneStep(f, key, c, 8 * b + n, 8 * (n - 1) + c);
  }

  lemma {:induction false} BlockSteps(f: Factors, p: seq<Byte>, q: seq<Byte>, c: nat, b: nat, n: nat)
    requires f.Ok() && |p| == 512 * b && |q| == 512 && c < 4 && 0 < n <= 8
    ensures Unmixed(f, p + q, c, 8 * b + n) == Xor(Lane(f, p, c, 8 * b), BlockTerm(f, q, c, n))
    decreases n
  {
    hide Lane, Unmixed, Xor, Val, XorFactor, Load;
    var key := p + q;
    assert key[..|p|] == p == p[..|p|];
    LaneSame(f, key, p, c, 8 * b);
    var l := Lane(f, p, c, 8 * b);
    XorZero(l);
    BlockStep(f, key, c, b, n);
    assert key[|p|..|p| + 512] == q[..512];
    var at := 64 * (n - 1) + 8 * c;
    LoadWithin(q, key, |p|, 512, at, 8);
    LoadWithin(q, key, |p|, 512, at + 32, 8);
    var t := LaneTerm(f, 8 * (n - 1) + c, Load(q, at, 8), Load(q, at + 32, 8));
    if n > 1 {
      BlockSteps(f, p, q, c, b, n - 1);
      BlockStep(f, key, c, b, n - 1);
    }
    XorAssoc(l, BlockTerm(f, q, c, n - 1), t);
  }
}
