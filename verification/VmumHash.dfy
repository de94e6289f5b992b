/** `_vmum_hash_aligned`: the block loop, the unrolled loop, the loop over pairs of words and the tail,
    against one definition by position in the key. */
module VmumHash {
  import opened Vmum

  type Byte = n: int | 0 <= n < 256 witness 0

  /** The multiplication and the multipliers, which the program may replace by random ones. */
  datatype Factors = Factors(form: Form, blockStart: Word, tail: Word, unroll: seq<Word>, words: seq<Word>) {
    /** `_vmum`, as it was compiled. */
    function Mul(v: Word, p: Word): Word { MulBy(form, v, p) }

    predicate Ok() { |unroll| == 4 && |words| == 80 }

    /** A factor of the table: of the eighty only the first seventy are ever used. */
    function At(k: nat): Word
      requires Ok() && k < 70
    {
      words[k]
    }
  }

  // ---- Arithmetic ----

  function Xor(a: Word, b: Word): Word { ((a as bv64) ^ (b as bv64)) as int }

  function Sum(a: Word, b: Word): Word { (a + b) % B64 }

  function XorFactor(a: Word, b: Word): Word { if Xor(a, b) != 0 then Xor(a, b) else b }

  function PlusFactor(a: Word, b: Word): Word { if Sum(a, b) != 0 then Sum(a, b) else b }

  /** `_vmum_val`: the sum of the products of the low and of the high halves. */
  function Val(v: Word, p: Word): Word { (v % B32 * (p % B32) + v / B32 * (p / B32)) % B64 }

  // ---- Little-endian values ----

  function Pow256(n: nat): nat { if n == 0 then 1 else 256 * Pow256(n - 1) }

  function Le(s: seq<Byte>): nat {
    if s == [] then 0 else s[0] + 256 * Le(s[1..])
  }

  lemma {:induction false} LeBound(s: seq<Byte>)
    ensures Le(s) < Pow256(|s|)
  {
    if s != [] { LeBound(s[1..]); }
  }

  /** A load of `n` bytes, of at most a word. */
  function Load(key: seq<Byte>, at: nat, n: nat): Word
    requires at + n <= |key| && n <= 8
  {
    Pow256Word(n);
    LeBound(key[at..at + n]);
    Le(key[at..at + n])
  }

  lemma {:induction false} Pow256Word(n: nat)
    requires n <= 8
    ensures Pow256(n) <= B64
    decreases 8 - n
  {
    if n < 8 { Pow256Word(n + 1); } else { assert Pow256(4) == B32; }
  }

  /** A value is read in two pieces. */
  lemma {:induction false} LePieces(s: seq<Byte>, m: nat)
    requires m <= |s|
    ensures Le(s) == Le(s[..m]) + Pow256(m) * Le(s[m..])
  {
    if m == 0 {
      assert s[0..] == s;
    } else {
      LePieces(s[1..], m - 1);
      assert s[1..][..m - 1] == s[..m][1..] && s[1..][m - 1..] == s[m..];
      Scaled(Pow256(m - 1), Le(s[m..]));
    }
  }

  lemma Scaled(p: int, b: int)
    ensures 256 * (p * b) == 256 * p * b
  {
  }

  // ---- What is read ----

  datatype Piece = Piece(at: nat, n: nat)

  /** How many of the loads read byte `x`. */
  function Count(loads: seq<Piece>, x: nat): nat {
    if loads == [] then 0 else
      var r := loads[|loads| - 1];
      Count(loads[..|loads| - 1], x) + Hit(r, x)
  }

  function Hit(r: Piece, x: nat): nat { if r.at <= x < r.at + r.n then 1 else 0 }

  lemma CountTwo(a: Piece, b: Piece, x: nat)
    ensures Count([a, b], x) == Hit(a, x) + Hit(b, x)
  {
    assert [a, b][..1] == [a] && [a][..0] == [];
    assert Count([a], x) == Hit(a, x);
  }

  /** The loads read every byte from `lo` to `hi` exactly once, and no other. */
  ghost predicate Covers(loads: seq<Piece>, lo: nat, hi: nat) {
    forall x: nat :: Count(loads, x) == if lo <= x < hi then 1 else 0
  }

  lemma {:induction false} CountJoin(a: seq<Piece>, b: seq<Piece>, x: nat)
    ensures Count(a + b, x) == Count(a, x) + Count(b, x)
  {
    if b == [] {
      assert a + b == a;
    } else {
      var n := |b| - 1;
      assert (a + b)[..|a + b| - 1] == a + b[..n];
      CountJoin(a, b[..n], x);
    }
  }

  lemma CoversJoin(a: seq<Piece>, b: seq<Piece>, lo: nat, mid: nat, hi: nat)
    requires lo <= mid <= hi && Covers(a, lo, mid) && Covers(b, mid, hi)
    ensures Covers(a + b, lo, hi)
  {
    forall x: nat ensures Count(a + b, x) == if lo <= x < hi then 1 else 0 { CountJoin(a, b, x); }
  }

  lemma CoversOne(at: nat, n: nat)
    ensures Covers([Piece(at, n)], at, at + n)
  {
    forall x: nat ensures Count([Piece(at, n)], x) == if at <= x < at + n then 1 else 0 {
      assert [Piece(at, n)][..0] == [];
    }
  }

  /** A load, noted in the log. */
  method Read(key: seq<Byte>, at: nat, n: nat, ghost lo: nat, ghost loads: seq<Piece>)
    returns (v: Word, ghost more: seq<Piece>)
    requires lo <= at && at + n <= |key| && n <= 8
    ensures v == Load(key, at, n) && more == loads + [Piece(at, n)]
    ensures Covers(loads, lo, at) ==> Covers(more, lo, at + n)
  {
    v := Load(key, at, n);
    more := loads + [Piece(at, n)];
    CoversOne(at, n);
    if Covers(loads, lo, at) { CoversJoin(loads, [Piece(at, n)], lo, at, at + n); }
  }

  // ---- The hash by position ----

  /** Lane `c` of the block state after `j` steps of 64 bytes, before and after the mixing that ends each
      block of eight steps. */
  function Unmixed(f: Factors, key: seq<Byte>, c: nat, j: nat): Word
    requires f.Ok() && c < 4 && 0 < j && 64 * j <= |key|
    decreases j, 0
  {
    var (at, k) := (64 * (j - 1) + 8 * c, 8 * ((j - 1) % 8) + c);
    Xor(Lane(f, key, c, j - 1),
        Val(XorFactor(Load(key, at, 8), f.At(k)), XorFactor(Load(key, at + 32, 8), f.At(k + 4))))
  }

  function Lane(f: Factors, key: seq<Byte>, c: nat, j: nat): Word
    requires f.Ok() && c < 4 && 64 * j <= |key|
    decreases j, 1
  {
    if j == 0 then 0 else
      var s := Unmixed(f, key, c, j);
      if j % 8 == 0 then Val(s, f.unroll[c]) else s
  }

  /** The state after the blocks of 512 bytes. */
  function AfterBlocks(f: Factors, start: Word, key: seq<Byte>): Word
    requires f.Ok()
  {
    var s := f.Mul(start, f.blockStart);
    var j := |key| / 512 * 8;
    if j == 0 then s else
      Sum(s, Xor(Xor(Xor(Lane(f, key, 0, j), Lane(f, key, 1, j)), Lane(f, key, 2, j)), Lane(f, key, 3, j)))
  }

  /** The state after `m` more pairs of words: mixed with their factors by xor in the groups of eight pairs
      that are complete, and by addition after them. */
  function AfterPairs(f: Factors, start: Word, key: seq<Byte>, m: nat): Word
    requires f.Ok() && |key| / 512 * 512 + 16 * m <= |key|
  {
    if m == 0 then AfterBlocks(f, start, key) else
      var base := |key| / 512 * 512;
      var (a, b) := (Load(key, base + 16 * (m - 1), 8), Load(key, base + 16 * (m - 1) + 8, 8));
      var (p, q) := (f.At(2 * (m - 1)), f.At(2 * m - 1));
      Xor(AfterPairs(f, start, key, m - 1),
          if m <= |key| % 512 / 128 * 8 then f.Mul(XorFactor(a, p), XorFactor(b, q))
          else f.Mul(PlusFactor(a, p), PlusFactor(b, q)))
  }

  /** The state after the last fewer than sixteen bytes, from `at` on, when `i` words have their factors. */
  function AfterTail(f: Factors, state: Word, key: seq<Byte>, at: nat, i: nat): Word
    requires f.Ok() && at <= |key| < at + 16 && i <= 62
  {
    var r := |key| - at;
    if r == 0 then state
    else if r < 8 then Xor(state, f.Mul(Sum(f.At(i + 8 - r), Load(key, at, r)), f.tail))
    else if r == 8 then Xor(state, f.Mul(Sum(Load(key, at, 8), f.At(i)), f.At(i)))
    else Xor(state, f.Mul(Xor(Sum(f.At(i + 16 - r), Load(key, at + 8, r - 8)), f.tail),
                        PlusFactor(Load(key, at, 8), f.At(i))))
  }

  /** Where the tail begins. */
  function TailAt(len: nat): (at: nat)
    ensures at <= len < at + 16
  {
    len / 512 * 512 + len % 512 / 16 * 16
  }

  function Hash(f: Factors, start: Word, key: seq<Byte>): Word
    requires f.Ok()
  {
    var m := |key| % 512 / 16;
    AfterTail(f, AfterPairs(f, start, key, m), key, TailAt(|key|), 2 * m)
  }

  // ---- The loops ----

  /** `_vmum_update_block` on the 64 bytes from `at` on and the factors of blocks `i` and `i + 1`. */
  method UpdateBlock(f: Factors, s: seq<Word>, key: seq<Byte>, at: nat, i: nat)
    returns (r: seq<Word>, ghost loads: seq<Piece>)
    requires f.Ok() && |s| == 4 && at + 64 <= |key| && i <= 14
    ensures |r| == 4 && Covers(loads, at, at + 64)
    ensures forall c :: 0 <= c < 4 ==> r[c] == Xor(s[c],
              Val(XorFactor(Load(key, at + 8 * c, 8), f.At(4 * i + c)),
                  XorFactor(Load(key, at + 8 * c + 32, 8), f.At(4 * i + 4 + c))))
  {
    hide Xor, XorFactor, Val, Load;
    r, loads := s, [];
    for c := 0 to 4
      invariant |r| == 4 && (forall d :: c <= d < 4 ==> r[d] == s[d])
      invariant forall d :: 0 <= d < c ==> r[d] == Xor(s[d],
                  Val(XorFactor(Load(key, at + 8 * d, 8), f.At(4 * i + d)),
                      XorFactor(Load(key, at + 8 * d + 32, 8), f.At(4 * i + 4 + d))))
      invariant forall x: nat :: Count(loads, x) ==
                  if at <= x < at + 8 * c || at + 32 <= x < at + 32 + 8 * c then 1 else 0
    {
      ghost var was := loads;
      var v, v2;
      v, loads := Read(key, at + 8 * c, 8, at, loads);
      v2, loads := Read(key, at + 8 * c + 32, 8, at, loads);
      r := r[c := Xor(r[c], Val(XorFactor(v, f.At(4 * i + c)), XorFactor(v2, f.At(4 * i + 4 + c))))];
      ghost var two := [Piece(at + 8 * c, 8), Piece(at + 8 * c + 32, 8)];
      assert loads == was + two;
      forall x: nat
        ensures Count(loads, x) == Count(was, x) +
                  if at + 8 * c <= x < at + 8 * c + 8 || at + 8 * c + 32 <= x < at + 8 * c + 40 then 1 else 0
      {
        CountJoin(was, two, x);
        CountTwo(two[0], two[1], x);
      }
    }
  }

  lemma UnmixedNext(f: Factors, key: seq<Byte>, c: nat, n: nat, k: nat)
    requires f.Ok() && c < 4 && k < 8 && 512 * n + 512 <= |key|
    ensures Unmixed(f, key, c, 8 * n + k + 1) ==
      Xor(Lane(f, key, c, 8 * n + k),
          Val(XorFactor(Load(key, 512 * n + 64 * k + 8 * c, 8), f.At(8 * k + c)),
              XorFactor(Load(key, 512 * n + 64 * k + 8 * c + 32, 8), f.At(8 * k + c + 4))))
  {
    hide Lane, Xor, XorFactor, Val, Load;
    assert (8 * n + k) % 8 == k;
  }

  /** The inner loop: block `n` of the key. */
  method BlockPass(f: Factors, s: seq<Word>, key: seq<Byte>, n: nat) returns (r: seq<Word>, ghost loads: seq<Piece>)
    requires f.Ok() && |s| == 4 && 512 * n + 512 <= |key|
    requires forall c :: 0 <= c < 4 ==> s[c] == Lane(f, key, c, 8 * n)
    ensures |r| == 4 && forall c :: 0 <= c < 4 ==> r[c] == Unmixed(f, key, c, 8 * n + 8)
    ensures Covers(loads, 512 * n, 512 * n + 512)
  {
    hide Xor, XorFactor, Val, Load, Unmixed, Covers;
    r, loads := s, [];
    CoversNone(512 * n);
    var i := 0;
    while i < 16
      invariant i <= 16 && i % 2 == 0 && |r| == 4 && Covers(loads, 512 * n, 512 * n + 32 * i)
      invariant forall c :: 0 <= c < 4 ==> r[c] == if i == 0 then s[c] else Unmixed(f, key, c, 8 * n + i / 2)
    {
      ghost var was := r;
      forall c | 0 <= c < 4
        ensures was[c] == Lane(f, key, c, 8 * n + i / 2)
      {
        assert (8 * n + i / 2) % 8 == i / 2;
      }
      ghost var more;
      r, more := UpdateBlock(f, r, key, 512 * n + 32 * i, i);
      forall c | 0 <= c < 4 ensures r[c] == Unmixed(f, key, c, 8 * n + i / 2 + 1) { UnmixedNext(f, key, c, n, i / 2); }
      CoversJoin(loads, more, 512 * n, 512 * n + 32 * i, 512 * n + 32 * i + 64);
      loads := loads + more;
      i := i + 2;
    }
  }

  lemma CoversNone(at: nat)
    ensures Covers([], at, at)
  {
  }

  /** The loop over blocks of 512 bytes. */
  method Blocks(f: Factors, start: Word, key: seq<Byte>)
    returns (state: Word, str: nat, len: nat, ghost loads: seq<Piece>)
    requires f.Ok()
    ensures state == AfterBlocks(f, start, key) && str == |key| / 512 * 512 && len == |key| - str
    ensures Covers(loads, 0, str)
  {
    hide Xor, XorFactor, Val, Load, Unmixed, Covers, MulBy, Sum;
    state := f.Mul(start, f.blockStart);
    str, len, loads := 0, |key|, [];
    CoversNone(0);
    if len >= 512 {
      var block := [0, 0, 0, 0];
      ghost var n := 0;
      while len >= 512
        invariant str == 512 * n && str + len == |key| && |block| == 4 && Covers(loads, 0, str)
        invariant forall c :: 0 <= c < 4 ==> block[c] == Lane(f, key, c, 8 * n)
      {
        ghost var more;
        block, more := BlockPass(f, block, key, str / 512);
        block := [Val(block[0], f.unroll[0]), Val(block[1], f.unroll[1]),
                  Val(block[2], f.unroll[2]), Val(block[3], f.unroll[3])];
        CoversJoin(loads, more, 0, str, str + 512);
        loads := loads + more;
        str, len, n := str + 512, len - 512, n + 1;
      }
      assert |key| / 512 == n;
      state := Sum(state, Xor(Xor(Xor(block[0], block[1]), block[2]), block[3]));
    }
  }

  /** How far the loops over pairs have come: words before word `i` from `str` on. */
  ghost predicate Paired(f: Factors, start: Word, key: seq<Byte>, str: nat, i: nat, state: Word, loads: seq<Piece>) {
    && f.Ok() && str == |key| / 512 * 512 && str + 8 * i <= |key| && i % 2 == 0
    && state == AfterPairs(f, start, key, i / 2) && Covers(loads, 0, str + 8 * i)
  }

  /** One more pair of words, mixed with their factors by xor or by addition. */
  method Pair(f: Factors, ghost start: Word, key: seq<Byte>, str: nat, i: nat, state: Word, xor: bool,
              ghost loads: seq<Piece>)
    returns (r: Word, ghost more: seq<Piece>)
    requires Paired(f, start, key, str, i, state, loads) && str + 8 * i + 16 <= |key|
    requires xor == (i < |key| % 512 / 128 * 16)
    ensures r == AfterPairs(f, start, key, i / 2 + 1)
    ensures Paired(f, start, key, str, i + 2, r, more)
  {
    hide Xor, XorFactor, PlusFactor, Load, Covers, MulBy, AfterBlocks;
    var a, b;
    a, more := Read(key, str + 8 * i, 8, 0, loads);
    b, more := Read(key, str + 8 * (i + 1), 8, 0, more);
    if xor {
      r := Xor(state, f.Mul(XorFactor(a, f.At(i)), XorFactor(b, f.At(i + 1))));
    } else {
      r := Xor(state, f.Mul(PlusFactor(a, f.At(i)), PlusFactor(b, f.At(i + 1))));
    }
  }

  /** Group `k` of the unrolled loop. */
  method Group(f: Factors, ghost start: Word, key: seq<Byte>, str: nat, i0: nat, state0: Word, ghost k: nat,
               ghost loads0: seq<Piece>)
    returns (state: Word, i: nat, ghost loads: seq<Piece>)
    requires Paired(f, start, key, str, i0, state0, loads0) && i0 == 16 * k && 128 * k + 128 <= |key| % 512
    ensures Paired(f, start, key, str, i, state, loads) && i == i0 + 16
  {
    hide Paired, AfterPairs;
    PairedAt(f, start, key, str, i0, state0, loads0);
    assert k < |key| % 512 / 128;
    state, i, loads := state0, i0, loads0;
    var j := 0;
    while j < 16
      invariant j <= 16 && j % 2 == 0 && i == i0 + j && Paired(f, start, key, str, i, state, loads)
    {
      state, loads := Pair(f, start, key, str, i, state, true, loads);
      j, i := j + 2, i + 2;
    }
  }

  /** The pairs after the last complete group. */
  method Rest(f: Factors, ghost start: Word, key: seq<Byte>, str: nat, i0: nat, state0: Word, n: nat,
              ghost loads0: seq<Piece>)
    returns (state: Word, i: nat, ghost loads: seq<Piece>)
    requires Paired(f, start, key, str, i0, state0, loads0) && i0 == |key| % 512 / 128 * 16
    requires n % 2 == 0 && 8 * (i0 + n) <= |key| % 512
    ensures Paired(f, start, key, str, i, state, loads) && i == i0 + n
  {
    hide Paired, AfterPairs;
    PairedAt(f, start, key, str, i0, state0, loads0);
    state, i, loads := state0, i0, loads0;
    var j := 0;
    while j < n
      invariant j <= n && j % 2 == 0 && i == i0 + j && Paired(f, start, key, str, i, state, loads)
    {
      state, loads := Pair(f, start, key, str, i, state, false, loads);
      j, i := j + 2, i + 2;
    }
  }

  /** The unrolled loop and the loop over the remaining pairs. */
  method Pairs(f: Factors, ghost start: Word, key: seq<Byte>, str: nat, len0: nat, state0: Word,
               ghost loads0: seq<Piece>)
    returns (state: Word, i: nat, len: nat, ghost loads: seq<Piece>)
    requires Paired(f, start, key, str, 0, state0, loads0) && len0 == |key| - str
    ensures Paired(f, start, key, str, i, state, loads) && i == |key| % 512 / 16 * 2 && str + 8 * i + len == |key|
  {
    hide Paired, AfterPairs;
    PairedAt(f, start, key, str, 0, state0, loads0);
    state, i, len, loads := state0, 0, len0, loads0;
    ghost var k := 0;
    while len >= 128
      invariant i == 16 * k && 128 * k + len == |key| % 512 && Paired(f, start, key, str, i, state, loads)
    {
      state, i, loads := Group(f, start, key, str, i, state, k, loads);
      len, k := len - 128, k + 1;
    }
    var n := len / 8 - len / 8 % 2;
    PairCount(|key| % 512, k, len, n);
    state, i, loads := Rest(f, start, key, str, i, state, n, loads);
    len := len - 8 * n;
  }

  lemma PairCount(body: nat, k: nat, len: nat, n: nat)
    requires 128 * k + len == body && len < 128 && n == len / 8 - len / 8 % 2
    ensures body / 128 == k && n % 2 == 0 && 8 * n <= len && body / 16 * 2 == 16 * k + n
  {
    var q, r := len / 16, len % 16;
    Sixteens(q, r);
    assert n == 2 * q;
    Sixteens(8 * k + q, r);
  }

  lemma Sixteens(q: nat, r: nat)
    requires r < 16
    ensures (16 * q + r) / 16 == q && (16 * q + r) / 8 == 2 * q + r / 8
  {
  }

  lemma PairsStart(f: Factors, start: Word, key: seq<Byte>, str: nat, loads: seq<Piece>)
    requires f.Ok() && str == |key| / 512 * 512 && Covers(loads, 0, str)
    ensures Paired(f, start, key, str, 0, AfterBlocks(f, start, key), loads)
  {
    hide AfterBlocks, Covers;
  }

  /** Where the loops over pairs end. */
  lemma PairsEnd(f: Factors, start: Word, key: seq<Byte>, str: nat, i: nat, state: Word, loads: seq<Piece>)
    requires Paired(f, start, key, str, i, state, loads) && i == |key| % 512 / 16 * 2
    ensures i <= 62 && str + 8 * i == TailAt(|key|) && Covers(loads, 0, str + 8 * i)
    ensures Hash(f, start, key) == AfterTail(f, state, key, str + 8 * i, i)
  {
    hide AfterPairs, AfterTail, Covers;
  }

  lemma PairedAt(f: Factors, start: Word, key: seq<Byte>, str: nat, i: nat, state: Word, loads: seq<Piece>)
    requires Paired(f, start, key, str, i, state, loads)
    ensures f.Ok() && str == |key| / 512 * 512 && |key| - str == |key| % 512
  {
  }

  // ---- The tail ----

  lemma LoadPieces(key: seq<Byte>, at: nat, n: nat, m: nat)
    requires at + n <= |key| && m <= n <= 8
    ensures Load(key, at, n) == Load(key, at, m) + Pow256(m) * Load(key, at + m, n - m)
  {
    hide Pow256, Le;
    var s := key[at..at + n];
    LePieces(s, m);
    assert s[..m] == key[at..at + m] && s[m..] == key[at + m..at + n];
  }

  lemma LoadBound(key: seq<Byte>, at: nat, n: nat)
    requires at + n <= |key| && n <= 8
    ensures Load(key, at, n) < Pow256(n)
  {
    LeBound(key[at..at + n]);
  }

  lemma SumSum(p: Word, a: Word, b: Word)
    requires a + b < B64
    ensures Sum(Sum(p, a), b) == Sum(p, a + b)
  {
    Reduced(p + a, b);
  }

  /** A load of one or two bytes, and the two ways to put a value together from pieces. */
  lemma Small(key: seq<Byte>, at: nat)
    ensures at + 1 <= |key| ==> Load(key, at, 1) < 0x100
    ensures at + 2 <= |key| ==> Load(key, at, 2) < 0x1_0000
  {
    hide Load;
    assert Pow256(1) == 0x100 && Pow256(2) == 0x1_0000;
    if at + 1 <= |key| { LoadBound(key, at, 1); }
    if at + 2 <= |key| { LoadBound(key, at, 2); }
  }

  lemma TwoPieces(p: Word, key: seq<Byte>, at: nat, m: nat, n: nat)
    requires at + n <= |key| && m < n < 8 && (m == 2 || m == 4) && n - m <= 2
    ensures
      var scale := if m == 4 then B32 else 0x1_0000;
      var high := Load(key, at + m, n - m) * scale;
      high < B64 && Sum(Sum(p, Load(key, at, m)), high) == Sum(p, Load(key, at, n))
  {
    hide Load, Sum;
    Small(key, at + m);
    assert Pow256(2) == 0x1_0000 && Pow256(4) == B32;
    LoadPieces(key, at, n, m);
    SumSum(p, Load(key, at, m), Load(key, at + m, n - m) * if m == 4 then B32 else 0x1_0000);
  }

  lemma SevenPieces(p: Word, key: seq<Byte>, at: nat)
    requires at + 7 <= |key|
    ensures
      var high := Load(key, at + 4, 2) * B32 + Load(key, at + 6, 1) * 0x1_0000_0000_0000;
      high < B64 && Sum(Sum(p, Load(key, at, 4)), high) == Sum(p, Load(key, at, 7))
  {
    hide Load, Sum;
    Small(key, at + 4);
    Small(key, at + 6);
    assert Pow256(2) == 0x1_0000 && Pow256(4) == B32;
    LoadPieces(key, at, 7, 4);
    LoadPieces(key, at + 4, 3, 2);
    SumSum(p, Load(key, at, 4), Load(key, at + 4, 2) * B32 + Load(key, at + 6, 1) * 0x1_0000_0000_0000);
  }

  /** The sum of a factor and up to seven bytes, put together from loads of four, two and one bytes. */
  method Leftover(p: Word, key: seq<Byte>, at: nat, r: nat) returns (u: Word, ghost loads: seq<Piece>)
    requires 1 <= r <= 7 && at + r <= |key|
    ensures u == Sum(p, Load(key, at, r)) && Covers(loads, at, at + r)
  {
    hide Load, Covers, Sum, Pow256;
    Small(key, at);
    CoversNone(at);
    loads := [];
    var a, b, c;
    match r {
      case 7 =>
        SevenPieces(p, key, at);
        a, loads := Read(key, at, 4, at, loads);
        b, loads := Read(key, at + 4, 2, at, loads);
        c, loads := Read(key, at + 6, 1, at, loads);
        u := Sum(Sum(p, a), b * B32 + c * 0x1_0000_0000_0000);
      case 6 =>
        TwoPieces(p, key, at, 4, 6);
        a, loads := Read(key, at, 4, at, loads);
        b, loads := Read(key, at + 4, 2, at, loads);
        u := Sum(Sum(p, a), b * B32);
      case 5 =>
        TwoPieces(p, key, at, 4, 5);
        a, loads := Read(key, at, 4, at, loads);
        c, loads := Read(key, at + 4, 1, at, loads);
        u := Sum(Sum(p, a), c * B32);
      case 4 =>
        a, loads := Read(key, at, 4, at, loads);
        u := Sum(p, a);
      case 3 =>
        TwoPieces(p, key, at, 2, 3);
        b, loads := Read(key, at, 2, at, loads);
        c, loads := Read(key, at + 2, 1, at, loads);
        u := Sum(Sum(p, b), c * 0x1_0000);
      case 2 =>
        b, loads := Read(key, at, 2, at, loads);
        u := Sum(p, b);
      case 1 =>
        c, loads := Read(key, at, 1, at, loads);
        u := Sum(p, c);
    }
  }

  /** The switch on the number of bytes left, from `str` on; `i` words have their factors. */
  method TailOf(f: Factors, key: seq<Byte>, str: nat, len: nat, i: nat, state: Word)
    returns (h: Word, ghost loads: seq<Piece>)
    requires f.Ok() && str + len == |key| && len < 16 && i <= 62
    ensures h == AfterTail(f, state, key, str, i) && Covers(loads, str, |key|)
  {
    hide Load, Covers, Sum, PlusFactor, Xor, MulBy;
    CoversNone(str);
    if len == 0 {
      return state, [];
    }
    var w, u;
    if len < 8 {
      u, loads := Leftover(f.At(i + 8 - len), key, str, len);
      h := Xor(state, f.Mul(u, f.tail));
    } else {
      w, loads := Read(key, str, 8, str, []);
      if len == 8 {
        h := Xor(state, f.Mul(Sum(w, f.At(i)), f.At(i)));
      } else {
        ghost var more;
        u, more := Leftover(f.At(i + 16 - len), key, str + 8, len - 8);
        CoversJoin(loads, more, str, str + 8, |key|);
        loads := loads + more;
        h := Xor(state, f.Mul(Xor(u, f.tail), PlusFactor(w, f.At(i))));
      }
    }
  }

  /** `_vmum_hash_aligned`: the hash defined by position, with every byte of the key read exactly once and
      none outside it. */
  method HashAligned(f: Factors, start: Word, key: seq<Byte>) returns (h: Word, ghost loads: seq<Piece>)
    requires f.Ok()
    ensures h == Hash(f, start, key)
    ensures Covers(loads, 0, |key|)
  {
    hide AfterPairs, AfterTail, AfterBlocks, Covers, Paired, Hash;
    var state, str, len, i;
    state, str, len, loads := Blocks(f, start, key);
    PairsStart(f, start, key, str, loads);
    state, i, len, loads := Pairs(f, start, key, str, len, state, loads);
    PairsEnd(f, start, key, str, i, state, loads);
    ghost var more;
    h, more := TailOf(f, key, str + 8 * i, len, i, state);
    CoversJoin(loads, more, 0, str + 8 * i, |key|);
    loads := loads + more;
  }

  // ---- The target ----

  /** With the carries the hash is the same on targets with and without 128-bit integers. */
  lemma HashIsPortable(f: Factors, start: Word, key: seq<Byte>)
    requires f.Ok()
    ensures Hash(f.(form := Portable(true)), start, key) == Hash(f.(form := Wide), start, key)
  {
    hide Xor, Sum, XorFactor, PlusFactor, Val, Load, MulBy, AfterPairs;
    var (a, b) := (f.(form := Portable(true)), f.(form := Wide));
    forall v: Word, p: Word ensures MulBy(Portable(true), v, p) == MulBy(Wide, v, p) { FormsAgree(v, p); }
    PairsArePortable(f, start, key, |key| % 512 / 16);
  }

  lemma {:induction false} PairsArePortable(f: Factors, start: Word, key: seq<Byte>, m: nat)
    requires f.Ok() && |key| / 512 * 512 + 16 * m <= |key|
    ensures AfterPairs(f.(form := Portable(true)), start, key, m) == AfterPairs(f.(form := Wide), start, key, m)
  {
    hide Xor, Sum, XorFactor, PlusFactor, Val, Load, MulBy, AfterBlocks;
    forall v: Word, p: Word ensures MulBy(Portable(true), v, p) == MulBy(Wide, v, p) { FormsAgree(v, p); }
    if m == 0 {
      BlocksArePortable(f, start, key);
    } else {
      PairsArePortable(f, start, key, m - 1);
    }
  }

  lemma BlocksArePortable(f: Factors, start: Word, key: seq<Byte>)
    requires f.Ok()
    ensures AfterBlocks(f.(form := Portable(true)), start, key) == AfterBlocks(f.(form := Wide), start, key)
  {
    hide Xor, Sum, XorFactor, Val, Load, MulBy, Lane;
    FormsAgree(start, f.blockStart);
    var j := |key| / 512 * 8;
    forall c: nat | c < 4 ensures Lane(f.(form := Portable(true)), key, c, j) == Lane(f.(form := Wide), key, c, j) {
      LaneIsPortable(f, key, c, j);
    }
  }

  lemma {:induction false} LaneIsPortable(f: Factors, key: seq<Byte>, c: nat, j: nat)
    requires f.Ok() && c < 4 && 64 * j <= |key|
    ensures Lane(f.(form := Portable(true)), key, c, j) == Lane(f.(form := Wide), key, c, j)
  {
    hide Xor, XorFactor, Val, Load;
    if j > 0 { LaneIsPortable(f, key, c, j - 1); }
  }
}
