/** Bitwise `&` and `|` on unsigned integers of any width, powers of two, and the facts about
    masks of the form 2^k - 1 that the tables rely on when they turn a hash into an index. */
module BitMath {

  function Pow2(k: nat): (p: nat)
    ensures p > 0
  {
    if k == 0 then 1 else 2 * Pow2(k - 1)
  }

  predicate IsPow2(n: nat) {
    n == 1 || (n > 1 && n % 2 == 0 && IsPow2(n / 2))
  }

  /** Bit `k` of `x`. */
  function Bit(x: nat, k: nat): (b: nat)
    ensures b < 2
  {
    if k == 0 then x % 2 else Bit(x / 2, k - 1)
  }

  function And(x: nat, y: nat): (r: nat) {
    if x == 0 || y == 0 then 0 else 2 * And(x / 2, y / 2) + (x % 2) * (y % 2)
  }

  function Or(x: nat, y: nat): (r: nat) {
    if x == 0 then y else if y == 0 then x else
      2 * Or(x / 2, y / 2) + if x % 2 + y % 2 > 0 then 1 else 0
  }

  lemma {:induction false} Pow2IsPow2(k: nat)
    ensures IsPow2(Pow2(k))
  {
    if k > 0 { Pow2IsPow2(k - 1); }
  }

  lemma {:induction false} IsPow2Exponent(n: nat) returns (k: nat)
    requires IsPow2(n)
    ensures n == Pow2(k)
  {
    if n == 1 { k := 0; } else { k := IsPow2Exponent(n / 2); k := k + 1; }
  }

  lemma DoublePow2(n: nat)
    requires IsPow2(n)
    ensures IsPow2(2 * n)
  {
    assert 2 * n / 2 == n;
  }

  lemma Pow2Values()
    ensures Pow2(14) == 0x4000 && Pow2(15) == 0x8000
  {
    assert Pow2(7) == 128;
    Pow2Add(7, 7);
  }

  /** No power of two lies strictly between two neighbours. */
  lemma Pow2Gap(n: nat, k: nat)
    requires IsPow2(n)
    ensures n <= Pow2(k) || n >= Pow2(k + 1)
    ensures n < Pow2(k) ==> 2 * n <= Pow2(k)
  {
    var j := IsPow2Exponent(n);
    if j <= k { Pow2Monotone(j, k); } else { Pow2Monotone(k + 1, j); }
  }

  lemma {:induction false} Pow2Add(a: nat, b: nat)
    ensures Pow2(a + b) == Pow2(a) * Pow2(b)
  {
    if a > 0 {
      Pow2Add(a - 1, b);
      assert Pow2(a + b) == 2 * (Pow2(a - 1) * Pow2(b));
    }
  }

  lemma {:induction false} Pow2Monotone(a: nat, b: nat)
    requires a <= b
    ensures Pow2(a) <= Pow2(b)
    ensures a < b ==> 2 * Pow2(a) <= Pow2(b)
    decreases b
  {
    if a < b { Pow2Monotone(a, b - 1); }
  }

  lemma MulBound(m: int, d: int)
    requires m > 0
    ensures d >= 1 ==> m * d >= m
    ensures d <= -1 ==> m * d <= -m
  {
  }

  /** Euclidean division is determined by its defining equation. */
  lemma DivModUnique(x: int, m: int, q: int, r: int)
    requires m > 0 && 0 <= r < m && x == m * q + r
    ensures x / m == q && x % m == r
  {
    var dq, dr := x / m - q, x % m - r;
    assert x == m * (x / m) + x % m;
    assert m * dq == -dr;
    MulBound(m, dq);
  }

  /** Halving `x` before reducing it. */
  lemma HalfMod(x: nat, m: nat)
    requires m > 0
    ensures x % (2 * m) == 2 * (x / 2 % m) + x % 2
    ensures x / (2 * m) == x / 2 / m
  {
    var h := x / 2;
    assert h == m * (h / m) + h % m;
    assert x == 2 * m * (h / m) + (2 * (h % m) + x % 2);
    DivModUnique(x, 2 * m, h / m, 2 * (h % m) + x % 2);
  }

  /** Masking with 2^k - 1 is reduction modulo 2^k. */
  lemma {:induction false} AndLowMask(x: nat, k: nat)
    ensures And(x, Pow2(k) - 1) == x % Pow2(k)
  {
    if k == 0 {
    } else if x == 0 {
    } else {
      AndLowMask(x / 2, k - 1);
      HalfMod(x, Pow2(k - 1));
      assert (Pow2(k) - 1) / 2 == Pow2(k - 1) - 1 && (Pow2(k) - 1) % 2 == 1;
    }
  }

  /** Bit `k` is the parity of the quotient by 2^k. */
  lemma {:induction false} BitIsQuotient(x: nat, k: nat)
    ensures Bit(x, k) == x / Pow2(k) % 2
  {
    if k > 0 {
      BitIsQuotient(x / 2, k - 1);
      HalfMod(x, Pow2(k - 1));
    }
  }

  /** Masking with a single bit. */
  lemma {:induction false} AndBit(x: nat, k: nat)
    ensures And(x, Pow2(k)) == Bit(x, k) * Pow2(k)
  {
    if x == 0 {
      BitZero(k);
    } else if k == 0 {
      assert And(x / 2, 0) == 0;
    } else {
      AndBit(x / 2, k - 1);
      assert Pow2(k) / 2 == Pow2(k - 1) && Pow2(k) % 2 == 0;
      assert Bit(x, k) * Pow2(k) == 2 * (Bit(x / 2, k - 1) * Pow2(k - 1));
    }
  }

  lemma {:induction false} BitZero(k: nat)
    ensures Bit(0, k) == 0
  {
    if k > 0 { BitZero(k - 1); }
  }

  /** Setting a bit above all bits of `x` is an addition. */
  lemma {:induction false} OrBit(x: nat, k: nat)
    requires x < Pow2(k)
    ensures Or(x, Pow2(k)) == x + Pow2(k)
  {
    if k > 0 && x > 0 {
      OrBit(x / 2, k - 1);
      assert Pow2(k) / 2 == Pow2(k - 1) && Pow2(k) % 2 == 0;
    }
  }

  /** One more bit of a residue. */
  lemma ModNextBit(x: nat, k: nat)
    ensures x % Pow2(k + 1) == x % Pow2(k) + Bit(x, k) * Pow2(k)
  {
    BitIsQuotient(x, k);
    NextMod(x, Pow2(k));
  }

  lemma NextMod(x: nat, p: nat)
    requires p > 0
    ensures x % (2 * p) == x % p + x / p % 2 * p
  {
    var q, r := x / p, x % p;
    assert x == p * q + r;
    Regrouped(p, q, q / 2, q % 2);
    DivModUnique(x, 2 * p, q / 2, q % 2 * p + r);
  }

  lemma Regrouped(p: int, q: int, h: int, b: int)
    requires q == 2 * h + b && 0 <= b < 2 && 0 < p
    ensures p * q == 2 * p * h + b * p && 0 <= b * p <= p
  {
    assert p * (2 * h + b) == 2 * p * h + b * p;
  }

  /** Reducing further forgets the larger modulus. */
  lemma {:induction false} ModMod(x: nat, a: nat, b: nat)
    requires a <= b
    ensures x % Pow2(b) % Pow2(a) == x % Pow2(a)
  {
    if a > 0 {
      var y := x % Pow2(b);
      HalfMod(x, Pow2(b - 1));
      assert y / 2 == x / 2 % Pow2(b - 1) && y % 2 == x % 2;
      HalfMod(x, Pow2(a - 1));
      HalfMod(y, Pow2(a - 1));
      ModMod(x / 2, a - 1, b - 1);
    }
  }

  /** The low bits agree when the residues do. */
  lemma {:induction false} BitOfMod(x: nat, j: nat, k: nat)
    requires j < k
    ensures Bit(x % Pow2(k), j) == Bit(x, j)
  {
    var m := Pow2(k - 1);
    HalfMod(x, m);
    var y := x % Pow2(k);
    assert y / 2 == x / 2 % m && y % 2 == x % 2;
    if j > 0 { BitOfMod(x / 2, j - 1, k - 1); }
  }

  /** The low `k` bits of `x`. */
  function Low(x: nat, k: nat): (r: nat)
    ensures r < Pow2(k)
  {
    x % Pow2(k)
  }

  lemma LowNext(x: nat, k: nat)
    ensures Low(x, k + 1) == if Bit(x, k) == 0 then Low(x, k) else Low(x, k) + Pow2(k)
  {
    ModNextBit(x, k);
  }

  lemma LowLow(x: nat, a: nat, b: nat)
    requires a <= b
    ensures Low(Low(x, b), a) == Low(x, a)
  {
    ModMod(x, a, b);
  }

  lemma LowSmall(x: nat, k: nat)
    requires x < Pow2(k)
    ensures Low(x, k) == x
  {
    DivModUnique(x, Pow2(k), 0, x);
  }

  lemma LowBit(x: nat, j: nat, k: nat)
    requires j < k
    ensures Bit(Low(x, k), j) == Bit(x, j)
  {
    BitOfMod(x, j, k);
  }

  /** A residue with one more bit in front of it. */
  lemma LowOfSum(x: nat, k: nat)
    requires x < Pow2(k)
    ensures Low(x + Pow2(k), k) == x && Bit(x + Pow2(k), k) == 1 && Bit(x, k) == 0
    ensures Low(x + Pow2(k), k + 1) == x + Pow2(k) && Low(x, k + 1) == x
  {
    var p := Pow2(k);
    DivModUnique(x + p, p, 1, x);
    DivModUnique(x, p, 0, x);
    BitIsQuotient(x + p, k);
    BitIsQuotient(x, k);
    LowSmall(x + p, k + 1);
    LowSmall(x, k + 1);
  }

  lemma AndMask(x: nat, mask: nat)
    requires IsPow2(mask + 1)
    ensures And(x, mask) == x % (mask + 1)
  {
    var k := IsPow2Exponent(mask + 1);
    AndLowMask(x, k);
  }

  lemma ModWrap(g: nat, n: nat)
    requires g < n
    ensures (g + 1) % n == if g + 1 == n then 0 else g + 1
  {
    if g + 1 == n {
      DivModUnique(g + 1, n, 1, 0);
    } else {
      DivModUnique(g + 1, n, 0, g + 1);
    }
  }

  /** The step to the next group index: `(g + 1) & mask` wraps to zero after the last group. */
  lemma AndSuccessor(g: nat, mask: nat)
    requires IsPow2(mask + 1) && g <= mask
    ensures And(g + 1, mask) == if g == mask then 0 else g + 1
  {
    AndMask(g + 1, mask);
    ModWrap(g, mask + 1);
  }

  /** Setting bit `k` changes no other bit. */
  lemma {:induction false} BitOr(x: nat, k: nat, j: nat)
    ensures Bit(Or(x, Pow2(k)), j) == if j == k then 1 else Bit(x, j)
  {
    var y := Or(x, Pow2(k));
    if x == 0 {
      BitPow2(k, j);
      BitZero(j);
    } else if k == 0 {
      assert Or(x / 2, 0) == x / 2;
    } else {
      assert Pow2(k) / 2 == Pow2(k - 1) && Pow2(k) % 2 == 0;
      assert y / 2 == Or(x / 2, Pow2(k - 1)) && y % 2 == x % 2;
      if j > 0 { BitOr(x / 2, k - 1, j - 1); }
    }
  }

  lemma {:induction false} BitPow2(k: nat, j: nat)
    ensures Bit(Pow2(k), j) == if j == k then 1 else 0
  {
    if k == 0 {
      if j > 0 { BitZero(j - 1); }
    } else if j > 0 {
      assert Pow2(k) / 2 == Pow2(k - 1);
      BitPow2(k - 1, j - 1);
    }
  }
}
