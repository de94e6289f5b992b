/** Exclusive or on words: the laws of bit vectors, carried over to the integers below 2^64. */
module XorWords {
  import opened Vmum
  import opened VmumHash

  lemma Doubled(y: bv64)
    requires y < 0x8000_0000_0000_0000
    ensures (y << 1) as int == 2 * (y as int) && ((y << 1) | 1) as int == 2 * (y as int) + 1
  {
  }

  lemma TopBit(y: bv64)
    requires y as int < 0x8000_0000_0000_0000
    ensures y < 0x8000_0000_0000_0000
  {
  }

  /** Every word is the value of a bit vector, built from its binary digits. */
  lemma {:induction false} Vector(a: Word) returns (x: bv64)
    ensures x as int == a
  {
    if a == 0 {
      x := 0;
    } else {
      var y := Vector(a / 2);
      TopBit(y);
      Doubled(y);
      x := if a % 2 == 0 then y << 1 else (y << 1) | 1;
    }
  }

  lemma VectorOf(a: Word, x: bv64)
    requires x as int == a
    ensures a as bv64 == x
  {
  }

  /** A word is converted to a bit vector and back. */
  lemma RoundTrip(a: Word)
    ensures (a as bv64) as int == a
  {
    var x := Vector(a);
    VectorOf(a, x);
  }

  function Vec(a: Word): bv64 { a as bv64 }

  function Value(x: bv64): Word { x as int }

  function Join(x: bv64, y: bv64): bv64 { x ^ y }

  lemma XorIsJoin(a: Word, b: Word)
    ensures Xor(a, b) == Value(Join(Vec(a), Vec(b)))
  {
  }

  lemma VecOfValue(x: bv64)
    ensures Vec(Value(x)) == x
  {
  }

  lemma JoinLaws(x: bv64, y: bv64, z: bv64)
    ensures Join(Join(x, y), z) == Join(x, Join(y, z)) && Join(x, y) == Join(y, x)
  {
  }

  lemma XorComm(a: Word, b: Word)
    ensures Xor(a, b) == Xor(b, a)
  {
  }

  lemma XorAssoc(a: Word, b: Word, c: Word)
    ensures Xor(Xor(a, b), c) == Xor(a, Xor(b, c))
  {
    hide Xor, Vec, Value, Join;
    XorIsJoin(a, b);
    XorIsJoin(b, c);
    XorIsJoin(Xor(a, b), c);
    XorIsJoin(a, Xor(b, c));
    VecOfValue(Join(Vec(a), Vec(b)));
    VecOfValue(Join(Vec(b), Vec(c)));
    JoinLaws(Vec(a), Vec(b), Vec(c));
  }

  lemma XorZero(a: Word)
    ensures Xor(a, 0) == a && Xor(a, a) == 0
  {
    RoundTrip(a);
  }

  /** Only equal words cancel. */
  lemma XorCancels(a: Word, b: Word)
    ensures Xor(a, b) == 0 <==> a == b
  {
    XorZero(a);
    XorZero(b);
    XorAssoc(a, b, b);
    XorComm(0, b);
  }
}
