/** The deletion bitmap: bit `i % 8` of byte `i / 8` says that element `i` is deleted. */
module Bitmap {
  import opened BitMath

  predicate Dead(bytes: array<nat>, i: nat)
    requires i / 8 < bytes.Length
    reads bytes
  {
    Bit(bytes[i / 8], i % 8) == 1
  }

  /** `bytes[i / 8] & (1 << (i % 8))`. */
  method Test(bytes: array<nat>, i: nat) returns (dead: bool)
    requires i / 8 < bytes.Length
    ensures dead == Dead(bytes, i)
  {
    AndBit(bytes[i / 8], i % 8);
    dead := And(bytes[i / 8], Pow2(i % 8)) != 0;
  }

  /** `bytes[i / 8] |= 1 << (i % 8)`. */
  method Mark(bytes: array<nat>, i: nat)
    requires i / 8 < bytes.Length
    modifies bytes
    ensures forall j :: 0 <= j < 8 * bytes.Length ==> Dead(bytes, j) == (j == i || old(Dead(bytes, j)))
  {
    var b := bytes[i / 8];
    bytes[i / 8] := Or(b, Pow2(i % 8));
    forall j | 0 <= j < 8 * bytes.Length
      ensures Dead(bytes, j) == (j == i || old(Dead(bytes, j)))
    {
      if j / 8 == i / 8 { BitOr(b, i % 8, j % 8); }
    }
  }

  /** `calloc`: a bitmap with no bit set. */
  method Create(n: nat) returns (bytes: array<nat>)
    ensures fresh(bytes) && bytes.Length == n
    ensures forall j :: 0 <= j < 8 * n ==> !Dead(bytes, j)
  {
    bytes := new nat[n](_ => 0);
    forall j | 0 <= j < 8 * n ensures !Dead(bytes, j) { BitZero(j % 8); }
  }

  /** `memset` of the whole bitmap to zero. */
  method Clear(bytes: array<nat>)
    modifies bytes
    ensures forall j :: 0 <= j < 8 * bytes.Length ==> !Dead(bytes, j)
  {
    for i := 0 to bytes.Length
      invariant forall k :: 0 <= k < i ==> bytes[k] == 0
    {
      bytes[i] := 0;
    }
    forall j | 0 <= j < 8 * bytes.Length ensures !Dead(bytes, j) { BitZero(j % 8); }
  }
}
