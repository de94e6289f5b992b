/** The inner loop of `ixht_split_bin`: the elements of one bin, distributed over it and a new one. */
module Distribution {
  import opened BitMath
  import opened Bins
  import Bitmap
  import D = Dense
  import opened Extendible
  import opened Keys
  import opened Probe

  // ---- Distributing the elements of one bin over two ----

  /** A bin that holds the elements of `l` with value `v` in hash bit `k`. */
  ghost predicate Half<El(0,!new)>(x: Bin<El>, l: seq<El>, k: nat, v: nat)
    reads x, x.Repr
  {
    && x.Core() && x.Written(x.bound)
    && x.ix.els == Side(x.o, l, k, v) && x.ix.at.Keys == D.Upto(|x.ix.els|)
  }

  /** The entries of the split bin that have not been read yet, and its bitmap. */
  ghost predicate Source<El(0,!new)>(b: Bin<El>, i: nat, e0: seq<El>, dead: set<nat>)
    reads b, b.els, b.deleted
  {
    && i <= |e0| <= b.els.Length && |e0| <= 8 * b.deleted.Length
    && (forall j :: i <= j < |e0| ==> b.els[j] == e0[j])
    && (forall j :: 0 <= j < |e0| ==> Bitmap.Dead(b.deleted, j) == (j in dead))
  }

  /** The elements read so far. */
  ghost function Reading<El>(e0: seq<El>, dead: set<nat>, i: nat): seq<El>
    requires i <= |e0|
  {
    D.Survivors(e0[..i], D.Upto(|e0|) - dead)
  }

  /** The bins `b` and `n` while the elements of `b` are distributed by hash bit `k`: `i` entries have been
      read.  `b` is filled from the front of the array it is read from. */
  ghost predicate Splitting<El(0,!new)>(b: Bin<El>, n: Bin<El>, k: nat, i: nat, e0: seq<El>, dead: set<nat>)
    reads b, b.Repr, b.els, b.deleted, n, n.Repr
  {
    && Source(b, i, e0, dead)
    && Half(b, Reading(e0, dead, i), k, 0) && Half(n, Reading(e0, dead, i), k, 1)
    && b.o == n.o && |e0| <= n.els.Length && Distinct(b.o, e0, D.Upto(|e0|) - dead)
  }

  lemma SideNext<El>(o: Ops<El>, l: seq<El>, e: El, k: nat, v: nat)
    ensures Side(o, l + [e], k, v) == Side(o, l, k, v) + if Bit(Hash(o, e), k) == v then [e] else []
  {
    assert (l + [e])[..|l|] == l;
  }

  lemma SideAbsent<El>(o: Ops<El>, l: seq<El>, e: El, k: nat, v: nat)
    requires Absent(o, l, D.Upto(|l|), e)
    ensures Absent(o, Side(o, l, k, v), D.Upto(|Side(o, l, k, v)|), e)
  {
    var r := Side(o, l, k, v);
    forall j | j in D.Upto(|r|) && j < |r| ensures !Eq(o, r[j], e) { var i := SideFrom(o, l, k, v, j); }
  }

  /** One step of the distribution. */
  lemma SplitStep<El>(o: Ops<El>, e0: seq<El>, live: set<nat>, i: nat, k: nat, v: nat)
    requires i < |e0| && (forall j :: j in live ==> j < |e0|) && Distinct(o, e0, live)
    ensures
      var s := Side(o, D.Survivors(e0[..i], live), k, v);
      var t := Side(o, D.Survivors(e0[..i + 1], live), k, v);
      && |s| <= i
      && if i in live && Bit(Hash(o, e0[i]), k) == v then
           t == s + [e0[i]] && D.Upto(|t|) == D.Upto(|s|) + {|s|} && Absent(o, s, D.Upto(|s|), e0[i])
         else t == s
  {
    hide D.Survivors, D.Upto, Absent, Distinct, Side;
    D.CopyStep(o, e0, live, i);
    var l := D.Survivors(e0[..i], live);
    if i in live {
      SideNext(o, l, e0[i], k, v);
      SideAbsent(o, l, e0[i], k, v);
      D.UptoNext(|Side(o, l, k, v)|);
    }
  }

  /** Element `e` put behind the elements its bin already got. */
  method MoveTo<El(0,!new)>(x: Bin<El>, e: El, k: nat, ghost v: nat, ghost l: seq<El>)
    requires Half(x, l, k, v) && x.bound < x.els.Length && x.bound < x.Limit()
    requires Bit(Hash(x.o, e), k) == v && Absent(x.o, x.ix.els, D.Upto(|x.ix.els|), e)
    modifies x.Repr
    ensures x.Kept() && Half(x, l + [e], k, v) && x.bound == old(x.bound) + 1
    ensures forall j :: old(x.bound) < j < x.els.Length ==> x.els[j] == old(x.els[j])
    ensures forall j :: 0 <= j < x.els.Length ==> Bitmap.Dead(x.deleted, j) == old(Bitmap.Dead(x.deleted, j))
  {
    hide Absent, D.Upto, Side, Bitmap.Dead, Bit, Bin.Core, Bin.Written, Bin.BitmapOk;
    x.Sizes();
    SideNext(x.o, l, e, k, v);
    D.UptoNext(x.bound);
    x.Append(e);
    forall j | old(x.bound) < j < x.els.Length ensures x.els[j] == old(x.els[j]) { assert x.els[..][j] == x.els[j]; }
  }

  /** A skipped or moved entry changes nothing for the other bin. */
  lemma HalfStays<El(0,!new)>(x: Bin<El>, l: seq<El>, m: seq<El>, k: nat, v: nat)
    requires Half(x, l, k, v) && Side(x.o, m, k, v) == Side(x.o, l, k, v)
    ensures Half(x, m, k, v)
  {
  }

  /** What the bins have room for. */
  lemma HalfRoom<El(0,!new)>(x: Bin<El>, o: Ops<El>, e0: seq<El>, dead: set<nat>, i: nat, k: nat, v: nat)
    requires i < |e0| && Distinct(o, e0, D.Upto(|e0|) - dead)
    requires Half(x, Reading(e0, dead, i), k, v) && x.o == o && |e0| <= x.els.Length
    ensures x.bound <= i && |x.ix.els| == x.bound
    ensures i !in dead && Bit(Hash(o, e0[i]), k) == v ==>
      Absent(o, x.ix.els, D.Upto(|x.ix.els|), e0[i]) && Reading(e0, dead, i + 1) == Reading(e0, dead, i) + [e0[i]]
    ensures i in dead || Bit(Hash(o, e0[i]), k) != v ==>
      Side(o, Reading(e0, dead, i + 1), k, v) == Side(o, Reading(e0, dead, i), k, v)
  {
    hide Absent, D.Survivors, D.Upto, Distinct, Side, Bit, Bin.Core, Bin.Written;
    x.Sizes();
    SplitStep(o, e0, D.Upto(|e0|) - dead, i, k, v);
    D.SurvivorsNext(e0, D.Upto(|e0|) - dead, i);
  }

  method MoveOld<El(0,!new)>(b: Bin<El>, n: Bin<El>, k: nat, i: nat, ghost e0: seq<El>, ghost dead: set<nat>)
    requires Splitting(b, n, k, i, e0, dead) && i < |e0| && b.Repr !! n.Repr && |e0| <= b.Limit()
    requires i !in dead && Bit(Hash(b.o, e0[i]), k) == 0
    modifies b.Repr
    ensures b.Kept() && Splitting(b, n, k, i + 1, e0, dead)
    ensures forall j :: 0 <= j < b.els.Length ==> Bitmap.Dead(b.deleted, j) == old(Bitmap.Dead(b.deleted, j))
  {
    hide Absent, Distinct, Side, Reading, Half, Bit, Bitmap.Dead;
    HalfSizes(b, Reading(e0, dead, i), k, 0);
    HalfRoom(b, b.o, e0, dead, i, k, 0);
    HalfRoom(n, b.o, e0, dead, i, k, 1);
    HalfStays(n, Reading(e0, dead, i), Reading(e0, dead, i + 1), k, 1);
    MoveTo(b, b.els[i], k, 0, Reading(e0, dead, i));
  }

  method MoveNew<El(0,!new)>(b: Bin<El>, n: Bin<El>, k: nat, i: nat, ghost e0: seq<El>, ghost dead: set<nat>)
    requires Splitting(b, n, k, i, e0, dead) && i < |e0| && b.Repr !! n.Repr && |e0| <= n.Limit()
    requires i !in dead && Bit(Hash(b.o, e0[i]), k) == 1
    modifies n.Repr
    ensures n.Kept() && Splitting(b, n, k, i + 1, e0, dead)
    ensures forall j :: 0 <= j < n.els.Length ==> Bitmap.Dead(n.deleted, j) == old(Bitmap.Dead(n.deleted, j))
  {
    hide Absent, Distinct, Side, Reading, Half, Bit, Bitmap.Dead;
    HalfSizes(b, Reading(e0, dead, i), k, 0);
    HalfSizes(n, Reading(e0, dead, i), k, 1);
    HalfRoom(b, b.o, e0, dead, i, k, 0);
    HalfRoom(n, b.o, e0, dead, i, k, 1);
    HalfStays(b, Reading(e0, dead, i), Reading(e0, dead, i + 1), k, 0);
    MoveTo(n, b.els[i], k, 1, Reading(e0, dead, i));
  }

  lemma HalfSizes<El(0,!new)>(x: Bin<El>, l: seq<El>, k: nat, v: nat)
    requires Half(x, l, k, v)
    ensures x.Repr == {x, x.els, x.deleted, x.tags, x.indexes} && x.bound == |x.ix.els| <= x.els.Length
    ensures x.els.Length <= 8 * x.deleted.Length
  {
  }

  lemma SplittingSizes<El(0,!new)>(b: Bin<El>, n: Bin<El>, k: nat, i: nat, e0: seq<El>, dead: set<nat>)
    requires Splitting(b, n, k, i, e0, dead)
    ensures b.Repr == {b, b.els, b.deleted, b.tags, b.indexes} && n.Repr == {n, n.els, n.deleted, n.tags, n.indexes}
    ensures n.els.Length <= 8 * n.deleted.Length && b.els.Length <= 8 * b.deleted.Length
  {
    hide Half, Distinct;
    HalfSizes(b, Reading(e0, dead, i), k, 0);
    HalfSizes(n, Reading(e0, dead, i), k, 1);
  }

  lemma SkipEntry<El(0,!new)>(b: Bin<El>, n: Bin<El>, k: nat, i: nat, e0: seq<El>, dead: set<nat>)
    requires Splitting(b, n, k, i, e0, dead) && i < |e0| && i in dead
    ensures Splitting(b, n, k, i + 1, e0, dead)
  {
    hide Distinct, Side, Reading, Half, Bit, Bitmap.Dead;
    HalfRoom(b, b.o, e0, dead, i, k, 0);
    HalfRoom(n, b.o, e0, dead, i, k, 1);
    HalfStays(b, Reading(e0, dead, i), Reading(e0, dead, i + 1), k, 0);
    HalfStays(n, Reading(e0, dead, i), Reading(e0, dead, i + 1), k, 1);
  }

  /** The element at entry `i` goes to the bin that its hash bit selects. */
  method MoveEntry<El(0,!new)>(b: Bin<El>, n: Bin<El>, k: nat, i: nat, ghost e0: seq<El>, ghost dead: set<nat>)
    returns (toOld: bool, toNew: bool)
    requires Splitting(b, n, k, i, e0, dead) && i < |e0| && b.Repr !! n.Repr
    requires |e0| <= b.Limit() && |e0| <= n.Limit()
    modifies b.Repr, n.Repr
    ensures b.Kept() && n.Kept() && Splitting(b, n, k, i + 1, e0, dead)
    ensures forall j :: 0 <= j < b.els.Length ==> Bitmap.Dead(b.deleted, j) == old(Bitmap.Dead(b.deleted, j))
    ensures forall j :: 0 <= j < n.els.Length ==> Bitmap.Dead(n.deleted, j) == old(Bitmap.Dead(n.deleted, j))
    ensures toOld == (i !in dead && Bit(Hash(b.o, e0[i]), k) == 0)
    ensures toNew == (i !in dead && Bit(Hash(b.o, e0[i]), k) == 1)
  {
    hide Splitting, Bitmap.Dead, And, Bit, Pow2;
    SplittingSizes(b, n, k, i, e0, dead);
    AndBit(Hash(b.o, e0[i]), k);
    toOld, toNew := false, false;
    var gone, e := ReadEntry(b, n, k, i, e0, dead);
    if gone {
      SkipEntry(b, n, k, i, e0, dead);
    } else {
      toOld := And(Hash(b.o, e), Pow2(k)) == 0;
      toNew := !toOld;
      if toOld {
        MoveOld(b, n, k, i, e0, dead);
      } else {
        MoveNew(b, n, k, i, e0, dead);
      }
    }
  }

  method ReadEntry<El(0,!new)>(b: Bin<El>, n: Bin<El>, k: nat, i: nat, ghost e0: seq<El>, ghost dead: set<nat>)
    returns (gone: bool, e: El)
    requires Splitting(b, n, k, i, e0, dead) && i < |e0|
    ensures gone == (i in dead) && e == e0[i]
  {
    hide Half, Distinct, Bitmap.Dead;
    gone := Bitmap.Test(b.deleted, i);
    e := b.els[i];
  }

  /** Some element before entry `i` was moved to the side `v`. */
  ghost predicate Added<El>(o: Ops<El>, e0: seq<El>, dead: set<nat>, k: nat, v: nat, i: nat)
    requires i <= |e0|
  {
    Side(o, Reading(e0, dead, i), k, v) != []
  }

  lemma AddedNext<El>(o: Ops<El>, e0: seq<El>, dead: set<nat>, k: nat, v: nat, i: nat)
    requires i < |e0| && Distinct(o, e0, D.Upto(|e0|) - dead)
    ensures Added(o, e0, dead, k, v, i + 1) <==>
      Added(o, e0, dead, k, v, i) || (i !in dead && Bit(Hash(o, e0[i]), k) == v)
  {
    hide Absent, D.Survivors, D.Upto, Distinct, Side, Bit;
    SplitStep(o, e0, D.Upto(|e0|) - dead, i, k, v);
  }

  lemma NoneAdded<El>(o: Ops<El>, e0: seq<El>, dead: set<nat>, k: nat, v: nat)
    ensures Reading(e0, dead, 0) == [] && !Added(o, e0, dead, k, v, 0)
  {
  }

  /** The loop over the entries of the split bin: both bins, and whether each received an element. */
  method Distribute<El(0,!new)>(b: Bin<El>, n: Bin<El>, k: nat, bound: nat, ghost e0: seq<El>, ghost dead: set<nat>)
    returns (oldAdded: bool, newAdded: bool)
    requires Splitting(b, n, k, 0, e0, dead) && bound == |e0| && b.Repr !! n.Repr
    requires |e0| <= b.Limit() && |e0| <= n.Limit()
    modifies b.Repr, n.Repr
    ensures b.Kept() && n.Kept() && Splitting(b, n, k, |e0|, e0, dead)
    ensures forall j :: 0 <= j < b.els.Length ==> Bitmap.Dead(b.deleted, j) == old(Bitmap.Dead(b.deleted, j))
    ensures forall j :: 0 <= j < n.els.Length ==> Bitmap.Dead(n.deleted, j) == old(Bitmap.Dead(n.deleted, j))
    ensures oldAdded == Added(b.o, e0, dead, k, 0, |e0|) && newAdded == Added(b.o, e0, dead, k, 1, |e0|)
  {
    hide Splitting, Bitmap.Dead, Bit, Added;
    oldAdded, newAdded := false, false;
    SplittingSizes(b, n, k, 0, e0, dead);
    NoneAdded(b.o, e0, dead, k, 0);
    NoneAdded(b.o, e0, dead, k, 1);
    for i := 0 to bound
      invariant b.Kept() && n.Kept() && Splitting(b, n, k, i, e0, dead)
      invariant n.els.Length <= 8 * n.deleted.Length && b.els.Length <= 8 * b.deleted.Length
      invariant forall j :: 0 <= j < b.els.Length ==> Bitmap.Dead(b.deleted, j) == old(Bitmap.Dead(b.deleted, j))
      invariant forall j :: 0 <= j < n.els.Length ==> Bitmap.Dead(n.deleted, j) == old(Bitmap.Dead(n.deleted, j))
      invariant oldAdded == Added(b.o, e0, dead, k, 0, i) && newAdded == Added(b.o, e0, dead, k, 1, i)
    {
      SplittingDistinct(b, n, k, i, e0, dead);
      AddedNext(b.o, e0, dead, k, 0, i);
      AddedNext(b.o, e0, dead, k, 1, i);
      var toOld, toNew := MoveEntry(b, n, k, i, e0, dead);
      oldAdded := oldAdded || toOld;
      newAdded := newAdded || toNew;
    }
  }

  lemma SplittingDistinct<El(0,!new)>(b: Bin<El>, n: Bin<El>, k: nat, i: nat, e0: seq<El>, dead: set<nat>)
    requires Splitting(b, n, k, i, e0, dead)
    ensures Distinct(b.o, e0, D.Upto(|e0|) - dead)
  {
  }
}
