/** The bits that the loop of `ixht_split_bin` looks at, and when it never ends. */
module SplitLoop {
  import opened BitMath
  import D = Dense
  import opened Directory
  import opened Extendible
  import opened Keys
  import opened Probe

  /** All elements have the same value of hash bit `k`. */
  ghost predicate Agree<El>(o: Ops<El>, l: seq<El>, k: nat) {
    forall i, j :: 0 <= i < |l| && 0 <= j < |l| ==> Bit(Hash(o, l[i]), k) == Bit(Hash(o, l[j]), k)
  }

  /** Bit `d + k - 1` is the first from bit `d` on in which two of the elements differ. */
  ghost predicate FirstDifference<El>(o: Ops<El>, l: seq<El>, d: nat, k: nat) {
    k > 0 && !Agree(o, l, d + k - 1) && forall j :: d <= j < d + k - 1 ==> Agree(o, l, j)
  }

  lemma {:induction false} SideAll<El>(o: Ops<El>, l: seq<El>, k: nat, v: nat)
    requires forall i :: 0 <= i < |l| ==> Bit(Hash(o, l[i]), k) == v
    ensures Side(o, l, k, v) == l
  {
    if l != [] { SideAll(o, l[..|l| - 1], k, v); }
  }

  /** The elements agree in a bit exactly when one side is empty, and then the other side has them all. */
  lemma AgreeSides<El>(o: Ops<El>, l: seq<El>, k: nat)
    ensures Agree(o, l, k) <==> Side(o, l, k, 0) == [] || Side(o, l, k, 1) == []
    ensures Side(o, l, k, 0) == [] ==> Side(o, l, k, 1) == l
    ensures Side(o, l, k, 1) == [] ==> Side(o, l, k, 0) == l
  {
    hide Side;
    SideCount(o, l, k);
    if Side(o, l, k, 0) == [] {
      forall i | 0 <= i < |l|
        ensures Bit(Hash(o, l[i]), k) == 1
      {
        if Bit(Hash(o, l[i]), k) == 0 { SideHas(o, l, k, 0, i); }
      }
      SideAll(o, l, k, 1);
    } else if Side(o, l, k, 1) == [] {
      forall i | 0 <= i < |l|
        ensures Bit(Hash(o, l[i]), k) == 0
      {
        if Bit(Hash(o, l[i]), k) == 1 { SideHas(o, l, k, 1, i); }
      }
      SideAll(o, l, k, 0);
    } else {
      var i := SideFrom(o, l, k, 0, 0);
      var j := SideFrom(o, l, k, 1, 0);
    }
  }

  lemma KeptAll<El>(els: seq<El>)
    ensures Kept(els, {}) == els
  {
    D.SurvivorsAll(els, D.Upto(|els|) - {});
  }

  lemma SideMember<El>(o: Ops<El>, l: seq<El>, k: nat, v: nat, i: nat)
    requires Side(o, l, k, v) == l && i < |l|
    ensures Bit(Hash(o, l[i]), k) == v
  {
    var j := SideFrom(o, l, k, v, i);
  }

  // ---- Loops that never end ----

  /** All elements agree in every hash bit from `d` on. */
  ghost predicate AgreeFrom<El>(o: Ops<El>, l: seq<El>, d: nat) {
    forall k :: d <= k ==> Agree(o, l, k)
  }

  lemma KeptAgree<El>(o: Ops<El>, l: seq<El>, dead: set<nat>, k: nat)
    requires Agree(o, l, k)
    ensures Agree(o, Kept(l, dead), k)
  {
    var r := Kept(l, dead);
    forall a, b | 0 <= a < |r| && 0 <= b < |r| ensures Bit(Hash(o, r[a]), k) == Bit(Hash(o, r[b]), k) {
      var i := D.SurvivorFrom(l, D.Upto(|l|) - dead, a);
      var j := D.SurvivorFrom(l, D.Upto(|l|) - dead, b);
    }
  }

  /** The loop never ends when the live elements agree in all remaining hash bits: a bin of fewer than two
      live elements, or of equal hashes, whatever its bitmap. */
  lemma {:induction false} NeverExits<El>(o: Ops<El>, w: Work<El>, k: nat)
    requires Sane(w) && AgreeFrom(o, Moving(w), w.s.bins[w.b].depth)
    ensures !ExitsIn(o, w, k)
    decreases k
  {
    hide Round, Agree, Side, Kept;
    var d := w.s.bins[w.b].depth;
    assert Agree(o, Moving(w), d);
    AgreeSides(o, Moving(w), d);
    if k > 1 {
      var x := Next(o, w);
      assert x.s.bins[x.b].els == Moving(w);
      forall j | d + 1 <= j ensures Agree(o, Moving(x), j) {
        assert Agree(o, Moving(w), j);
        KeptAgree(o, Moving(w), x.deadB, j);
      }
      NeverExits(o, x, k - 1);
    }
  }
}
