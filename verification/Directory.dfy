/** When the directory of an ixhtab stays exact.  A split writes one directory entry per round; these
    lemmas say which entries that leaves wrong, and that the invariant of extendible hashing survives a
    split exactly when the bin is at most one bit shallower than the directory (H1) and its live
    elements differ in the very next bit (H2). */
module Directory {
  import opened BitMath
  import D = Dense
  import opened Extendible
  import opened Keys
  import opened Probe

  /** The bin is at most one bit shallower than the directory. */
  predicate H1<El>(s: State<El>, b: nat)
    requires b < |s.bins|
  {
    s.bins[b].depth + 1 >= s.maxDepth
  }

  /** The live elements of the bin show both values of the next hash bit. */
  ghost predicate H2<El>(o: Ops<El>, s: State<El>, b: nat)
    requires b < |s.bins| && forall i :: i in s.bins[b].live ==> i < |s.bins[b].els|
  {
    var x := s.bins[b];
    && (exists i :: i in x.live && Bit(Hash(o, x.els[i]), x.depth) == 0)
    && (exists i :: i in x.live && Bit(Hash(o, x.els[i]), x.depth) == 1)
  }

  lemma SideNonEmpty<El>(o: Ops<El>, x: XBin<El>, v: nat)
    requires forall i :: i in x.live ==> i < |x.els|
    ensures Side(o, D.Survivors(x.els, x.live), x.depth, v) != [] <==>
      exists i :: i in x.live && Bit(Hash(o, x.els[i]), x.depth) == v
  {
    var l := D.Survivors(x.els, x.live);
    if Side(o, l, x.depth, v) != [] {
      var j := SideFrom(o, l, x.depth, v, 0);
      var i := D.SurvivorFrom(x.els, x.live, j);
      assert i in x.live && Bit(Hash(o, x.els[i]), x.depth) == v;
    }
    if i :| i in x.live && Bit(Hash(o, x.els[i]), x.depth) == v {
      D.SurvivorAt(x.els, x.live, i);
      SideHas(o, l, x.depth, v, |D.Survivors(x.els[..i], x.live)|);
    }
  }

  /** H2 says that the split ends after one round. */
  lemma OneRound<El>(o: Ops<El>, s: State<El>, b: nat)
    requires Weak(o, s) && b < |s.bins|
    ensures Sane(Started(s, b))
    ensures BinOk(o, s.bins[b]) && (H2(o, s, b) <==> Exits(o, Started(s, b)))
    ensures H2(o, s, b) <==> ExitsIn(o, Started(s, b), 1)
  {
    hide D.Survivors, Side, LiveCount, Kept, Distinct;
    StartedOk(o, s, b);
    assert BinOk(o, s.bins[b]);
    SideNonEmpty(o, s.bins[b], 0);
    SideNonEmpty(o, s.bins[b], 1);
  }

  // ---- One round ----

  /** What directory entry `j` names after a round. */
  lemma RoundEntry<El>(o: Ops<El>, w: Work<El>, j: nat)
    requires Sane(w) && j < |Round(o, w).dir|
    ensures Round(o, w).dir[j] == if j == SplitMask(w.s.bins[w.b]) then w.n else w.s.dir[Low(j, w.s.maxDepth)]
  {
    hide OldBin, NewBin, Low;
    SplitMaskFits(w);
    RoundRoute(o, w, j);
    LowSmall(j, Round(o, w).maxDepth);
  }

  /** The two numbers below 2^(d+1) with the same low `d` bits. */
  lemma LowPair(j: nat, mask: nat, d: nat)
    requires j < Pow2(d + 1) && mask < Pow2(d)
    ensures Low(j, d) == mask <==> j == mask || j == mask + Pow2(d)
  {
    hide Low, Pow2;
    LowNext(j, d);
    LowSmall(j, d + 1);
    LowOfSum(mask, d);
  }

  /** Entries and bins after a one-round split that meets H1. */
  lemma RoundNames<El>(o: Ops<El>, s: State<El>, b: nat, j: nat, c: nat)
    requires Weak(o, s) && DirOk(s) && b < |s.bins| && H1(s, b) && Sane(Started(s, b))
    requires var r := Round(o, Started(s, b)); j < |r.dir| && c < |r.bins|
    ensures Names(Round(o, Started(s, b)), j, c)
  {
    hide Low, Pow2, Side, Kept, LiveCount, Distinct, D.Upto;
    var w := Started(s, b);
    var r, d := Round(o, w), s.bins[b].depth;
    assert BinOk(o, s.bins[b]);
    SplitMaskFits(w);
    RoundEntry(o, w, j);
    assert r.maxDepth == d + 1;
    LowSmall(j, d + 1);
    LowLow(j, d, s.maxDepth);
    LowPair(j, s.bins[b].mask, d);
    assert Names(s, Low(j, s.maxDepth), b);
    if c != b && c != w.n {
      assert s.bins[c].depth <= s.maxDepth;
      LowLow(j, s.bins[c].depth, s.maxDepth);
      assert Names(s, Low(j, s.maxDepth), c);
    }
  }

  /** The elements of the split bin have its mask, so after the round those of each half have its. */
  lemma SideRouted<El>(o: Ops<El>, s: State<El>, b: nat, v: nat, j: nat)
    requires Weak(o, s) && b < |s.bins| && BinOk(o, s.bins[b]) && Routed(o, s.bins[b]) && v < 2
    requires j < |Side(o, D.Survivors(s.bins[b].els, s.bins[b].live), s.bins[b].depth, v)|
    ensures var x := s.bins[b];
      Low(Hash(o, Side(o, D.Survivors(x.els, x.live), x.depth, v)[j]), x.depth + 1) == x.mask + v * Pow2(x.depth)
  {
    hide Low, LiveCount, Distinct;
    var x := s.bins[b];
    var l := D.Survivors(x.els, x.live);
    var m := SideFrom(o, l, x.depth, v, j);
    var i := D.SurvivorFrom(x.els, x.live, m);
    LowNext(Hash(o, x.els[i]), x.depth);
  }

  lemma OldRouted<El>(o: Ops<El>, s: State<El>, b: nat)
    requires Weak(o, s) && b < |s.bins| && BinOk(o, s.bins[b]) && Routed(o, s.bins[b]) && Sane(Started(s, b))
    ensures Routed(o, OldBin(o, Started(s, b)))
  {
    hide Low, LiveCount, Distinct, Side, D.Survivors, Pow2, Weak, BinOk;
    StartedOk(o, s, b);
    var x := OldBin(o, Started(s, b));
    forall j: nat | j < |x.els| ensures Low(Hash(o, x.els[j]), x.depth) == x.mask { SideRouted(o, s, b, 0, j); }
  }

  lemma NewRouted<El>(o: Ops<El>, s: State<El>, b: nat)
    requires Weak(o, s) && b < |s.bins| && BinOk(o, s.bins[b]) && Routed(o, s.bins[b]) && Sane(Started(s, b))
    ensures Routed(o, NewBin(o, Started(s, b)))
  {
    hide Low, LiveCount, Distinct, Side, D.Survivors, Pow2, Weak, BinOk;
    StartedOk(o, s, b);
    var x := NewBin(o, Started(s, b));
    forall j: nat | j < |x.els| ensures Low(Hash(o, x.els[j]), x.depth) == x.mask { SideRouted(o, s, b, 1, j); }
  }

  lemma RoundConserves<El>(o: Ops<El>, s: State<El>, b: nat)
    requires Weak(o, s) && b < |s.bins| && Sane(Started(s, b))
    ensures LiveCount(Round(o, Started(s, b)).bins) == LiveCount(s.bins)
  {
    hide Distinct, Side, D.Survivors, LiveCount, Round;
    var w := Started(s, b);
    StartedOk(o, s, b);
    RoundCount(o, w);
    assert BinOk(o, s.bins[b]);
    D.SurvivorsCount(s.bins[b].els, s.bins[b].live);
    LiveCountAppend(s.bins, w.s.bins[w.n]);
  }

  /** A split that meets H1 and H2 keeps the invariant of extendible hashing. */
  lemma SplitKeepsStrong<El>(o: Ops<El>, s: State<El>, b: nat)
    requires Strong(o, s) && b < |s.bins| && BinOk(o, s.bins[b]) && H1(s, b) && H2(o, s, b)
    ensures Sane(Started(s, b)) && ExitsIn(o, Started(s, b), 1) && Strong(o, Split(o, Started(s, b), 1))
  {
    hide Distinct, Side, D.Survivors, LiveCount, BinOk, OldBin, NewBin, Routed, Names, Pow2;
    var w := Started(s, b);
    OneRound(o, s, b);
    StartedOk(o, s, b);
    SplitWeak(o, w, 1);
    RoundConserves(o, s, b);
    OldRouted(o, s, b);
    NewRouted(o, s, b);
    var r := Round(o, w);
    forall j, c | 0 <= j < |r.dir| && 0 <= c < |r.bins| ensures Names(r, j, c) { RoundNames(o, s, b, j, c); }
  }

  // ---- Why both conditions are needed ----

  /** Without H1 a directory entry that should name the new bin still names the old one. */
  lemma ShallowBinBreaks<El>(o: Ops<El>, s: State<El>, b: nat)
    requires Weak(o, s) && DirOk(s) && b < |s.bins| && !H1(s, b) && Sane(Started(s, b))
    ensures !DirOk(Round(o, Started(s, b)))
  {
    hide Low, Pow2, Side, Kept, LiveCount, Distinct, D.Upto;
    var w := Started(s, b);
    var r, d, m := Round(o, w), s.bins[b].depth, s.bins[b].mask;
    assert BinOk(o, s.bins[b]);
    SplitMaskFits(w);
    var j := SplitMask(s.bins[b]) + Pow2(d + 1);
    Pow2Monotone(d + 1, s.maxDepth);
    RoundEntry(o, w, j);
    LowOfSum(m, d);
    LowOfSum(SplitMask(s.bins[b]), d + 1);
    LowLow(j, d, d + 1);
    LowSmall(j, s.maxDepth);
    assert Names(s, j, b);
    assert !Names(r, j, b);
  }

  /** Entry `e` names one of the two bins, but both have the wrong value of hash bit `d`. */
  ghost predicate Stray<El>(w: Work<El>, e: nat, d: nat) {
    && Sane(w) && e < |w.s.dir|
    && w.s.dir[e] in {w.b, w.n}
    && d < w.s.bins[w.b].depth
    && Bit(w.s.bins[w.b].mask, d) != Bit(e, d)
  }

  lemma SplitMaskBit<El>(x: XBin<El>, d: nat)
    requires x.mask < Pow2(x.depth) && d < x.depth
    ensures Bit(SplitMask(x), d) == Bit(x.mask, d)
  {
    hide Low, Pow2;
    LowOfSum(x.mask, x.depth);
    LowBit(SplitMask(x), d, x.depth);
  }

  /** A stray entry stays stray. */
  lemma StrayNext<El>(o: Ops<El>, w: Work<El>, e: nat, d: nat)
    requires Stray(w, e, d)
    ensures Stray(Next(o, w), e, d)
    ensures d < NewBin(o, w).depth && Bit(NewBin(o, w).mask, d) != Bit(e, d)
    ensures d < OldBin(o, w).depth && Bit(OldBin(o, w).mask, d) != Bit(e, d)
    ensures e < |Round(o, w).dir| && Round(o, w).dir[e] in {w.b, w.n}
  {
    hide Low, Pow2, Side, Kept, D.Upto, Bit;
    SplitMaskFits(w);
    SplitMaskBit(w.s.bins[w.b], d);
    LowSmall(e, w.s.maxDepth);
    RoundEntry(o, w, e);
  }

  lemma StrayBreaks<El>(s: State<El>, e: nat, c: nat, d: nat)
    requires e < |s.dir| && c < |s.bins| && s.dir[e] == c && d < s.bins[c].depth
    requires Bit(s.bins[c].mask, d) != Bit(e, d)
    ensures !DirOk(s)
  {
    hide Low;
    LowBit(e, d, s.bins[c].depth);
    assert !Names(s, e, c);
  }

  /** Splitting a bin as deep as the directory leaves the others behind: afterwards exactly the bins that were
      as deep still meet H1, and the split of any other breaks the table. */
  lemma LeftBehind<El>(o: Ops<El>, s: State<El>, b: nat, c: nat)
    requires Weak(o, s) && b < |s.bins| && c < |s.bins| && b != c && s.bins[b].depth == s.maxDepth
    requires Sane(Started(s, b)) && Exits(o, Started(s, b))
    ensures
      var r := Split(o, Started(s, b), 1);
      c < |r.bins| && r.bins[c] == s.bins[c] && (H1(r, c) <==> s.bins[c].depth == s.maxDepth)
  {
    hide OldBin, NewBin, Pow2, LiveCount, BinOk;
    assert s.bins[c].depth <= s.maxDepth;
  }

  /** Once an entry is stray, the split cannot end with an exact directory. */
  lemma {:induction false} StrayToTheEnd<El>(o: Ops<El>, w: Work<El>, k: nat, e: nat, d: nat)
    requires Stray(w, e, d) && ExitsIn(o, w, k)
    ensures !DirOk(Split(o, w, k))
    decreases k
  {
    hide DirOk, Round, OldBin, NewBin;
    StrayNext(o, w, e, d);
    if k == 1 {
      StrayBreaks(Round(o, w), e, Round(o, w).dir[e], d);
    } else {
      StrayToTheEnd(o, Next(o, w), k - 1, e, d);
    }
  }

  /** A second round always leaves a stray entry: the one of the half that received nothing. */
  lemma SecondRoundIsStray<El>(o: Ops<El>, s: State<El>, b: nat)
    requires Weak(o, s) && DirOk(s) && b < |s.bins| && Sane(Started(s, b)) && !Exits(o, Started(s, b))
    ensures var w := Next(o, Started(s, b));
      var x := s.bins[b];
      Stray(w, x.mask, x.depth) || Stray(w, SplitMask(x), x.depth)
  {
    hide Low, Pow2, Side, Kept, LiveCount, Distinct, D.Upto, Bit;
    var w, x := Started(s, b), s.bins[b];
    assert BinOk(o, x);
    SplitMaskFits(w);
    LowOfSum(x.mask, x.depth);
    LowLow(x.mask, x.depth, s.maxDepth);
    LowSmall(x.mask, x.depth);
    assert Names(s, Low(x.mask, s.maxDepth), b);
    RoundEntry(o, w, x.mask);
    RoundEntry(o, w, SplitMask(x));
  }

  /** The split keeps the invariant of extendible hashing if and only if H1 and H2 hold before it. */
  lemma StrongIffH1H2<El>(o: Ops<El>, s: State<El>, b: nat, k: nat)
    requires Strong(o, s) && b < |s.bins| && BinOk(o, s.bins[b]) && Sane(Started(s, b))
    requires ExitsIn(o, Started(s, b), k)
    ensures Strong(o, Split(o, Started(s, b), k)) <==> H1(s, b) && H2(o, s, b)
    ensures DirOk(Split(o, Started(s, b), k)) <==> H1(s, b) && H2(o, s, b)
  {
    hide DirOk, Round, OldBin, NewBin, LiveCount, Routed, H2, BinOk, Weak;
    var w := Started(s, b);
    OneRound(o, s, b);
    if Exits(o, w) {
      if H1(s, b) { SplitKeepsStrong(o, s, b); } else { ShallowBinBreaks(o, s, b); }
    } else {
      SecondRoundIsStray(o, s, b);
      var e := if Stray(Next(o, w), s.bins[b].mask, s.bins[b].depth) then s.bins[b].mask else SplitMask(s.bins[b]);
      StrayToTheEnd(o, Next(o, w), k - 1, e, s.bins[b].depth);
    }
  }

  // ---- Exactly which entries are wrong ----

  /** The directory indices below 2^m whose low `a` bits are `v`. */
  ghost function Residues(m: nat, a: nat, v: nat): set<nat> {
    set j: nat | j < Pow2(m) && Low(j, a) == v
  }

  function Shifted(q: set<nat>, p: nat): set<nat> {
    set j: nat | j in q :: j + p
  }

  lemma {:induction false} ShiftedSize(q: set<nat>, p: nat)
    ensures |Shifted(q, p)| == |q|
    decreases |q|
  {
    if q != {} {
      var x :| x in q;
      ShiftedSize(q - {x}, p);
      forall y | y in Shifted(q, p) ensures y in Shifted(q - {x}, p) + {x + p} {
        var j :| j in q && j + p == y;
        if j != x { assert j in q - {x}; }
      }
      assert Shifted(q, p) == Shifted(q - {x}, p) + {x + p};
      assert x + p !in Shifted(q - {x}, p);
    }
  }

  /** One more directory bit doubles the indices with a given residue. */
  lemma ResiduesStep(m: nat, a: nat, v: nat)
    requires a <= m
    ensures Residues(m + 1, a, v) == Residues(m, a, v) + Shifted(Residues(m, a, v), Pow2(m))
  {
    forall j: nat | true
      ensures j in Residues(m + 1, a, v) <==>
        j in Residues(m, a, v) || (j >= Pow2(m) && j - Pow2(m) in Residues(m, a, v))
    {
      if Pow2(m) <= j < Pow2(m + 1) {
        ResidueOfSum(j - Pow2(m), a, m);
      }
    }
    forall j: nat | j in Residues(m + 1, a, v)
      ensures j in Residues(m, a, v) + Shifted(Residues(m, a, v), Pow2(m))
    {
      if j !in Residues(m, a, v) { assert j - Pow2(m) in Residues(m, a, v); }
    }
  }

  lemma ResidueOfSum(x: nat, a: nat, m: nat)
    requires a <= m && x < Pow2(m)
    ensures Low(x + Pow2(m), a) == Low(x, a)
  {
    hide Low;
    LowOfSum(x, m);
    LowLow(x + Pow2(m), a, m);
  }

  lemma ResiduesSelf(a: nat, v: nat)
    requires v < Pow2(a)
    ensures Residues(a, a, v) == {v}
  {
    hide Low, Pow2;
    forall j: nat | j < Pow2(a) ensures Low(j, a) == j { LowSmall(j, a); }
  }

  lemma {:induction false} ResiduesSize(m: nat, a: nat, v: nat)
    requires a <= m && v < Pow2(a)
    ensures |Residues(m, a, v)| == Pow2(m - a)
    decreases m
  {
    if m == a {
      ResiduesSelf(a, v);
    } else {
      assert Pow2(m - a) == 2 * Pow2(m - a - 1);
      hide Low, Shifted, Residues, Pow2;
      var q := Residues(m - 1, a, v);
      ResiduesSize(m - 1, a, v);
      ResiduesStep(m - 1, a, v);
      ShiftedSize(q, Pow2(m - 1));
      ShiftedApart(m - 1, a, v);
      assert |q + Shifted(q, Pow2(m - 1))| == |q| + |Shifted(q, Pow2(m - 1))|;
    }
  }

  lemma ShiftedApart(m: nat, a: nat, v: nat)
    ensures Residues(m, a, v) !! Shifted(Residues(m, a, v), Pow2(m))
  {
    hide Low;
  }

  /** The entries that should name the new bin but still name the old one. */
  ghost function Stale<El>(r: State<El>, b: nat, n: nat): set<nat>
    requires b < |r.bins| && n < |r.bins|
  {
    set j: nat | j < |r.dir| && Low(j, r.bins[n].depth) == r.bins[n].mask && r.dir[j] == b
  }

  /** After one round those are all entries of the new bin but the one written: none exactly when the new
      depth is the directory's, that is, when H1 held. */
  lemma StaleEntries<El>(o: Ops<El>, s: State<El>, b: nat)
    requires Weak(o, s) && DirOk(s) && b < |s.bins| && Sane(Started(s, b))
    ensures
      var r := Round(o, Started(s, b));
      var d := s.bins[b].depth + 1;
      && d <= r.maxDepth
      && Stale(r, b, |s.bins|) == Residues(r.maxDepth, d, SplitMask(s.bins[b])) - {SplitMask(s.bins[b])}
      && |Stale(r, b, |s.bins|)| == Pow2(r.maxDepth - d) - 1
      && (Stale(r, b, |s.bins|) == {} <==> d == r.maxDepth)
      && (d == r.maxDepth <==> H1(s, b))
  {
    hide Low, Side, Kept, LiveCount, Distinct, D.Upto;
    var w := Started(s, b);
    var r, d, v := Round(o, w), s.bins[b].depth + 1, SplitMask(s.bins[b]);
    assert BinOk(o, s.bins[b]);
    SplitMaskFits(w);
    StaleAre(o, s, b);
    ResiduesSize(r.maxDepth, d, v);
    LowSmall(v, d);
    assert v in Residues(r.maxDepth, d, v);
    if d < r.maxDepth { Pow2Monotone(1, r.maxDepth - d); }
  }

  lemma StaleAre<El>(o: Ops<El>, s: State<El>, b: nat)
    requires Weak(o, s) && DirOk(s) && b < |s.bins| && Sane(Started(s, b))
    ensures
      var r := Round(o, Started(s, b));
      Stale(r, b, |s.bins|)
        == Residues(r.maxDepth, s.bins[b].depth + 1, SplitMask(s.bins[b])) - {SplitMask(s.bins[b])}
  {
    hide Low, Side, Kept, LiveCount, Distinct, D.Upto, Pow2;
    var w := Started(s, b);
    var r, x := Round(o, w), s.bins[b];
    assert BinOk(o, x);
    SplitMaskFits(w);
    LowOfSum(x.mask, x.depth);
    forall j: nat | j < |r.dir| && Low(j, x.depth + 1) == SplitMask(x)
      ensures r.dir[j] == b <==> j != SplitMask(x)
    {
      RoundEntry(o, w, j);
      LowLow(j, x.depth, x.depth + 1);
      LowLow(j, x.depth, s.maxDepth);
      assert Names(s, Low(j, s.maxDepth), b);
    }
  }

  // ---- Which elements can still be found ----

  /** Every live element lies in the bin its hash is routed to. */
  ghost predicate Reached<El>(o: Ops<El>, s: State<El>) {
    && |s.dir| == Pow2(s.maxDepth)
    && forall b :: 0 <= b < |s.bins| ==> BinReached(o, s, b)
  }

  ghost predicate BinReached<El>(o: Ops<El>, s: State<El>, b: nat)
    requires |s.dir| == Pow2(s.maxDepth) && b < |s.bins|
  {
    forall i :: i in s.bins[b].live && i < |s.bins[b].els| ==> Route(s, Hash(o, s.bins[b].els[i])) == b
  }

  /** Every element can be found and is counted. */
  ghost predicate Sound<El>(o: Ops<El>, s: State<El>) {
    Weak(o, s) && Reached(o, s) && LiveCount(s.bins) == s.num
  }

  lemma StrongReached<El>(o: Ops<El>, s: State<El>)
    requires Strong(o, s)
    ensures Reached(o, s)
  {
    hide Low, Pow2, LiveCount, Distinct;
    forall b | 0 <= b < |s.bins| ensures BinReached(o, s, b) {
      forall i | i in s.bins[b].live && i < |s.bins[b].els| ensures Route(s, Hash(o, s.bins[b].els[i])) == b {
        ElementRoute(o, s, b, i);
      }
    }
  }

  lemma ElementRoute<El>(o: Ops<El>, s: State<El>, b: nat, i: nat)
    requires Weak(o, s) && DirOk(s) && b < |s.bins| && BinOk(o, s.bins[b]) && Routed(o, s.bins[b])
    requires i in s.bins[b].live
    ensures i < |s.bins[b].els| && Route(s, Hash(o, s.bins[b].els[i])) == b
  {
    hide Low, Pow2, LiveCount, Distinct;
    var h := Hash(o, s.bins[b].els[i]);
    LowLow(h, s.bins[b].depth, s.maxDepth);
    assert Names(s, Low(h, s.maxDepth), b);
  }
}
