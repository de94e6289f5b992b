/** Exactly when a split does no harm: no element is lost and every element can be found. */
module SplitExact {
  import opened BitMath
  import D = Dense
  import opened Directory
  import opened Extendible
  import opened IxRuns
  import opened Keys
  import opened Probe
  import opened SplitLoop
  import opened SplitLosses
  import opened SplitRoutes

  /** The live elements of a bin, in order, and the entries that its bitmap marks. */
  function LiveOf<El>(x: XBin<El>): seq<El> { D.Survivors(x.els, x.live) }

  function DeadOf<El>(x: XBin<El>): set<nat> { D.Upto(|x.els|) - x.live }

  /** Every element that `k` rounds send to the new bin has the mask of that bin in all the bits that index the
      directory. */
  ghost predicate Fit<El>(o: Ops<El>, l: seq<El>, m: nat, d: nat, k: nat, maxDepth: nat) {
    forall i :: 0 <= i < |l| && Odd(Hash(o, l[i]), d, k) ==>
      Low(Hash(o, l[i]), Max(maxDepth, d + k)) == MaskAt(Hash(o, l[i]), m, d, k)
  }

  /** None of the entries that `k` rounds write is that of an element of another bin. */
  ghost predicate Undisturbed<El>(o: Ops<El>, s: State<El>, b: nat, h: nat, k: nat)
    requires b < |s.bins|
  {
    forall c, i :: 0 <= c < |s.bins| && c != b && i in s.bins[c].live && i < |s.bins[c].els| ==>
      Clear(Hash(o, s.bins[c].els[i]), h, s.bins[b].mask, s.bins[b].depth, k, s.maxDepth)
  }

  lemma {:induction false} OddLast(h: nat, d: nat, k: nat)
    ensures Odd(h, d, k + 1) <==> Odd(h, d, k) != (Bit(h, d + k) == 1)
    decreases k
  {
    hide Bit;
    if k > 0 { OddLast(h, d + 1, k - 1); }
  }

  lemma StartRoles<El>(o: Ops<El>, s: State<El>, b: nat)
    requires Weak(o, s) && b < |s.bins|
    ensures Roles(Started(s, b), b, DeadOf(s.bins[b])) && Moving(Started(s, b)) == LiveOf(s.bins[b])
    ensures Started(s, b).s.bins[b].depth == s.bins[b].depth
  {
    hide Pow2, LiveCount, D.Upto, D.Survivors, Kept;
    StartedOk(o, s, b);
  }

  /** The elements with value `v` in the last bit are those with an odd number of ones in all `k`. */
  ghost predicate ByParity<El>(o: Ops<El>, l: seq<El>, d: nat, k: nat, v: nat)
    requires k > 0
  {
    forall j :: 0 <= j < |l| ==> (Odd(Hash(o, l[j]), d, k) <==> Bit(Hash(o, l[j]), d + k - 1) == v)
  }

  /** The split bin has the elements with value `1 - v` in the last bit, the new one the others. */
  ghost predicate HoldsBy<El>(o: Ops<El>, r: State<El>, b: nat, n: nat, l: seq<El>, t: nat, v: nat) {
    if v == 1 then Holds(o, r, b, n, l, t) else Holds(o, r, n, b, l, t)
  }

  /** The bins after the split: the new one has the elements with an odd number of ones in the bits that the
      rounds looked at. */
  lemma SplitHolds<El>(o: Ops<El>, s: State<El>, b: nat, k: nat) returns (v: nat)
    requires Weak(o, s) && b < |s.bins| && Sane(Started(s, b)) && ExitsIn(o, Started(s, b), k)
    ensures
      var (x, r) := (s.bins[b], Split(o, Started(s, b), k));
      var l := Left(o, LiveOf(x), DeadOf(x), x.depth, k, true);
      && v < 2 && k > 0 && EndsIn(o, LiveOf(x), DeadOf(x), x.depth, k, true)
      && HoldsBy(o, r, b, |s.bins|, l, x.depth + k - 1, v) && ByParity(o, l, x.depth, k, v)
  {
    hide Weak, Moving, Roles, Split, ExitsIn, EndsIn, Left, Exchanged, Holds, Odd, Bit, LiveOf, DeadOf, Sane;
    var (x, w) := (s.bins[b], Started(s, b));
    StartRoles(o, s, b);
    ExitsIffEndsIn(o, w, b, DeadOf(x), k);
    SplitLeaves(o, w, b, DeadOf(x), k);
    var l := Left(o, LiveOf(x), DeadOf(x), x.depth, k, true);
    v := if Exchanged(o, LiveOf(x), DeadOf(x), x.depth, k, true) then 0 else 1;
    EndsDiffer(o, LiveOf(x), DeadOf(x), x.depth, k, true);
    forall j | 0 <= j < |l| ensures Odd(Hash(o, l[j]), x.depth, k) <==> Bit(Hash(o, l[j]), x.depth + k - 1) == v {
      LeftParity(o, LiveOf(x), DeadOf(x), x.depth, k, true, j);
      OddLast(Hash(o, l[j]), x.depth, k - 1);
    }
  }

  /** No bin but the split one and the new one has changed. */
  ghost predicate Beside<El>(s: State<El>, b: nat, r: State<El>) {
    && b < |s.bins| && |r.bins| == |s.bins| + 1 && |r.dir| == Pow2(r.maxDepth)
    && forall c :: 0 <= c < |s.bins| && c != b ==> r.bins[c] == s.bins[c]
  }

  lemma SplitBeside<El>(o: Ops<El>, s: State<El>, b: nat, k: nat)
    requires Weak(o, s) && b < |s.bins| && Sane(Started(s, b)) && ExitsIn(o, Started(s, b), k)
    ensures Beside(s, b, Split(o, Started(s, b), k))
  {
    hide Weak, Split, ExitsIn, WorkOk, Sane, Pow2, D.Upto;
    StartedOk(o, s, b);
    SplitRoom(o, Started(s, b), k);
    SplitRoute(o, Started(s, b), k, 0);
  }

  /** A bin that holds one side of `l` can be reached if and only if that side is sent to it. */
  lemma SideReached<El>(o: Ops<El>, r: State<El>, c: nat, l: seq<El>, t: nat, v: nat)
    requires |r.dir| == Pow2(r.maxDepth) && c < |r.bins| && v < 2
    requires r.bins[c].els == Side(o, l, t, v) && r.bins[c].live == D.Upto(|r.bins[c].els|)
    ensures BinReached(o, r, c) <==>
      forall j :: 0 <= j < |l| && Bit(Hash(o, l[j]), t) == v ==> Route(r, Hash(o, l[j])) == c
  {
    hide Side, Bit, Route, D.Upto, Pow2;
    var x := r.bins[c];
    if BinReached(o, r, c) {
      forall j | 0 <= j < |l| && Bit(Hash(o, l[j]), t) == v ensures Route(r, Hash(o, l[j])) == c {
        SideHas(o, l, t, v, j);
        var i := |Side(o, l[..j], t, v)|;
        assert x.els[i] == l[j] && i in x.live;
      }
    }
    if forall j :: 0 <= j < |l| && Bit(Hash(o, l[j]), t) == v ==> Route(r, Hash(o, l[j])) == c {
      forall i | i in x.live && i < |x.els| ensures Route(r, Hash(o, x.els[i])) == c {
        var j := SideFrom(o, l, t, v, i);
      }
    }
  }

  /** Where the split sends an element that it does not lose. */
  lemma LeftRoute<El>(o: Ops<El>, s: State<El>, b: nat, k: nat, j: nat)
    requires Sound(o, s) && b < |s.bins| && Sane(Started(s, b)) && ExitsIn(o, Started(s, b), k)
    requires var x := s.bins[b]; j < |Left(o, LiveOf(x), DeadOf(x), x.depth, k, true)|
    ensures
      var (x, r) := (s.bins[b], Split(o, Started(s, b), k));
      var h := Hash(o, Left(o, LiveOf(x), DeadOf(x), x.depth, k, true)[j]);
      && |r.dir| == Pow2(r.maxDepth)
      && Route(r, h) ==
           if Odd(h, x.depth, k) && Low(h, Max(s.maxDepth, x.depth + k)) == MaskAt(h, x.mask, x.depth, k) then |s.bins|
           else b
  {
    hide Split, ExitsIn, Left, LiveOf, DeadOf, Sane, Low, Pow2, Max, MaskAt, Odd, Moving, Roles, LiveCount, BinOk;
    var (x, w) := (s.bins[b], Started(s, b));
    StartRoles(o, s, b);
    var l := Left(o, LiveOf(x), DeadOf(x), x.depth, k, true);
    assert LeftOf(o, w, b, DeadOf(x), k) == l;
    var i := LeftFrom(o, LiveOf(x), DeadOf(x), x.depth, k, true, j);
    LiveRoute(o, s, b, i);
    assert Follows(w.s, Hash(o, l[j]), x.mask, b, b);
    SplitFollows(o, w, b, DeadOf(x), k, j);
  }

  lemma LiveRoute<El>(o: Ops<El>, s: State<El>, b: nat, i: nat)
    requires Sound(o, s) && b < |s.bins| && i < |LiveOf(s.bins[b])|
    ensures |s.dir| == Pow2(s.maxDepth) && Route(s, Hash(o, LiveOf(s.bins[b])[i])) == b
  {
    hide Route, LiveCount, Pow2;
    assert BinReached(o, s, b);
    var j := D.SurvivorFrom(s.bins[b].els, s.bins[b].live, i);
  }

  /** The two bins of the split: the elements in the old one can be found, those in the new one if they fit. */
  lemma PairReached<El>(o: Ops<El>, s: State<El>, b: nat, k: nat)
    requires Sound(o, s) && b < |s.bins| && Sane(Started(s, b)) && ExitsIn(o, Started(s, b), k)
    ensures
      var (x, r) := (s.bins[b], Split(o, Started(s, b), k));
      && Beside(s, b, r) && BinReached(o, r, b)
      && (BinReached(o, r, |s.bins|) <==>
            Fit(o, Left(o, LiveOf(x), DeadOf(x), x.depth, k, true), x.mask, x.depth, k, s.maxDepth))
  {
    hide Sound, Weak, Split, ExitsIn, Left, LiveOf, DeadOf, Sane, Low, Pow2, Max, MaskAt, Odd, EndsIn, BinReached,
         BinOk, Route, Side, D.Upto, Bit;
    SoundBin(o, s, b);
    var (x, r) := (s.bins[b], Split(o, Started(s, b), k));
    var l := Left(o, LiveOf(x), DeadOf(x), x.depth, k, true);
    SplitBeside(o, s, b, k);
    var v := SplitHolds(o, s, b, k);
    forall j | 0 <= j < |l|
      ensures Route(r, Hash(o, l[j])) ==
        if Odd(Hash(o, l[j]), x.depth, k)
           && Low(Hash(o, l[j]), Max(s.maxDepth, x.depth + k)) == MaskAt(Hash(o, l[j]), x.mask, x.depth, k)
        then |s.bins| else b
    {
      LeftRoute(o, s, b, k, j);
    }
    forall j | 0 <= j < |l| ensures Bit(Hash(o, l[j]), x.depth + k - 1) < 2 {}
    SideReached(o, r, b, l, x.depth + k - 1, 1 - v);
    SideReached(o, r, |s.bins|, l, x.depth + k - 1, v);
  }

  /** Whatever is lost: all the other elements can be found if and only if those of the split bin fit and those
      of the other bins are undisturbed. */
  lemma ReachedIffFit<El>(o: Ops<El>, s: State<El>, b: nat, k: nat)
    requires Sound(o, s) && b < |s.bins| && Sane(Started(s, b)) && ExitsIn(o, Started(s, b), k)
    ensures
      var (x, r) := (s.bins[b], Split(o, Started(s, b), k));
      var l := Left(o, LiveOf(x), DeadOf(x), x.depth, k, true);
      && l != []
      && (Reached(o, r) <==> Fit(o, l, x.mask, x.depth, k, s.maxDepth) && Undisturbed(o, s, b, Hash(o, l[0]), k))
  {
    hide Sound, Split, ExitsIn, Left, LiveOf, DeadOf, Sane, Low, Pow2, Clear, Fit, BinReached, BinOk, Route;
    LeftNonEmpty(o, s, b, k);
    PairReached(o, s, b, k);
    var (x, r) := (s.bins[b], Split(o, Started(s, b), k));
    var l := Left(o, LiveOf(x), DeadOf(x), x.depth, k, true);
    forall c | 0 <= c < |s.bins| && c != b
      ensures BinReached(o, r, c) <==>
        forall i :: i in s.bins[c].live && i < |s.bins[c].els| ==>
          Clear(Hash(o, s.bins[c].els[i]), Hash(o, l[0]), x.mask, x.depth, k, s.maxDepth)
    {
      OtherReached(o, s, b, k, c);
    }
  }

  lemma LeftNonEmpty<El>(o: Ops<El>, s: State<El>, b: nat, k: nat)
    requires Sound(o, s) && b < |s.bins| && Sane(Started(s, b)) && ExitsIn(o, Started(s, b), k)
    ensures Left(o, LiveOf(s.bins[b]), DeadOf(s.bins[b]), s.bins[b].depth, k, true) != []
  {
    hide Sound, Weak, Split, ExitsIn, Left, LiveOf, DeadOf, Sane, BinOk, HoldsBy, ByParity, Agree;
    SoundBin(o, s, b);
    var v := SplitHolds(o, s, b, k);
    LeftDiffers(o, LiveOf(s.bins[b]), DeadOf(s.bins[b]), s.bins[b].depth, k, true);
  }

  lemma OtherReached<El>(o: Ops<El>, s: State<El>, b: nat, k: nat, c: nat)
    requires Sound(o, s) && b < |s.bins| && Sane(Started(s, b)) && ExitsIn(o, Started(s, b), k)
    requires c < |s.bins| && c != b
    ensures
      var (x, r) := (s.bins[b], Split(o, Started(s, b), k));
      var l := Left(o, LiveOf(x), DeadOf(x), x.depth, k, true);
      && l != [] && Beside(s, b, r)
      && (BinReached(o, r, c) <==>
            forall i :: i in s.bins[c].live && i < |s.bins[c].els| ==>
              Clear(Hash(o, s.bins[c].els[i]), Hash(o, l[0]), x.mask, x.depth, k, s.maxDepth))
  {
    hide Split, ExitsIn, Left, LiveOf, DeadOf, Sane, Low, Pow2, Clear, BinOk, Moving, Roles, LiveCount, D.Upto;
    LeftNonEmpty(o, s, b, k);
    var (x, w) := (s.bins[b], Started(s, b));
    StartRoles(o, s, b);
    SplitBeside(o, s, b, k);
    assert BinReached(o, s, c);
    var (r, l) := (Split(o, w, k), Left(o, LiveOf(x), DeadOf(x), x.depth, k, true));
    assert LeftOf(o, w, b, DeadOf(x), k) == l;
    forall i | i in s.bins[c].live && i < |s.bins[c].els|
      ensures Route(r, Hash(o, s.bins[c].els[i])) == c <==>
        Clear(Hash(o, s.bins[c].els[i]), Hash(o, l[0]), x.mask, x.depth, k, s.maxDepth)
    {
      SplitElsewhere(o, w, b, DeadOf(x), k, 0, Hash(o, s.bins[c].els[i]));
    }
  }

  // ---- The elements that are lost ----

  ghost predicate Different<El>(l: seq<El>) {
    forall i, j :: 0 <= i < j < |l| ==> l[i] != l[j]
  }

  lemma DistinctIsDifferent<El(!new)>(o: Ops<El>, l: seq<El>)
    requires Lawful(o) && Distinct(o, l, D.Upto(|l|))
    ensures Different(l)
  {
    hide Lawful;
    forall i, j | 0 <= i < j < |l| ensures l[i] != l[j] {
      EqRefl(o, l[i]);
      assert i in D.Upto(|l|) && j in D.Upto(|l|);
    }
  }

  /** A list of different elements has as many as its set. */
  lemma {:induction false} SeqSetSize<El>(l: seq<El>)
    ensures |SeqSet(l)| <= |l| && (Different(l) ==> |SeqSet(l)| == |l|)
  {
    if l == [] {
      assert SeqSet(l) == {};
    } else {
      var n := |l| - 1;
      SeqSetSize(l[..n]);
      assert SeqSet(l) == SeqSet(l[..n]) + {l[n]};
    }
  }

  /** What is left is all there was if and only if it is the same set. */
  lemma LeftSet<El(!new)>(o: Ops<El>, l: seq<El>, dead: set<nat>, d: nat, k: nat)
    requires Lawful(o) && Distinct(o, l, D.Upto(|l|))
    ensures SeqSet(Left(o, l, dead, d, k, true)) <= SeqSet(l)
    ensures SeqSet(Left(o, l, dead, d, k, true)) == SeqSet(l) <==> Left(o, l, dead, d, k, true) == l
  {
    hide Left, Distinct, Lawful;
    var r := Left(o, l, dead, d, k, true);
    forall j: nat | j < |r| ensures r[j] in SeqSet(l) { var i := LeftFrom(o, l, dead, d, k, true, j); }
    LeftCount(o, l, dead, d, k, true);
    DistinctIsDifferent(o, l);
    SeqSetSize(l);
    SeqSetSize(r);
  }

  lemma LiveSet<El>(x: XBin<El>)
    requires forall i :: i in x.live ==> i < |x.els|
    ensures BinSet(x) == SeqSet(LiveOf(x))
  {
    hide D.Survivors, SeqSet, BinSet;
    SurvivorSet(x, x.cap);
    AllLiveSet(Compacted(x, x.cap));
  }

  /** Exactly what a split loses. */
  lemma SplitLoses<El(!new)>(o: Ops<El>, s: State<El>, b: nat, k: nat)
    requires Lawful(o) && Sound(o, s) && b < |s.bins| && Sane(Started(s, b)) && ExitsIn(o, Started(s, b), k)
    ensures
      var (x, r) := (s.bins[b], Split(o, Started(s, b), k));
      var l := Left(o, LiveOf(x), DeadOf(x), x.depth, k, true);
      Contents(r.bins) == Contents(s.bins) - (SeqSet(LiveOf(x)) - SeqSet(l))
  {
    hide Weak, Sound, Split, ExitsIn, Left, LiveOf, DeadOf, Sane, BinOk, Contents, BinSet, SeqSet, Lawful;
    SoundBin(o, s, b);
    var (x, w) := (s.bins[b], Started(s, b));
    var (r, l) := (Split(o, w, k), Left(o, LiveOf(x), DeadOf(x), x.depth, k, true));
    SplitBeside(o, s, b, k);
    HalvesHold(o, s, b, k);
    BinsApart(o, s, b);
    LostSet(s, r, b, SeqSet(l));
  }

  lemma HalvesHold<El(!new)>(o: Ops<El>, s: State<El>, b: nat, k: nat)
    requires Lawful(o) && Sound(o, s) && b < |s.bins| && Sane(Started(s, b)) && ExitsIn(o, Started(s, b), k)
    ensures
      var (x, r) := (s.bins[b], Split(o, Started(s, b), k));
      var l := Left(o, LiveOf(x), DeadOf(x), x.depth, k, true);
      && |r.bins| > |s.bins| && BinSet(r.bins[b]) + BinSet(r.bins[|s.bins|]) == SeqSet(l)
      && SeqSet(l) <= BinSet(x) == SeqSet(LiveOf(x))
  {
    hide Weak, Sound, Split, ExitsIn, Left, LiveOf, DeadOf, Sane, EndsIn, Routed, BinSet, SeqSet, Next, Lawful, Side,
         D.Upto, ByParity, Distinct, Pow2, IsPow2;
    SoundBin(o, s, b);
    var (x, r) := (s.bins[b], Split(o, Started(s, b), k));
    var l := Left(o, LiveOf(x), DeadOf(x), x.depth, k, true);
    var v := SplitHolds(o, s, b, k);
    SideSets(o, l, x.depth + k - 1);
    AllLiveSet(r.bins[b]);
    AllLiveSet(r.bins[|s.bins|]);
    LiveSet(x);
    LiveDistinct(o, x);
    LeftSet(o, LiveOf(x), DeadOf(x), x.depth, k);
  }

  lemma LiveDistinct<El>(o: Ops<El>, x: XBin<El>)
    requires BinOk(o, x)
    ensures Distinct(o, LiveOf(x), D.Upto(|LiveOf(x)|))
  {
    hide Distinct;
    D.SurvivorsDistinct(o, x.els, x.live);
  }

  lemma BinsApart<El(!new)>(o: Ops<El>, s: State<El>, b: nat)
    requires Lawful(o) && Sound(o, s) && b < |s.bins|
    ensures forall c :: 0 <= c < |s.bins| && c != b ==> BinSet(s.bins[c]) !! BinSet(s.bins[b])
  {
    hide Sound, BinSet, Low, Pow2, Lawful;
    forall c, e | 0 <= c < |s.bins| && c != b && e in BinSet(s.bins[c]) ensures e !in BinSet(s.bins[b]) {
      EqRefl(o, e);
      if e in BinSet(s.bins[b]) {
        OtherBin(o, s, e, c, e);
        OtherBin(o, s, e, b, e);
      }
    }
  }

  /** Bin `b` replaced by two bins that together hold `kept`. */
  lemma LostSet<El>(s: State<El>, r: State<El>, b: nat, kept: set<El>)
    requires Beside(s, b, r) && kept <= BinSet(s.bins[b])
    requires BinSet(r.bins[b]) + BinSet(r.bins[|s.bins|]) == kept
    requires forall c :: 0 <= c < |s.bins| && c != b ==> BinSet(s.bins[c]) !! BinSet(s.bins[b])
    ensures Contents(r.bins) == Contents(s.bins) - (BinSet(s.bins[b]) - kept)
  {
    hide Contents, BinSet, Pow2;
    var n := |s.bins|;
    forall e | e in Contents(r.bins) ensures e in Contents(s.bins) - (BinSet(s.bins[b]) - kept) {
      var c := FromContents(r.bins, e);
      InContents(s.bins, if c == n then b else c);
      InContents(s.bins, b);
    }
    forall e | e in Contents(s.bins) - (BinSet(s.bins[b]) - kept) ensures e in Contents(r.bins) {
      var c := FromContents(s.bins, e);
      InContents(r.bins, c);
      InContents(r.bins, n);
    }
  }

  // ---- Splits that do no harm ----

  /** What must hold of the hashes, the bitmap and the directory before the split of bin `b`: for the first bit
      from the bin's depth on that tells two live elements apart, the bin is spared, the elements fit and the
      other bins are undisturbed. */
  ghost predicate Harmless<El>(o: Ops<El>, s: State<El>, b: nat)
    requires b < |s.bins|
  {
    exists k :: HarmlessIn(o, s, b, k)
  }

  ghost predicate HarmlessIn<El>(o: Ops<El>, s: State<El>, b: nat, k: nat)
    requires b < |s.bins|
  {
    var (x, l) := (s.bins[b], LiveOf(s.bins[b]));
    && l != [] && FirstDifference(o, l, x.depth, k) && Spared(o, l, DeadOf(x), x.depth, k, true)
    && Fit(o, l, x.mask, x.depth, k, s.maxDepth) && Undisturbed(o, s, b, Hash(o, l[0]), k)
  }

  lemma FirstIsOne<El>(o: Ops<El>, l: seq<El>, d: nat, a: nat, b: nat)
    requires FirstDifference(o, l, d, a) && FirstDifference(o, l, d, b)
    ensures a == b
  {
    hide Agree;
  }

  /** A split that ends loses no element if and only if the bin is spared. */
  lemma ContentsIffSpared<El(!new)>(o: Ops<El>, s: State<El>, b: nat, k: nat, first: nat)
    requires Lawful(o) && Sound(o, s) && b < |s.bins| && Sane(Started(s, b)) && ExitsIn(o, Started(s, b), k)
    requires FirstDifference(o, LiveOf(s.bins[b]), s.bins[b].depth, first)
    ensures
      var (x, r) := (s.bins[b], Split(o, Started(s, b), k));
      && (Contents(r.bins) == Contents(s.bins) <==> Spared(o, LiveOf(x), DeadOf(x), x.depth, first, true))
      && (Contents(r.bins) == Contents(s.bins) ==>
            k == first && Left(o, LiveOf(x), DeadOf(x), x.depth, k, true) == LiveOf(x))
  {
    hide Weak, Sound, Split, ExitsIn, Left, LiveOf, DeadOf, Sane, EndsIn, Routed, Contents, BinSet, SeqSet, Next,
         Lawful, FirstDifference, Spared, Distinct, Pow2, IsPow2, HoldsBy, ByParity;
    SoundBin(o, s, b);
    var x := s.bins[b];
    var v := SplitHolds(o, s, b, k);
    LeftIffSpared(o, LiveOf(x), DeadOf(x), x.depth, k, true, first);
    LiveDistinct(o, x);
    LeftSet(o, LiveOf(x), DeadOf(x), x.depth, k);
    SplitLoses(o, s, b, k);
    HalvesHold(o, s, b, k);
    InContents(s.bins, b);
  }

  /** A split that ends loses no element and leaves every element in reach if and only if it is harmless. */
  lemma KeepsIffHarmless<El(!new)>(o: Ops<El>, s: State<El>, b: nat, k: nat)
    requires Lawful(o) && Sound(o, s) && b < |s.bins| && Sane(Started(s, b)) && ExitsIn(o, Started(s, b), k)
    ensures
      var r := Split(o, Started(s, b), k);
      Contents(r.bins) == Contents(s.bins) && Reached(o, r) <==> Harmless(o, s, b)
  {
    hide Weak, Sound, Split, ExitsIn, Left, LiveOf, DeadOf, Sane, EndsIn, Contents, Next, Lawful, BinOk,
         FirstDifference, Spared, Fit, Reached, HoldsBy, ByParity, Undisturbed;
    SoundBin(o, s, b);
    var x := s.bins[b];
    var v := SplitHolds(o, s, b, k);
    var first := EndsFirst(o, LiveOf(x), DeadOf(x), x.depth, k, true);
    ContentsIffSpared(o, s, b, k, first);
    ReachedIffFit(o, s, b, k);
    if Contents(Split(o, Started(s, b), k).bins) == Contents(s.bins) && Reached(o, Split(o, Started(s, b), k)) {
      assert HarmlessIn(o, s, b, first);
    }
    if Harmless(o, s, b) {
      var a :| HarmlessIn(o, s, b, a);
      FirstIsOne(o, LiveOf(x), x.depth, a, first);
    }
  }

  /** The count of the elements after a split. */
  lemma SplitCount<El(!new)>(o: Ops<El>, s: State<El>, b: nat, k: nat)
    requires Lawful(o) && Sound(o, s) && b < |s.bins| && Sane(Started(s, b)) && ExitsIn(o, Started(s, b), k)
    ensures
      var (x, r) := (s.bins[b], Split(o, Started(s, b), k));
      LiveCount(r.bins) + |LiveOf(x)| == LiveCount(s.bins) + |Left(o, LiveOf(x), DeadOf(x), x.depth, k, true)|
  {
    hide Weak, Sound, Split, ExitsIn, Left, LiveOf, DeadOf, Sane, EndsIn, Routed, Next, Lawful, Side, LiveCount,
         ByParity, Distinct, Pow2, IsPow2, Beside, D.Upto;
    SoundBin(o, s, b);
    var (x, w) := (s.bins[b], Started(s, b));
    var r := Split(o, w, k);
    var l := Left(o, LiveOf(x), DeadOf(x), x.depth, k, true);
    SplitBeside(o, s, b, k);
    var v := SplitHolds(o, s, b, k);
    SideCount(o, l, x.depth + k - 1);
    LiveSize(x);
    BesideCount(s, b, r);
  }

  lemma BesideCount<El>(s: State<El>, b: nat, r: State<El>)
    requires Beside(s, b, r)
    ensures LiveCount(r.bins) + |s.bins[b].live| == LiveCount(s.bins) + |r.bins[b].live| + |r.bins[|s.bins|].live|
  {
    hide LiveCount, Pow2;
    LiveCountUpdate(s.bins, b, r.bins[b]);
    LiveCountAppend(s.bins[b := r.bins[b]], r.bins[|s.bins|]);
    assert r.bins == s.bins[b := r.bins[b]] + [r.bins[|s.bins|]];
  }

  lemma LiveSize<El>(x: XBin<El>)
    requires forall i :: i in x.live ==> i < |x.els|
    ensures |LiveOf(x)| == |x.live|
  {
    D.SurvivorsCount(x.els, x.live);
  }

  lemma HarmlessLeft<El(!new)>(o: Ops<El>, s: State<El>, b: nat, k: nat)
    requires Lawful(o) && Sound(o, s) && b < |s.bins| && Sane(Started(s, b)) && ExitsIn(o, Started(s, b), k)
    requires Harmless(o, s, b)
    ensures var x := s.bins[b]; Left(o, LiveOf(x), DeadOf(x), x.depth, k, true) == LiveOf(x)
  {
    hide Sound, Split, ExitsIn, Left, LiveOf, DeadOf, Sane, Contents, Next, Lawful, FirstDifference, Spared, Fit,
         Reached, Undisturbed;
    var first :| HarmlessIn(o, s, b, first);
    ContentsIffSpared(o, s, b, k, first);
  }

  // ---- Splits of a table with the invariant ----

  /** In a table with the invariant the other bins are undisturbed, and the elements fit if the bin is at most
      one bit shallower than the directory. */
  lemma StrongFits<El>(o: Ops<El>, s: State<El>, b: nat, h: nat, k: nat)
    requires Strong(o, s) && b < |s.bins| && k > 0
    ensures Undisturbed(o, s, b, h, k)
    ensures var x := s.bins[b]; H1(s, b) ==> Fit(o, LiveOf(x), x.mask, x.depth, k, s.maxDepth)
  {
    hide Low, Pow2, LiveCount, Distinct, Odd, Clear, MaskAt;
    var x := s.bins[b];
    assert BinOk(o, x) && Routed(o, x) && x.depth <= s.maxDepth;
    forall c, i | 0 <= c < |s.bins| && c != b && i in s.bins[c].live && i < |s.bins[c].els|
      ensures Clear(Hash(o, s.bins[c].els[i]), h, x.mask, x.depth, k, s.maxDepth)
    {
      var g := Hash(o, s.bins[c].els[i]);
      assert BinOk(o, s.bins[c]) && Routed(o, s.bins[c]);
      ElementRoute(o, s, c, i);
      assert Names(s, Low(g, s.maxDepth), b);
      LowLow(g, x.depth, s.maxDepth);
      ClearOutside(g, h, x.mask, x.depth, k, s.maxDepth);
    }
    forall i | 0 <= i < |LiveOf(x)|
      ensures MaskAt(Hash(o, LiveOf(x)[i]), x.mask, x.depth, k) == Low(Hash(o, LiveOf(x)[i]), x.depth + k)
    {
      var j := D.SurvivorFrom(x.els, x.live, i);
      MaskIsLow(Hash(o, x.els[j]), x.mask, x.depth, k);
    }
  }

  /** H1 makes a split harmless that ends after one round, or whose bin has no deleted entry. */
  lemma H1IsHarmless<El>(o: Ops<El>, s: State<El>, b: nat, k: nat)
    requires Strong(o, s) && b < |s.bins| && H1(s, b) && FirstDifference(o, LiveOf(s.bins[b]), s.bins[b].depth, k)
    requires k == 1 || s.bins[b].live == D.Upto(|s.bins[b].els|)
    ensures Harmless(o, s, b)
  {
    hide Strong, Agree, Odd, D.Survivors, Fit, Undisturbed;
    var (x, l) := (s.bins[b], LiveOf(s.bins[b]));
    DifferentNonEmpty(o, l, x.depth + k - 1);
    StrongFits(o, s, b, Hash(o, l[0]), k);
    assert HarmlessIn(o, s, b, k);
  }

  /** The split of a bin without deleted entries: it ends if and only if two hashes differ from the bin's depth
      on, in one round per bit up to the first such bit; it keeps all elements, in order by that bit; and from
      the invariant and H1 every element of the table can be found. */
  lemma CleanSplit<El(!new)>(o: Ops<El>, s: State<El>, b: nat, k: nat)
    requires Lawful(o) && Sound(o, s) && b < |s.bins| && s.bins[b].live == D.Upto(|s.bins[b].els|)
    ensures Sane(Started(s, b))
    ensures ExitsIn(o, Started(s, b), k) <==> FirstDifference(o, s.bins[b].els, s.bins[b].depth, k)
    ensures (exists r :: ExitsIn(o, Started(s, b), r)) <==>
            (exists t :: s.bins[b].depth <= t && !Agree(o, s.bins[b].els, t))
    ensures ExitsIn(o, Started(s, b), k) ==>
      var (x, r) := (s.bins[b], Split(o, Started(s, b), k));
      && (|| HoldsBy(o, r, b, |s.bins|, x.els, x.depth + k - 1, 0)
          || HoldsBy(o, r, b, |s.bins|, x.els, x.depth + k - 1, 1))
      && Contents(r.bins) == Contents(s.bins)
      && (Strong(o, s) && H1(s, b) ==> Reached(o, r))
  {
    hide Sound, Weak, Split, ExitsIn, Left, DeadOf, Sane, BinOk, Contents, Lawful, FirstDifference, Agree, Reached,
         Strong, Harmless, HoldsBy, ByParity, EndsIn, D.Upto, Spared;
    CleanStart(o, s, b);
    var x := s.bins[b];
    CleanEnds(o, s, b, k);
    CleanEver(o, s, b);
    if ExitsIn(o, Started(s, b), k) {
      var v := SplitHolds(o, s, b, k);
      SparedUnmarked(o, x.els, DeadOf(x), x.depth, k);
      ContentsIffSpared(o, s, b, k, k);
      KeepsIffHarmless(o, s, b, k);
      if Strong(o, s) && H1(s, b) { H1IsHarmless(o, s, b, k); }
    }
  }

  lemma SparedUnmarked<El>(o: Ops<El>, l: seq<El>, dead: set<nat>, d: nat, k: nat)
    requires !Marked(l, dead)
    ensures Spared(o, l, dead, d, k, true)
  {
  }

  lemma CleanStart<El>(o: Ops<El>, s: State<El>, b: nat)
    requires Sound(o, s) && b < |s.bins| && s.bins[b].live == D.Upto(|s.bins[b].els|)
    ensures Weak(o, s) && Sane(Started(s, b)) && Roles(Started(s, b), b, DeadOf(s.bins[b]))
    ensures LiveOf(s.bins[b]) == s.bins[b].els && !Marked(s.bins[b].els, DeadOf(s.bins[b]))
    ensures Moving(Started(s, b)) == s.bins[b].els && Started(s, b).s.bins[b].depth == s.bins[b].depth
  {
    hide Reached, LiveCount, BinOk, Pow2, D.Survivors, Moving;
    var x := s.bins[b];
    StartRoles(o, s, b);
    D.SurvivorsAll(x.els, x.live);
  }

  lemma CleanEnds<El>(o: Ops<El>, s: State<El>, b: nat, k: nat)
    requires Sound(o, s) && b < |s.bins| && s.bins[b].live == D.Upto(|s.bins[b].els|)
    ensures Sane(Started(s, b))
    ensures ExitsIn(o, Started(s, b), k) <==> FirstDifference(o, s.bins[b].els, s.bins[b].depth, k)
  {
    hide Sound, ExitsIn, DeadOf, Sane, FirstDifference, EndsIn, D.Upto, Roles, Moving, Marked;
    CleanStart(o, s, b);
    ExitsIffEndsIn(o, Started(s, b), b, DeadOf(s.bins[b]), k);
    EndsUnmarked(o, s.bins[b].els, DeadOf(s.bins[b]), s.bins[b].depth, k, true);
  }

  lemma CleanEver<El>(o: Ops<El>, s: State<El>, b: nat)
    requires Sound(o, s) && b < |s.bins| && s.bins[b].live == D.Upto(|s.bins[b].els|)
    ensures Sane(Started(s, b))
    ensures (exists r :: ExitsIn(o, Started(s, b), r)) <==>
            (exists t :: s.bins[b].depth <= t && !Agree(o, s.bins[b].els, t))
  {
    hide Sound, ExitsIn, Sane, Agree, D.Upto;
    var x := s.bins[b];
    CleanEnds(o, s, b, 0);
    if r :| ExitsIn(o, Started(s, b), r) {
      CleanEnds(o, s, b, r);
      assert x.depth <= x.depth + r - 1 && !Agree(o, x.els, x.depth + r - 1);
    }
    if t :| x.depth <= t && !Agree(o, x.els, t) {
      var k := FirstOf(o, x.els, x.depth, t);
      CleanEnds(o, s, b, k);
    }
  }
}
