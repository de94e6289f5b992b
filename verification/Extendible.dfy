/** ixhtab without its slots: a directory of bins, each a dense element sequence, with directory
    doubling, bin splitting and compaction.  Every function here does what the code does, including
    where that breaks the directory; the lemmas say exactly when it does not. */
module Extendible {
  import opened BitMath
  import D = Dense
  import opened Keys
  import opened Probe

  /** `cap` is the size of the element array. */
  datatype XBin<El> = XBin(depth: nat, mask: nat, cap: nat, els: seq<El>, live: set<nat>)

  datatype State<El> = State(maxDepth: nat, dir: seq<nat>, bins: seq<XBin<El>>, num: nat)

  const MAX_CAP: nat := 0x4000

  /** A bin is well formed by itself. */
  ghost predicate BinOk<El>(o: Ops<El>, b: XBin<El>) {
    && b.mask < Pow2(b.depth)
    && 8 <= b.cap <= MAX_CAP && IsPow2(b.cap)
    && |b.els| <= b.cap
    && (forall i :: i in b.live ==> i < |b.els|)
    && Distinct(o, b.els, b.live)
  }

  function LiveCount<El>(bins: seq<XBin<El>>): nat {
    if bins == [] then 0 else LiveCount(bins[..|bins| - 1]) + |bins[|bins| - 1].live|
  }

  /** What every operation keeps, whatever the hashes are. */
  ghost predicate Weak<El>(o: Ops<El>, s: State<El>) {
    && |s.dir| == Pow2(s.maxDepth)
    && (forall j :: 0 <= j < |s.dir| ==> s.dir[j] < |s.bins|)
    && (forall b :: 0 <= b < |s.bins| ==> BinOk(o, s.bins[b]) && s.bins[b].depth <= s.maxDepth)
    && LiveCount(s.bins) <= s.num
  }

  /** Directory entry `j` names bin `b` exactly when the low bits of `j` are the bin's mask. */
  predicate Names<El>(s: State<El>, j: nat, b: nat)
    requires j < |s.dir| && b < |s.bins|
  {
    s.dir[j] == b <==> Low(j, s.bins[b].depth) == s.bins[b].mask
  }

  ghost predicate DirOk<El>(s: State<El>) {
    forall j, b :: 0 <= j < |s.dir| && 0 <= b < |s.bins| ==> Names(s, j, b)
  }

  /** Every element of a bin has the bin's mask in the low bits of its hash. */
  ghost predicate Routed<El>(o: Ops<El>, b: XBin<El>)
    requires forall i :: i in b.live ==> i < |b.els|
  {
    forall i :: i in b.live ==> Low(Hash(o, b.els[i]), b.depth) == b.mask
  }

  /** The invariant of an extendible hash table. */
  ghost predicate Strong<El>(o: Ops<El>, s: State<El>) {
    && Weak(o, s)
    && DirOk(s)
    && (forall b :: 0 <= b < |s.bins| ==> Routed(o, s.bins[b]))
    && LiveCount(s.bins) == s.num
  }

  function Route<El>(s: State<El>, h: nat): nat
    requires |s.dir| == Pow2(s.maxDepth)
  {
    s.dir[Low(h, s.maxDepth)]
  }

  // ---- Splitting ----

  /** The elements whose hash has value `v` in bit `k`, in order. */
  function Side<El>(o: Ops<El>, l: seq<El>, k: nat, v: nat): (r: seq<El>)
    ensures |r| <= |l|
  {
    if l == [] then [] else
      var n := |l| - 1;
      Side(o, l[..n], k, v) + if Bit(Hash(o, l[n]), k) == v then [l[n]] else []
  }

  /** The elements not marked in the bitmap. */
  function Kept<El>(els: seq<El>, dead: set<nat>): seq<El> {
    D.Survivors(els, D.Upto(|els|) - dead)
  }

  /** The variables of the split loop: the table, the bin being split and its new partner, and the
      deletion bitmaps of the two, which the loop reads but does not clear. */
  datatype Work<El> = Work(s: State<El>, b: nat, n: nat, deadB: set<nat>, deadN: set<nat>)

  predicate Sane<El>(w: Work<El>) {
    && w.b < |w.s.bins| && w.n < |w.s.bins| && w.b != w.n
    && w.s.bins[w.b].mask < Pow2(w.s.bins[w.b].depth)
    && |w.s.dir| == Pow2(w.s.maxDepth) && w.s.bins[w.b].depth <= w.s.maxDepth
  }

  /** The directory after the depth has grown to `depth`. */
  function Grown<El>(s: State<El>, depth: nat): State<El> {
    if depth > s.maxDepth then s.(maxDepth := depth, dir := s.dir + s.dir) else s
  }

  function SplitMask<El>(b: XBin<El>): nat { b.mask + Pow2(b.depth) }

  lemma SplitMaskFits<El>(w: Work<El>)
    requires Sane(w)
    ensures var s := Grown(w.s, w.s.bins[w.b].depth + 1);
      |s.dir| == Pow2(s.maxDepth) && SplitMask(w.s.bins[w.b]) < Pow2(w.s.bins[w.b].depth + 1) <= |s.dir|
  {
    var d := w.s.bins[w.b].depth;
    assert Pow2(d + 1) == 2 * Pow2(d);
    if d + 1 <= w.s.maxDepth { Pow2Monotone(d + 1, w.s.maxDepth); }
  }

  /** The elements the round distributes: those the bitmap does not mark. */
  function Moving<El>(w: Work<El>): seq<El>
    requires w.b < |w.s.bins|
  {
    Kept(w.s.bins[w.b].els, w.deadB)
  }

  /** The split bin after a round: one bit deeper, holding the elements with a 0 in that bit. */
  function OldBin<El>(o: Ops<El>, w: Work<El>): XBin<El>
    requires w.b < |w.s.bins|
  {
    var b := w.s.bins[w.b];
    var l := Side(o, Moving(w), b.depth, 0);
    b.(depth := b.depth + 1, els := l, live := D.Upto(|l|))
  }

  /** Its partner, holding the elements with a 1. */
  function NewBin<El>(o: Ops<El>, w: Work<El>): XBin<El>
    requires w.b < |w.s.bins| && w.n < |w.s.bins|
  {
    var b := w.s.bins[w.b];
    var l := Side(o, Moving(w), b.depth, 1);
    XBin(b.depth + 1, SplitMask(b), w.s.bins[w.n].cap, l, D.Upto(|l|))
  }

  /** One round of the loop of `ixht_split_bin`, up to the decision whether to go on. */
  function Round<El>(o: Ops<El>, w: Work<El>): (r: State<El>)
    requires Sane(w)
    ensures r.num == w.s.num && |r.bins| == |w.s.bins|
    ensures r.bins[w.b] == OldBin(o, w) && r.bins[w.n] == NewBin(o, w)
  {
    SplitMaskFits(w);
    var s := Grown(w.s, w.s.bins[w.b].depth + 1);
    s.(dir := s.dir[SplitMask(w.s.bins[w.b]) := w.n],
       bins := s.bins[w.b := OldBin(o, w)][w.n := NewBin(o, w)])
  }

  /** Both bins received an element. */
  predicate Exits<El>(o: Ops<El>, w: Work<El>)
    requires Sane(w)
  {
    OldBin(o, w).els != [] && NewBin(o, w).els != []
  }

  /** The next round's variables: the bins change roles when the old one received nothing. */
  function Next<El>(o: Ops<El>, w: Work<El>): (r: Work<El>)
    requires Sane(w)
    ensures Sane(r)
  {
    SplitMaskFits(w);
    var s := Round(o, w);
    if OldBin(o, w).els == [] then Work(s, w.n, w.b, w.deadN, w.deadB) else w.(s := s)
  }

  /** The loop ends in exactly `k` rounds. */
  predicate ExitsIn<El>(o: Ops<El>, w: Work<El>, k: nat)
    requires Sane(w)
    decreases k
  {
    k > 0 && if Exits(o, w) then k == 1 else ExitsIn(o, Next(o, w), k - 1)
  }

  /** The table when the loop has ended. */
  function Split<El>(o: Ops<El>, w: Work<El>, k: nat): State<El>
    requires Sane(w) && ExitsIn(o, w, k)
    decreases k
  {
    if k == 1 then Round(o, w) else Split(o, Next(o, w), k - 1)
  }

  // ---- Operations ----

  /** The split loop is entered with a new empty bin whose depth and mask are not yet set. */
  function Started<El>(s: State<El>, b: nat): Work<El>
    requires b < |s.bins|
  {
    var x := s.bins[b];
    Work(s.(bins := s.bins + [XBin(0, 0, x.cap, [], {})]), b, |s.bins|, D.Upto(|x.els|) - x.live, {})
  }

  /** The bin rebuilt in place with room for `cap` elements. */
  function Compacted<El>(x: XBin<El>, cap: nat): XBin<El> {
    var l := D.Survivors(x.els, x.live);
    x.(cap := cap, els := l, live := D.Upto(|l|))
  }

  predicate MustMakeRoom<El>(s: State<El>, b: nat)
    requires b < |s.bins|
  {
    |s.bins[b].els| == s.bins[b].cap
  }

  /** The table holds at least as many elements as the full bin can. */
  predicate Grows<El>(s: State<El>, b: nat)
    requires b < |s.bins|
  {
    2 * s.num >= 2 * s.bins[b].cap
  }

  predicate MustSplit<El>(s: State<El>, b: nat)
    requires b < |s.bins|
  {
    MustMakeRoom(s, b) && Grows(s, b) && 2 * s.bins[b].cap >= 0x8000
  }

  /** Room made in the full bin `b`: by splitting it, or by compacting it into an array of the same or
      of twice the size. */
  function Roomy<El>(o: Ops<El>, s: State<El>, b: nat, rounds: nat): State<El>
    requires b < |s.bins| && MustMakeRoom(s, b)
    requires MustSplit(s, b) ==> Sane(Started(s, b)) && ExitsIn(o, Started(s, b), rounds)
  {
    if MustSplit(s, b) then Split(o, Started(s, b), rounds)
    else s.(bins := s.bins[b := Compacted(s.bins[b], if Grows(s, b) then 2 * s.bins[b].cap else s.bins[b].cap)])
  }

  /** `ixht_do_1` on bin `b`. */
  function Acted<El>(o: Ops<El>, s: State<El>, b: nat, key: El, action: Action): (State<El>, bool, nat)
    requires b < |s.bins|
  {
    var x := s.bins[b];
    var res := D.Position(o, x.els, x.live, key, 0);
    if res < |x.els| then
      (if action == Delete then
         s.(bins := s.bins[b := x.(live := x.live - {res})], num := if s.num > 0 then s.num - 1 else 0)
       else s, true, res)
    else
      (if action == Insert then
         s.(bins := s.bins[b := x.(els := x.els + [key], live := x.live + {res})], num := s.num + 1)
       else s, false, res)
  }

  // ---- Sides ----

  lemma {:induction false} SideCount<El>(o: Ops<El>, l: seq<El>, k: nat)
    ensures |Side(o, l, k, 0)| + |Side(o, l, k, 1)| == |l|
  {
    if l != [] { SideCount(o, l[..|l| - 1], k); }
  }

  lemma {:induction false} SideFrom<El>(o: Ops<El>, l: seq<El>, k: nat, v: nat, j: nat) returns (i: nat)
    requires j < |Side(o, l, k, v)|
    ensures i < |l| && l[i] == Side(o, l, k, v)[j] && Bit(Hash(o, l[i]), k) == v
    ensures j == |Side(o, l[..i], k, v)|
  {
    var n := |l| - 1;
    if j < |Side(o, l[..n], k, v)| {
      i := SideFrom(o, l[..n], k, v, j);
      assert l[..n][..i] == l[..i];
    } else {
      i := n;
    }
  }

  lemma {:induction false} SideHas<El>(o: Ops<El>, l: seq<El>, k: nat, v: nat, i: nat)
    requires i < |l| && Bit(Hash(o, l[i]), k) == v
    ensures |Side(o, l[..i], k, v)| < |Side(o, l, k, v)|
    ensures Side(o, l, k, v)[|Side(o, l[..i], k, v)|] == l[i]
  {
    var n := |l| - 1;
    if i < n {
      SideHas(o, l[..n], k, v, i);
      assert l[..n][..i] == l[..i];
    }
  }

  lemma SideDistinct<El>(o: Ops<El>, l: seq<El>, k: nat, v: nat)
    requires Distinct(o, l, D.Upto(|l|))
    ensures Distinct(o, Side(o, l, k, v), D.Upto(|Side(o, l, k, v)|))
  {
    var r := Side(o, l, k, v);
    forall a, b | a in D.Upto(|r|) && b in D.Upto(|r|) && a != b ensures !Eq(o, r[a], r[b]) {
      var i := SideFrom(o, l, k, v, a);
      var j := SideFrom(o, l, k, v, b);
    }
  }

  lemma KeptDistinct<El>(o: Ops<El>, els: seq<El>, dead: set<nat>)
    requires Distinct(o, els, D.Upto(|els|) - dead)
    ensures Distinct(o, Kept(els, dead), D.Upto(|Kept(els, dead)|))
  {
    D.SurvivorsDistinct(o, els, D.Upto(|els|) - dead);
  }

  // ---- Counting live elements ----

  lemma {:induction false} LiveCountUpdate<El>(bins: seq<XBin<El>>, b: nat, x: XBin<El>)
    requires b < |bins|
    ensures LiveCount(bins[b := x]) + |bins[b].live| == LiveCount(bins) + |x.live|
  {
    var n := |bins| - 1;
    if b < n {
      LiveCountUpdate(bins[..n], b, x);
      assert bins[b := x][..n] == bins[..n][b := x];
    } else {
      assert bins[b := x][..n] == bins[..n];
    }
  }

  lemma LiveCountAppend<El>(bins: seq<XBin<El>>, x: XBin<El>)
    ensures LiveCount(bins + [x]) == LiveCount(bins) + |x.live|
  {
    assert (bins + [x])[..|bins|] == bins;
  }

  lemma {:induction false} LiveCountAtLeast<El>(bins: seq<XBin<El>>, b: nat)
    requires b < |bins|
    ensures |bins[b].live| <= LiveCount(bins)
  {
    if b < |bins| - 1 { LiveCountAtLeast(bins[..|bins| - 1], b); }
  }

  // ---- What every operation keeps ----

  /** The variables of the split loop at the start of a round. */
  ghost predicate WorkOk<El>(o: Ops<El>, w: Work<El>) {
    && Weak(o, w.s)
    && w.b < |w.s.bins| && w.n < |w.s.bins| && w.b != w.n
    && w.s.bins[w.n].els == [] && w.s.bins[w.n].cap == w.s.bins[w.b].cap
    && var b := w.s.bins[w.b];
       && Distinct(o, b.els, D.Upto(|b.els|) - w.deadB)
       && |Moving(w)| <= |b.live|
  }

  lemma StartedOk<El>(o: Ops<El>, s: State<El>, b: nat)
    requires Weak(o, s) && b < |s.bins|
    ensures WorkOk(o, Started(s, b)) && Sane(Started(s, b))
    ensures Kept(s.bins[b].els, Started(s, b).deadB) == D.Survivors(s.bins[b].els, s.bins[b].live)
  {
    var x, w := s.bins[b], Started(s, b);
    assert BinOk(o, x);
    assert D.Upto(|x.els|) - w.deadB == x.live;
    D.SurvivorsCount(x.els, x.live);
    LiveCountAppend(s.bins, w.s.bins[w.n]);
  }

  lemma MovingFits<El>(o: Ops<El>, w: Work<El>)
    requires WorkOk(o, w) && Sane(w)
    ensures BinOk(o, w.s.bins[w.b]) && BinOk(o, w.s.bins[w.n])
    ensures |OldBin(o, w).els| + |NewBin(o, w).els| == |Moving(w)| <= w.s.bins[w.b].cap
  {
    hide Side, IsPow2, Distinct, Pow2;
    SideCount(o, Moving(w), w.s.bins[w.b].depth);
  }

  /** A bin whose elements are all live and pairwise different. */
  lemma AllLiveOk<El>(o: Ops<El>, depth: nat, mask: nat, cap: nat, l: seq<El>)
    requires mask < Pow2(depth) && 8 <= cap <= MAX_CAP && IsPow2(cap) && |l| <= cap && Distinct(o, l, D.Upto(|l|))
    ensures BinOk(o, XBin(depth, mask, cap, l, D.Upto(|l|)))
  {
  }

  lemma BinParts<El>(o: Ops<El>, x: XBin<El>)
    requires BinOk(o, x)
    ensures x.mask < Pow2(x.depth) && 8 <= x.cap <= MAX_CAP && IsPow2(x.cap)
    ensures Pow2(x.depth + 1) == 2 * Pow2(x.depth)
  {
  }

  lemma SideOk<El>(o: Ops<El>, w: Work<El>, v: nat)
    requires WorkOk(o, w) && Sane(w)
    ensures var l := Side(o, Moving(w), w.s.bins[w.b].depth, v); Distinct(o, l, D.Upto(|l|))
  {
    hide Side, Distinct, Weak, D.Survivors;
    KeptDistinct(o, w.s.bins[w.b].els, w.deadB);
    SideDistinct(o, Moving(w), w.s.bins[w.b].depth, v);
  }

  lemma OldBinOk<El>(o: Ops<El>, w: Work<El>)
    requires WorkOk(o, w) && Sane(w)
    ensures BinOk(o, OldBin(o, w))
  {
    hide Side, IsPow2, Pow2, Distinct, Weak, WorkOk, BinOk, D.Upto;
    MovingFits(o, w);
    BinParts(o, w.s.bins[w.b]);
    SideOk(o, w, 0);
    var x := OldBin(o, w);
    AllLiveOk(o, x.depth, x.mask, x.cap, x.els);
  }

  lemma NewBinOk<El>(o: Ops<El>, w: Work<El>)
    requires WorkOk(o, w) && Sane(w)
    ensures BinOk(o, NewBin(o, w))
  {
    hide Side, IsPow2, Pow2, Distinct, Weak, BinOk, D.Upto, Kept;
    MovingFits(o, w);
    BinParts(o, w.s.bins[w.b]);
    BinParts(o, w.s.bins[w.n]);
    SideOk(o, w, 1);
    var x := NewBin(o, w);
    AllLiveOk(o, x.depth, x.mask, x.cap, x.els);
  }

  lemma RoundCount<El>(o: Ops<El>, w: Work<El>)
    requires WorkOk(o, w) && Sane(w)
    ensures LiveCount(Round(o, w).bins) + |w.s.bins[w.b].live| == LiveCount(w.s.bins) + |Moving(w)|
  {
    hide D.Survivors, Side, IsPow2, Distinct, D.Upto;
    SideCount(o, Moving(w), w.s.bins[w.b].depth);
    LiveCountUpdate(w.s.bins, w.b, OldBin(o, w));
    LiveCountUpdate(w.s.bins[w.b := OldBin(o, w)], w.n, NewBin(o, w));
    assert BinOk(o, w.s.bins[w.n]);
    assert w.s.bins[w.n].live == {};
  }

  lemma RoundDir<El>(o: Ops<El>, w: Work<El>)
    requires Weak(o, w.s) && Sane(w)
    ensures var r := Round(o, w);
      |r.dir| == Pow2(r.maxDepth) && forall j :: 0 <= j < |r.dir| ==> r.dir[j] < |r.bins|
  {
    hide D.Survivors, Side, BinOk, OldBin, NewBin;
    SplitMaskFits(w);
    var r := Round(o, w);
    forall j | 0 <= j < |r.dir| ensures r.dir[j] < |r.bins| {
      if j != SplitMask(w.s.bins[w.b]) { assert Grown(w.s, w.s.bins[w.b].depth + 1).dir[j] in w.s.dir; }
    }
  }

  lemma RoundWeak<El>(o: Ops<El>, w: Work<El>)
    requires WorkOk(o, w) && Sane(w)
    ensures Weak(o, Round(o, w))
  {
    hide D.Survivors, Side, BinOk, LiveCount, Kept, Pow2, Distinct;
    OldBinOk(o, w);
    NewBinOk(o, w);
    RoundCount(o, w);
    RoundDir(o, w);
  }

  lemma NextOk<El>(o: Ops<El>, w: Work<El>)
    requires WorkOk(o, w) && Sane(w) && !Exits(o, w)
    ensures WorkOk(o, Next(o, w))
  {
    hide D.Survivors, Side, IsPow2, Pow2, Distinct, Weak;
    RoundWeak(o, w);
    OldBinOk(o, w);
    NewBinOk(o, w);
    MovingFits(o, w);
    var x := Next(o, w);
    var b := x.s.bins[x.b];
    DistinctSubset(o, b.els, D.Upto(|b.els|), x.deadB);
  }

  lemma DistinctSubset<El>(o: Ops<El>, els: seq<El>, live: set<nat>, dead: set<nat>)
    requires (forall i :: i in live ==> i < |els|) && Distinct(o, els, live)
    ensures Distinct(o, els, live - dead)
  {
  }

  /** However many rounds the split takes, the table stays well formed. */
  lemma {:induction false} SplitWeak<El>(o: Ops<El>, w: Work<El>, k: nat)
    requires WorkOk(o, w) && Sane(w) && ExitsIn(o, w, k)
    ensures Weak(o, Split(o, w, k))
    decreases k
  {
    hide Round, Weak, WorkOk, OldBin, NewBin;
    RoundWeak(o, w);
    if k > 1 {
      NextOk(o, w);
      SplitWeak(o, Next(o, w), k - 1);
    }
  }

  /** No bin but the two partners changes, and both partners get room. */
  lemma {:induction false} SplitRoom<El>(o: Ops<El>, w: Work<El>, k: nat)
    requires WorkOk(o, w) && Sane(w) && ExitsIn(o, w, k)
    ensures var r := Split(o, w, k);
      && |r.bins| == |w.s.bins| && r.num == w.s.num
      && |r.bins[w.b].els| < r.bins[w.b].cap && |r.bins[w.n].els| < r.bins[w.n].cap
      && (forall c :: 0 <= c < |r.bins| && c != w.b && c != w.n ==> r.bins[c] == w.s.bins[c])
    decreases k
  {
    hide Weak, Side, Kept, Pow2, D.Upto;
    MovingFits(o, w);
    if k > 1 {
      NextOk(o, w);
      SplitRoom(o, Next(o, w), k - 1);
    }
  }

  /** Growing the directory changes no route. */
  lemma GrownRoute<El>(s: State<El>, depth: nat, h: nat)
    requires |s.dir| == Pow2(s.maxDepth) && depth <= s.maxDepth + 1
    ensures var g := Grown(s, depth); |g.dir| == Pow2(g.maxDepth) && Route(g, h) == Route(s, h)
  {
    hide Low;
    LowNext(h, s.maxDepth);
  }

  /** A round sends no hash to a third bin. */
  lemma RoundRoute<El>(o: Ops<El>, w: Work<El>, h: nat)
    requires Sane(w)
    ensures |Round(o, w).dir| == Pow2(Round(o, w).maxDepth)
    ensures Route(Round(o, w), h) ==
      if Low(h, Round(o, w).maxDepth) == SplitMask(w.s.bins[w.b]) then w.n else Route(w.s, h)
  {
    hide OldBin, NewBin, Pow2, Low;
    SplitMaskFits(w);
    GrownRoute(w.s, w.s.bins[w.b].depth + 1, h);
  }

  lemma {:induction false} SplitRoute<El>(o: Ops<El>, w: Work<El>, k: nat, h: nat)
    requires Sane(w) && ExitsIn(o, w, k)
    ensures |Split(o, w, k).dir| == Pow2(Split(o, w, k).maxDepth)
    ensures Route(w.s, h) in {w.b, w.n} ==> Route(Split(o, w, k), h) in {w.b, w.n}
    decreases k
  {
    hide Round, Pow2, Low;
    RoundRoute(o, w, h);
    if k > 1 { SplitRoute(o, Next(o, w), k - 1, h); }
  }

  lemma Pow2Below(n: nat)
    requires IsPow2(n) && 8 <= n < 0x4000
    ensures 2 * n <= 0x4000 && IsPow2(2 * n)
  {
    assert 2 * n / 2 == n;
    hide IsPow2, Pow2;
    Pow2Values();
    Pow2Gap(n, 14);
  }

  /** Compaction leaves room: in an array of twice the size, or because the table holds fewer elements
      than this one full bin has entries, so that some of its entries are deleted. */
  lemma CompactedOk<El>(o: Ops<El>, s: State<El>, b: nat)
    requires Weak(o, s) && b < |s.bins| && MustMakeRoom(s, b) && !MustSplit(s, b)
    ensures var r := Roomy(o, s, b, 0);
      Weak(o, r) && |r.bins[b].els| < r.bins[b].cap && LiveCount(r.bins) == LiveCount(s.bins)
  {
    hide D.Survivors, Distinct, IsPow2, Pow2, LiveCount;
    var x, r := s.bins[b], Roomy(o, s, b, 0);
    assert BinOk(o, x);
    D.SurvivorsCount(x.els, x.live);
    D.SurvivorsDistinct(o, x.els, x.live);
    LiveCountAtLeast(s.bins, b);
    LiveCountUpdate(s.bins, b, r.bins[b]);
    if Grows(s, b) { Pow2Below(x.cap); }
    AllLiveOk(o, x.depth, x.mask, r.bins[b].cap, r.bins[b].els);
  }

  /** Making room keeps the table well formed, and the bin that the key is then routed to has room. */
  lemma RoomyOk<El>(o: Ops<El>, s: State<El>, h: nat, rounds: nat)
    requires Weak(o, s) && Route(s, h) < |s.bins| && MustMakeRoom(s, Route(s, h))
    requires var b := Route(s, h); MustSplit(s, b) ==> Sane(Started(s, b)) && ExitsIn(o, Started(s, b), rounds)
    ensures var r := Roomy(o, s, Route(s, h), rounds);
      && Weak(o, r) && Route(r, h) < |r.bins|
      && |r.bins[Route(r, h)].els| < r.bins[Route(r, h)].cap
      && r.num == s.num
  {
    var b := Route(s, h);
    hide Weak, Split, ExitsIn, Compacted, Pow2, Low;
    if MustSplit(s, b) {
      var w := Started(s, b);
      StartedOk(o, s, b);
      SplitWeak(o, w, rounds);
      SplitRoom(o, w, rounds);
      SplitRoute(o, w, rounds, h);
    } else {
      CompactedOk(o, s, b);
    }
  }

  lemma ActedWeak<El(!new)>(o: Ops<El>, s: State<El>, b: nat, key: El, action: Action)
    requires Lawful(o) && Weak(o, s) && b < |s.bins| && (action == Insert ==> |s.bins[b].els| < s.bins[b].cap)
    ensures Weak(o, Acted(o, s, b, key, action).0)
    ensures var r := Acted(o, s, b, key, action).0; LiveCount(r.bins) + s.num == LiveCount(s.bins) + r.num
  {
    hide IsPow2, Pow2, LiveCount, D.Position;
    var x, r := s.bins[b], Acted(o, s, b, key, action).0;
    assert BinOk(o, x);
    LiveCountUpdate(s.bins, b, r.bins[b]);
    LiveCountAtLeast(s.bins, b);
    var i := D.Position(o, x.els, x.live, key, 0);
    if i == |x.els| {
      assert Absent(o, x.els, x.live, key);
      D.AppendDistinct(o, x.els, x.live, key);
    }
  }
}
