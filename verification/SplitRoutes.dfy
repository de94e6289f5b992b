/** Where the directory sends the elements of a sound table after a split of any number of rounds.  Nothing is
    asked of the directory but that every element could be found before. */
module SplitRoutes {
  import opened BitMath
  import D = Dense
  import opened Directory
  import opened Extendible
  import opened Keys
  import opened Probe
  import opened SplitLoop
  import opened SplitLosses

  function Max(a: nat, b: nat): nat { if a > b then a else b }

  /** The mask of the half with value `v` in the bit that is split. */
  function HalfMask(m: nat, d: nat, v: nat): nat { m + v * Pow2(d) }

  /** Mask `m` of depth `d` extended by the next `k` bits of hash `h`. */
  function MaskAt(h: nat, m: nat, d: nat, k: nat): nat
    decreases k
  {
    if k == 0 then m else MaskAt(h, HalfMask(m, d, Bit(h, d)), d + 1, k - 1)
  }

  /** The entry that the round after `k` others writes. */
  function WrittenAt(h: nat, m: nat, d: nat, k: nat): nat { MaskAt(h, m, d, k) + Pow2(d + k) }

  // ---- The elements of the split bin ----

  /** Hash `h` is sent to bin `c` if it is the mask in all bits that index the directory, else to `b0`. */
  ghost predicate Follows<El>(s: State<El>, h: nat, m: nat, c: nat, b0: nat) {
    |s.dir| == Pow2(s.maxDepth) && Route(s, h) == if Low(h, s.maxDepth) == m then c else b0
  }

  lemma RoundFollows<El>(o: Ops<El>, w: Work<El>, b0: nat, h: nat)
    requires Sane(w) && Follows(w.s, h, w.s.bins[w.b].mask, w.b, b0)
    ensures
      var (x, v) := (w.s.bins[w.b], Bit(h, w.s.bins[w.b].depth));
      Follows(Round(o, w), h, HalfMask(x.mask, x.depth, v), if v == 0 then w.b else w.n, b0)
  {
    hide Low, Pow2, OldBin, NewBin, Route, Bit;
    var (x, r) := (w.s.bins[w.b], Round(o, w));
    var (d, m) := (x.depth, w.s.maxDepth);
    SplitMaskFits(w);
    RoundRoute(o, w, h);
    LowOfSum(x.mask, d);
    LowNext(h, d);
    LowLow(h, d + 1, r.maxDepth);
    LowLow(h, d, m);
    if m > d { LowLow(h, d + 1, m); }
    LowSmall(x.mask, d);
  }

  lemma RoundDepth<El>(o: Ops<El>, w: Work<El>)
    requires Sane(w)
    ensures Round(o, w).maxDepth == Max(w.s.maxDepth, w.s.bins[w.b].depth + 1)
    ensures Round(o, w).bins[w.b].mask == HalfMask(w.s.bins[w.b].mask, w.s.bins[w.b].depth, 0)
    ensures Round(o, w).bins[w.n].mask == HalfMask(w.s.bins[w.b].mask, w.s.bins[w.b].depth, 1)
  {
  }

  /** What the last of `k` rounds moves. */
  function LeftOf<El>(o: Ops<El>, w: Work<El>, b0: nat, dead: set<nat>, k: nat): seq<El>
    requires w.b < |w.s.bins|
  {
    Left(o, Moving(w), dead, w.s.bins[w.b].depth, k, w.b == b0)
  }

  /** The next round, as the hash of any element that is not lost determines it. */
  lemma Continues<El>(o: Ops<El>, w: Work<El>, b0: nat, dead: set<nat>, k: nat, j: nat)
    requires Roles(w, b0, dead) && ExitsIn(o, w, k) && k > 1 && j < |LeftOf(o, w, b0, dead, k)|
    ensures
      var (x, y) := (w.s.bins[w.b], Next(o, w));
      var v := Bit(Hash(o, LeftOf(o, w, b0, dead, k)[j]), x.depth);
      && Roles(y, b0, dead) && Sane(y) && ExitsIn(o, y, k - 1) && Split(o, y, k - 1) == Split(o, w, k)
      && LeftOf(o, y, b0, dead, k - 1) == LeftOf(o, w, b0, dead, k)
      && y.s == Round(o, w) && (if v == 0 then y.b == w.b && y.n == w.n else y.b == w.n && y.n == w.b)
      && y.s.bins[y.b].depth == x.depth + 1 && y.s.bins[y.b].mask == HalfMask(x.mask, x.depth, v)
  {
    hide Moving, Again, Moved, Roles, Next, Round, Exits, HalfMask, Agree, Side, Bit, Sane;
    RolesAreSane(w, b0, dead);
    NextMoves(o, w, b0, dead);
    ExitsIffEndsIn(o, w, b0, dead, k);
    var x := w.s.bins[w.b];
    NextIs(o, w);
    RoundDepth(o, w);
    var i := LeftFrom(o, Moving(w), dead, x.depth, k, w.b == b0, j);
    AgreeValue(o, Moving(w), x.depth, i);
    OddOne(Hash(o, Moving(w)[i]), x.depth, k);
  }

  /** An element that `k` rounds do not lose: the bin in which it ends, the mask of that bin, and where the
      directory sends it. */
  lemma {:induction false} SplitFollows<El>(o: Ops<El>, w: Work<El>, b0: nat, dead: set<nat>, k: nat, j: nat)
    requires Roles(w, b0, dead) && Sane(w) && ExitsIn(o, w, k) && j < |LeftOf(o, w, b0, dead, k)|
    requires Follows(w.s, Hash(o, LeftOf(o, w, b0, dead, k)[j]), w.s.bins[w.b].mask, w.b, b0)
    ensures
      var (x, r) := (w.s.bins[w.b], Split(o, w, k));
      var h := Hash(o, LeftOf(o, w, b0, dead, k)[j]);
      var c := if Odd(h, x.depth, k) then w.n else w.b;
      && r.maxDepth == Max(w.s.maxDepth, x.depth + k)
      && c < |r.bins| && r.bins[c].mask == MaskAt(h, x.mask, x.depth, k)
      && Follows(r, h, MaskAt(h, x.mask, x.depth, k), c, b0)
    decreases k
  {
    hide LeftOf, Roles, Next, Round, Follows, HalfMask, Bit, Sane, Split, ExitsIn, Odd, MaskAt, OldBin, NewBin;
    RolesAreSane(w, b0, dead);
    var x := w.s.bins[w.b];
    var h := Hash(o, LeftOf(o, w, b0, dead, k)[j]);
    RoundFollows(o, w, b0, h);
    RoundDepth(o, w);
    LastSplit(o, w, k);
    OddOne(h, x.depth, k);
    MaskStep(h, x.mask, x.depth, k);
    if k > 1 {
      Continues(o, w, b0, dead, k, j);
      SplitFollows(o, Next(o, w), b0, dead, k - 1, j);
    }
  }

  /** The depth of the directory after a split. */
  lemma {:induction false} SplitDepth<El>(o: Ops<El>, w: Work<El>, k: nat)
    requires Sane(w) && ExitsIn(o, w, k)
    ensures Split(o, w, k).maxDepth == Max(w.s.maxDepth, w.s.bins[w.b].depth + k)
    decreases k
  {
    NextIs(o, w);
    hide Next, Round, OldBin, NewBin, Sane, Exits;
    RoundDepth(o, w);
    if k > 1 { SplitDepth(o, Next(o, w), k - 1); }
  }

  lemma LastSplit<El>(o: Ops<El>, w: Work<El>, k: nat)
    requires Sane(w) && ExitsIn(o, w, k)
    ensures k > 0 && (k == 1 ==> Split(o, w, k) == Round(o, w))
  {
    hide Round, Next, Exits;
  }

  lemma MaskStep(h: nat, m: nat, d: nat, k: nat)
    requires k > 0
    ensures MaskAt(h, m, d, k) == MaskAt(h, HalfMask(m, d, Bit(h, d)), d + 1, k - 1)
    ensures k == 1 ==> MaskAt(h, m, d, k) == HalfMask(m, d, Bit(h, d))
  {
  }

  lemma OddOne(h: nat, d: nat, k: nat)
    requires k > 0
    ensures Odd(h, d, k) <==> (Bit(h, d) == 1) != Odd(h, d + 1, k - 1)
    ensures k == 1 ==> (Odd(h, d, k) <==> Bit(h, d) == 1)
    ensures Bit(h, d) < 2
  {
  }

  lemma NextIs<El>(o: Ops<El>, w: Work<El>)
    requires Sane(w)
    ensures var y := Next(o, w); y.s == Round(o, w) && Sane(y) && y.s.bins[y.b].depth == w.s.bins[w.b].depth + 1
  {
  }

  // ---- The elements of other bins ----

  /** The round after `r` others does not write the entry of hash `g`. */
  predicate Missed(g: nat, h: nat, m: nat, d: nat, r: nat, maxDepth: nat) {
    Low(g, Max(maxDepth, d + r + 1)) != WrittenAt(h, m, d, r)
  }

  /** None of `k` rounds writes the entry of hash `g`. */
  ghost predicate Clear(g: nat, h: nat, m: nat, d: nat, k: nat, maxDepth: nat) {
    forall r :: 0 <= r < k ==> Missed(g, h, m, d, r, maxDepth)
  }

  lemma MissedNext(g: nat, h: nat, m: nat, d: nat, r: nat, maxDepth: nat)
    ensures Missed(g, h, HalfMask(m, d, Bit(h, d)), d + 1, r, Max(maxDepth, d + 1))
      <==> Missed(g, h, m, d, r + 1, maxDepth)
  {
    hide Low, Pow2, Bit, HalfMask;
    assert Max(Max(maxDepth, d + 1), d + 1 + r + 1) == Max(maxDepth, d + (r + 1) + 1);
  }

  lemma ClearNext(g: nat, h: nat, m: nat, d: nat, k: nat, maxDepth: nat)
    requires k > 0
    ensures Clear(g, h, m, d, k, maxDepth) <==>
      Low(g, Max(maxDepth, d + 1)) != m + Pow2(d)
      && Clear(g, h, HalfMask(m, d, Bit(h, d)), d + 1, k - 1, Max(maxDepth, d + 1))
  {
    hide Low, Bit, HalfMask, Max, MaskAt, Pow2;
    var (m1, d1, max1) := (HalfMask(m, d, Bit(h, d)), d + 1, Max(maxDepth, d + 1));
    assert Missed(g, h, m, d, 0, maxDepth) <==> Low(g, Max(maxDepth, d + 1)) != m + Pow2(d) by {
      FirstWritten(h, m, d);
    }
    if Clear(g, h, m, d, k, maxDepth) {
      forall r | 0 <= r < k - 1 ensures Missed(g, h, m1, d1, r, max1) { MissedNext(g, h, m, d, r, maxDepth); }
    }
    if Missed(g, h, m, d, 0, maxDepth) && Clear(g, h, m1, d1, k - 1, max1) {
      forall r | 0 <= r < k ensures Missed(g, h, m, d, r, maxDepth) {
        if r > 0 { MissedNext(g, h, m, d, r - 1, maxDepth); }
      }
    }
  }

  lemma FirstWritten(h: nat, m: nat, d: nat)
    ensures WrittenAt(h, m, d, 0) == m + Pow2(d)
  {
  }

  /** A hash that is sent to another bin before the split is sent there after it if and only if no round writes
      its entry.  The hash of any element that is not lost says which entries are written. */
  lemma {:induction false} SplitElsewhere<El>(o: Ops<El>, w: Work<El>, b0: nat, dead: set<nat>, k: nat, j: nat, g: nat)
    requires Roles(w, b0, dead) && Sane(w) && ExitsIn(o, w, k) && j < |LeftOf(o, w, b0, dead, k)|
    requires |w.s.dir| == Pow2(w.s.maxDepth) && Route(w.s, g) != w.b && Route(w.s, g) != w.n
    ensures
      var (x, r) := (w.s.bins[w.b], Split(o, w, k));
      var h := Hash(o, LeftOf(o, w, b0, dead, k)[j]);
      && |r.dir| == Pow2(r.maxDepth)
      && (Route(r, g) == Route(w.s, g) <==> Clear(g, h, x.mask, x.depth, k, w.s.maxDepth))
    decreases k
  {
    hide LeftOf, Roles, Next, Round, HalfMask, Bit, Sane, Clear, Route, Low, Pow2, Split, ExitsIn, Max, OldBin, NewBin;
    RolesAreSane(w, b0, dead);
    var x := w.s.bins[w.b];
    var h := Hash(o, LeftOf(o, w, b0, dead, k)[j]);
    LastSplit(o, w, k);
    ClearNext(g, h, x.mask, x.depth, k, w.s.maxDepth);
    RoundRoute(o, w, g);
    RoundDepth(o, w);
    if k == 1 {
      NeverClear(g, h, HalfMask(x.mask, x.depth, Bit(h, x.depth)), x.depth + 1, Max(w.s.maxDepth, x.depth + 1));
    } else {
      Continues(o, w, b0, dead, k, j);
      SplitRoute(o, Next(o, w), k - 1, g);
      if Route(Round(o, w), g) == Route(w.s, g) { SplitElsewhere(o, Next(o, w), b0, dead, k - 1, j, g); }
    }
  }

  lemma NeverClear(g: nat, h: nat, m: nat, d: nat, maxDepth: nat)
    ensures Clear(g, h, m, d, 0, maxDepth)
  {
  }

  // ---- Masks ----

  /** An element that belongs to the mask belongs to its extension. */
  lemma {:induction false} MaskIsLow(h: nat, m: nat, d: nat, k: nat)
    requires Low(h, d) == m
    ensures MaskAt(h, m, d, k) == Low(h, d + k)
    decreases k
  {
    hide Low, Bit, Pow2;
    if k > 0 {
      LowNext(h, d);
      assert Bit(h, d) < 2 by { OddOne(h, d, 1); }
      MaskIsLow(h, HalfMask(m, d, Bit(h, d)), d + 1, k - 1);
    }
  }

  lemma {:induction false} MaskFits(h: nat, m: nat, d: nat, k: nat)
    requires m < Pow2(d)
    ensures MaskAt(h, m, d, k) < Pow2(d + k) && Low(MaskAt(h, m, d, k), d) == m
    decreases k
  {
    hide Low, Bit;
    LowSmall(m, d);
    if k > 0 {
      var m1 := HalfMask(m, d, Bit(h, d));
      assert Pow2(d + 1) == 2 * Pow2(d);
      assert Bit(h, d) == 0 || Bit(h, d) == 1 by { OddOne(h, d, 1); }
      MaskFits(h, m1, d + 1, k - 1);
      LowLow(MaskAt(h, m, d, k), d, d + 1);
      LowOfSum(m, d);
    }
  }

  /** The entries that a split writes all have the mask of the bin in their low bits. */
  lemma WrittenLow(h: nat, m: nat, d: nat, k: nat)
    requires m < Pow2(d)
    ensures Low(WrittenAt(h, m, d, k), d) == m
  {
    hide Low, Pow2, MaskAt;
    MaskFits(h, m, d, k);
    LowOfSum(MaskAt(h, m, d, k), d + k);
    LowLow(WrittenAt(h, m, d, k), d, d + k);
  }

  /** A hash without the mask in its low bits is never in the way. */
  lemma ClearOutside(g: nat, h: nat, m: nat, d: nat, k: nat, maxDepth: nat)
    requires m < Pow2(d) && d <= maxDepth && Low(g, d) != m
    ensures Clear(g, h, m, d, k, maxDepth)
  {
    hide Low, Pow2, WrittenAt;
    forall r | 0 <= r < k ensures Missed(g, h, m, d, r, maxDepth) {
      WrittenLow(h, m, d, r);
      LowLow(g, d, Max(maxDepth, d + r + 1));
    }
  }
}
