/** Splits of any number of rounds in bins with deleted entries: when they end, which elements they lose, and
    in which bin every other one ends.  The loop reads the bitmap of the split bin again in every round, but
    the first round has already moved the elements to other entries. */
module SplitLosses {
  import opened BitMath
  import D = Dense
  import opened Extendible
  import opened Keys
  import opened Probe
  import opened SplitLoop

  /** The number of ones among the `k` bits from bit `d` on is odd. */
  predicate Odd(h: nat, d: nat, k: nat)
    decreases k
  {
    k > 0 && (Bit(h, d) == 1) != Odd(h, d + 1, k - 1)
  }

  /** Whether the next round splits the bin with the deleted entries, if this one does when `mine`: the roles
      are exchanged when no element has a 0 in the bit. */
  predicate Again<El>(o: Ops<El>, l: seq<El>, d: nat, mine: bool) {
    mine == (Side(o, l, d, 0) != [])
  }

  /** What the next round moves if this one moves `l` to one side. */
  function Moved<El>(o: Ops<El>, l: seq<El>, dead: set<nat>, d: nat, mine: bool): seq<El> {
    if Again(o, l, d, mine) then Kept(l, dead) else l
  }

  /** What the last of `k` rounds moves if the first moves `l`. */
  function Left<El>(o: Ops<El>, l: seq<El>, dead: set<nat>, d: nat, k: nat, mine: bool): seq<El>
    decreases k
  {
    if k <= 1 then l else Left(o, Moved(o, l, dead, d, mine), dead, d + 1, k - 1, Again(o, l, d, mine))
  }

  /** The first of `k` rounds that tells two of the moved elements apart is the last. */
  ghost predicate EndsIn<El>(o: Ops<El>, l: seq<El>, dead: set<nat>, d: nat, k: nat, mine: bool)
    decreases k
  {
    k > 0 &&
    if !Agree(o, l, d) then k == 1
    else EndsIn(o, Moved(o, l, dead, d, mine), dead, d + 1, k - 1, Again(o, l, d, mine))
  }

  /** Whether `k` rounds exchange the two bins an odd number of times. */
  predicate Exchanged<El>(o: Ops<El>, l: seq<El>, dead: set<nat>, d: nat, k: nat, mine: bool)
    decreases k
  {
    k > 1 &&
    (Side(o, l, d, 0) == []) != Exchanged(o, Moved(o, l, dead, d, mine), dead, d + 1, k - 1, Again(o, l, d, mine))
  }

  /** The bitmaps of the two bins: `dead` in bin `b0`, nothing in its partner. */
  ghost predicate Roles<El>(w: Work<El>, b0: nat, dead: set<nat>) {
    && Sane(w) && (w.b == b0 || w.n == b0)
    && w.deadB == (if w.b == b0 then dead else {}) && w.deadN == (if w.b == b0 then {} else dead)
  }

  /** A round that does not end the loop, and what the next one moves. */
  lemma NextMoves<El>(o: Ops<El>, w: Work<El>, b0: nat, dead: set<nat>)
    requires Roles(w, b0, dead)
    ensures
      var (l, d) := (Moving(w), w.s.bins[w.b].depth);
      Exits(o, w) <==> !Agree(o, l, d)
    ensures !Exits(o, w) ==>
      var (l, d, x) := (Moving(w), w.s.bins[w.b].depth, Next(o, w));
      && Roles(x, b0, dead) && x.s.bins[x.b].depth == d + 1 && (x.b == b0) == Again(o, l, d, w.b == b0)
      && Moving(x) == Moved(o, l, dead, d, w.b == b0)
      && (if Side(o, l, d, 0) == [] then x.b == w.n && x.n == w.b else x.b == w.b && x.n == w.n)
  {
    hide Side, Kept, Agree, D.Upto, Pow2;
    var (l, d) := (Moving(w), w.s.bins[w.b].depth);
    AgreeSides(o, l, d);
    KeptAll(l);
  }

  /** Bins `b` and `n` hold the two sides of `l` at bit `t`, in order. */
  ghost predicate Holds<El>(o: Ops<El>, r: State<El>, b: nat, n: nat, l: seq<El>, t: nat) {
    && b < |r.bins| && n < |r.bins| && r.bins[b].depth == r.bins[n].depth == t + 1
    && r.bins[b].els == Side(o, l, t, 0) && r.bins[b].live == D.Upto(|r.bins[b].els|)
    && r.bins[n].els == Side(o, l, t, 1) && r.bins[n].live == D.Upto(|r.bins[n].els|)
  }

  /** When a split ends, for any bitmap. */
  lemma {:induction false} ExitsIffEndsIn<El>(o: Ops<El>, w: Work<El>, b0: nat, dead: set<nat>, k: nat)
    requires Roles(w, b0, dead)
    ensures ExitsIn(o, w, k) <==> EndsIn(o, Moving(w), dead, w.s.bins[w.b].depth, k, w.b == b0)
    decreases k
  {
    hide Agree, Moving, Again, Moved, Roles, Next, Exits, Sane;
    RolesAreSane(w, b0, dead);
    NextMoves(o, w, b0, dead);
    if k > 1 && !Exits(o, w) { ExitsIffEndsIn(o, Next(o, w), b0, dead, k - 1); }
  }

  lemma RolesAreSane<El>(w: Work<El>, b0: nat, dead: set<nat>)
    requires Roles(w, b0, dead)
    ensures Sane(w) && w.b < |w.s.bins| && w.n < |w.s.bins|
  {
  }

  /** What the two bins hold when a split has ended, for any bitmap. */
  lemma {:induction false} SplitLeaves<El>(o: Ops<El>, w: Work<El>, b0: nat, dead: set<nat>, k: nat)
    requires Roles(w, b0, dead) && ExitsIn(o, w, k)
    ensures
      var (l, d, mine) := (Moving(w), w.s.bins[w.b].depth, w.b == b0);
      var (b, n) := if Exchanged(o, l, dead, d, k, mine) then (w.n, w.b) else (w.b, w.n);
      Holds(o, Split(o, w, k), b, n, Left(o, l, dead, d, k, mine), d + k - 1)
    decreases k
  {
    hide Side, Agree, Moving, Again, Moved, Roles, Next, Round, Holds, Exits, Sane;
    RolesAreSane(w, b0, dead);
    NextMoves(o, w, b0, dead);
    if k > 1 { SplitLeaves(o, Next(o, w), b0, dead, k - 1); } else { LastRound(o, w); }
  }

  lemma LastRound<El>(o: Ops<El>, w: Work<El>)
    requires Sane(w)
    ensures Holds(o, Round(o, w), w.b, w.n, Moving(w), w.s.bins[w.b].depth)
  {
    hide Side, Moving, Pow2;
  }

  // ---- What is lost ----

  /** The bitmap marks one of the first entries. */
  predicate Marked<El>(l: seq<El>, dead: set<nat>) { D.Upto(|l|) * dead != {} }

  /** Reading `l` with the bitmap drops exactly the entries that it marks. */
  lemma KeptCount<El>(l: seq<El>, dead: set<nat>)
    ensures |Kept(l, dead)| == |l| - |D.Upto(|l|) * dead|
    ensures Kept(l, dead) == l <==> !Marked(l, dead)
    ensures |Kept(l, dead)| == |l| ==> Kept(l, dead) == l
  {
    hide D.Survivors;
    var lost := D.Upto(|l|) * dead;
    assert D.Upto(|l|) == (D.Upto(|l|) - dead) + lost;
    D.SurvivorsCount(l, D.Upto(|l|) - dead);
    if lost == {} {
      assert D.Upto(|l|) - dead == D.Upto(|l|);
      D.SurvivorsAll(l, D.Upto(|l|));
    }
  }

  lemma {:induction false} LeftFrom<El>(o: Ops<El>, l: seq<El>, dead: set<nat>, d: nat, k: nat, mine: bool, j: nat)
    returns (i: nat)
    requires j < |Left(o, l, dead, d, k, mine)|
    ensures i < |l| && l[i] == Left(o, l, dead, d, k, mine)[j]
    decreases k
  {
    hide Again, Kept;
    i := j;
    if k > 1 {
      var m := Moved(o, l, dead, d, mine);
      i := LeftFrom(o, m, dead, d + 1, k - 1, Again(o, l, d, mine), j);
      if Again(o, l, d, mine) { i := KeptFrom(l, dead, i); }
    }
  }

  lemma KeptFrom<El>(l: seq<El>, dead: set<nat>, j: nat) returns (i: nat)
    requires j < |Kept(l, dead)|
    ensures i < |l| && l[i] == Kept(l, dead)[j]
  {
    i := D.SurvivorFrom(l, D.Upto(|l|) - dead, j);
  }

  /** Nothing is lost unless there is less. */
  lemma {:induction false} LeftCount<El>(o: Ops<El>, l: seq<El>, dead: set<nat>, d: nat, k: nat, mine: bool)
    ensures |Left(o, l, dead, d, k, mine)| <= |l|
    ensures |Left(o, l, dead, d, k, mine)| == |l| ==> Left(o, l, dead, d, k, mine) == l
    decreases k
  {
    hide Again, Kept, Marked, D.Upto;
    if k > 1 {
      KeptCount(l, dead);
      LeftCount(o, Moved(o, l, dead, d, mine), dead, d + 1, k - 1, Again(o, l, d, mine));
    }
  }

  /** The bin with the deleted entries is never split again while it holds an entry that its bitmap marks:
      it has none, or the elements leave it in the first round and stay away until they are told apart. */
  ghost predicate Spared<El>(o: Ops<El>, l: seq<El>, dead: set<nat>, d: nat, k: nat, mine: bool) {
    !Marked(l, dead) || (l != [] && forall r :: 1 <= r < k ==> Odd(Hash(o, l[0]), d, r) == mine)
  }

  /** All elements have the value of the first in a bit in which they agree. */
  lemma AgreeValue<El>(o: Ops<El>, l: seq<El>, d: nat, i: nat)
    requires Agree(o, l, d) && i < |l|
    ensures Bit(Hash(o, l[i]), d) == 1 <==> Side(o, l, d, 0) == []
  {
    hide Side, Bit;
    AgreeSides(o, l, d);
    if Side(o, l, d, 0) == [] { SideMember(o, l, d, 1, i); } else { SideMember(o, l, d, 0, i); }
  }

  lemma SparedNext<El>(o: Ops<El>, l: seq<El>, dead: set<nat>, d: nat, k: nat, mine: bool)
    requires Agree(o, l, d) && l != [] && k > 1
    ensures Again(o, l, d, mine) && Marked(l, dead) ==> !Spared(o, l, dead, d, k, mine)
    ensures !Again(o, l, d, mine) ==> (Spared(o, l, dead, d, k, mine) <==> Spared(o, l, dead, d + 1, k - 1, false))
  {
    hide Agree, Side, Marked, Bit;
    AgreeValue(o, l, d, 0);
    var h := Hash(o, l[0]);
    assert Odd(h, d, 1) == (Bit(h, d) == 1);
    if !Again(o, l, d, mine) {
      if Spared(o, l, dead, d, k, mine) && Marked(l, dead) {
        var e := d + 1;
        forall r | 1 <= r < k - 1 ensures !Odd(h, e, r) { assert Odd(h, d, r + 1) == mine; }
      }
      if Spared(o, l, dead, d + 1, k - 1, false) && Marked(l, dead) {
        forall r | 1 <= r < k ensures Odd(h, d, r) == mine { assert r > 1 ==> Odd(h, d + 1, r - 1) == false; }
      }
    }
  }

  /** A split loses nothing if and only if the bin is spared; it then takes as many rounds as the first bit
      that tells two elements apart asks for. */
  lemma {:induction false} LeftIffSpared<El>(
    o: Ops<El>, l: seq<El>, dead: set<nat>, d: nat, k: nat, mine: bool, first: nat)
    requires EndsIn(o, l, dead, d, k, mine) && FirstDifference(o, l, d, first)
    ensures Left(o, l, dead, d, k, mine) == l <==> Spared(o, l, dead, d, first, mine)
    ensures Left(o, l, dead, d, k, mine) == l ==> k == first
    decreases k
  {
    hide Agree, Side, Marked, Again, Kept, Odd, D.Upto;
    assert l != [] by { DifferentNonEmpty(o, l, d + first - 1); }
    if !Agree(o, l, d) {
      assert first == 1;
    } else {
      assert first > 1 && k > 1;
      var again := Again(o, l, d, mine);
      var m := Moved(o, l, dead, d, mine);
      KeptCount(l, dead);
      SparedNext(o, l, dead, d, first, mine);
      LeftCount(o, m, dead, d + 1, k - 1, again);
      if m == l {
        LeftIffSpared(o, l, dead, d + 1, k - 1, again, first - 1);
      }
    }
  }

  lemma DifferentNonEmpty<El>(o: Ops<El>, l: seq<El>, d: nat)
    requires !Agree(o, l, d)
    ensures l != []
  {
  }

  /** The bin in which an element ends. */
  lemma {:induction false} LeftParity<El>(o: Ops<El>, l: seq<El>, dead: set<nat>, d: nat, k: nat, mine: bool, j: nat)
    requires EndsIn(o, l, dead, d, k, mine) && j < |Left(o, l, dead, d, k, mine)|
    ensures Odd(Hash(o, Left(o, l, dead, d, k, mine)[j]), d, k - 1) == Exchanged(o, l, dead, d, k, mine)
    decreases k
  {
    hide Agree, Side, Again, Moved, Bit;
    if k > 1 {
      LeftParity(o, Moved(o, l, dead, d, mine), dead, d + 1, k - 1, Again(o, l, d, mine), j);
      var i := LeftFrom(o, l, dead, d, k, mine, j);
      AgreeValue(o, l, d, i);
    }
  }

  /** What is left is told apart by the last round. */
  lemma {:induction false} LeftDiffers<El>(o: Ops<El>, l: seq<El>, dead: set<nat>, d: nat, k: nat, mine: bool)
    requires EndsIn(o, l, dead, d, k, mine)
    ensures k > 0 && !Agree(o, Left(o, l, dead, d, k, mine), d + k - 1) && Left(o, l, dead, d, k, mine) != []
    decreases k
  {
    hide Agree, Again, Moved;
    if k > 1 {
      LeftDiffers(o, Moved(o, l, dead, d, mine), dead, d + 1, k - 1, Again(o, l, d, mine));
    } else {
      DifferentNonEmpty(o, l, d);
    }
  }

  // ---- The first difference ----

  /** The first bit from `d` on in which two elements differ, if bit `t` is one. */
  lemma {:induction false} FirstOf<El>(o: Ops<El>, l: seq<El>, d: nat, t: nat) returns (k: nat)
    requires d <= t && !Agree(o, l, t)
    ensures FirstDifference(o, l, d, k) && d + k - 1 <= t
    decreases t - d
  {
    hide Agree;
    if Agree(o, l, d) {
      k := FirstOf(o, l, d + 1, t);
      k := k + 1;
    } else {
      k := 1;
    }
  }

  /** A split that ends tells two of the elements apart. */
  lemma EndsFirst<El>(o: Ops<El>, l: seq<El>, dead: set<nat>, d: nat, k: nat, mine: bool) returns (first: nat)
    requires EndsIn(o, l, dead, d, k, mine)
    ensures FirstDifference(o, l, d, first) && first <= k
  {
    hide Agree;
    EndsDiffer(o, l, dead, d, k, mine);
    first := FirstOf(o, l, d, d + k - 1);
  }

  lemma {:induction false} EndsDiffer<El>(o: Ops<El>, l: seq<El>, dead: set<nat>, d: nat, k: nat, mine: bool)
    requires EndsIn(o, l, dead, d, k, mine)
    ensures k > 0 && !Agree(o, l, d + k - 1)
    decreases k
  {
    hide Agree, Again, Kept;
    if k > 1 {
      EndsDiffer(o, Moved(o, l, dead, d, mine), dead, d + 1, k - 1, Again(o, l, d, mine));
      if Agree(o, l, d + k - 1) { KeptAgree(o, l, dead, d + k - 1); }
    }
  }

  /** If the bitmap marks none of the elements' entries, the split ends in exactly `k` rounds if and only if the
      `k`-th bit is the first in which two elements differ. */
  lemma {:induction false} EndsUnmarked<El>(o: Ops<El>, l: seq<El>, dead: set<nat>, d: nat, k: nat, mine: bool)
    requires !Marked(l, dead)
    ensures EndsIn(o, l, dead, d, k, mine) <==> FirstDifference(o, l, d, k)
    decreases k
  {
    hide Agree, Again, Kept, Marked;
    KeptCount(l, dead);
    if k > 0 && Agree(o, l, d) {
      EndsUnmarked(o, l, dead, d + 1, k - 1, Again(o, l, d, mine));
    }
  }
}
