/** The other way to lose an element: a split without H1, after which its directory entry still names the old
    bin.  Multiples of 8 fill bin 0, whose split deepens the directory by three bits; odd numbers then fill bin 1,
    which is as shallow as it was. */
module StaleRoute {
  import opened BitMath
  import C = Counterexample
  import opened Counterexample
  import D = Dense
  import opened Directory
  import opened Extendible
  import opened IxExact
  import opened IxRuns
  import opened Keys
  import opened Probe
  import opened SplitExact
  import opened SplitLoop
  import opened SplitLosses
  import opened SplitRoutes

  // ---- The first split ----

  lemma EightBits(m: nat)
    ensures Bit(8 * m, 1) == 0 && Bit(8 * m, 2) == 0
  {
    SmallBits(8 * m);
  }

  /** Multiples of 8 differ in bit 3 and in no bit before it. */
  lemma EightsDiffer(n: nat)
    requires n > 1
    ensures FirstDifference(Identity(), Times(8, n), 1, 3)
  {
    hide Bit, Times;
    var (o, l) := (Identity(), Times(8, n));
    forall i | 0 <= i < n ensures Bit(Hash(o, l[i]), 1) == 0 && Bit(Hash(o, l[i]), 2) == 0 {
      IdentityIs(l[i], 0);
      EightBits(i + 1);
    }
    SmallBits(8);
    SmallBits(16);
    IdentityIs(8, 0);
    IdentityIs(16, 0);
    assert l[0] == 8 && l[1] == 16;
  }

  lemma EightsFull(n: nat, x: nat)
    requires n == MAX_CAP && x == 8 * (n + 1)
    ensures MustSplit(Filled(8, n), 0) && H1(Filled(8, n), 0)
    ensures |Filled(8, n).dir| == Pow2(Filled(8, n).maxDepth) && Route(Filled(8, n), Hash(Identity(), x)) == 0
  {
    hide D.Upto, Low;
    IdentityIs(x, 0);
    SmallLow(x);
  }

  /** The split ends in three rounds and does no harm. */
  lemma EightsSplit(n: nat, x: nat)
    requires n == MAX_CAP && x == 8 * (n + 1) && Strong(Identity(), Filled(8, n))
    ensures Sane(Started(Filled(8, n), 0)) && ExitsIn(Identity(), Started(Filled(8, n), 0), 3)
    ensures Ready(Identity(), Filled(8, n), x, Insert, 3) && Splits(Identity(), Filled(8, n), x, Insert)
    ensures Prepared(Identity(), Filled(8, n), x, Insert, 3) == Split(Identity(), Started(Filled(8, n), 0), 3)
    ensures Harmless(Identity(), Filled(8, n), 0)
  {
    hide Strong, Sound, Weak, ExitsIn, Split, Started, Sane, Harmless, FirstDifference, D.Upto, Times, MustSplit,
         H1, Low, Pow2, Ready, Prepared, Splits;
    var (o, s) := (Identity(), Filled(8, n));
    StrongIsSound(o, s);
    C.StrongIsWeak(o, s);
    IdentityLawful();
    EightsFull(n, x);
    EightsDiffer(n);
    CleanSplit(o, s, 0, 3);
    CleanStart(o, s, 0);
    H1IsHarmless(o, s, 0, 3);
    SplitReady(s, x, 0, 3);
  }

  // ---- The odd numbers ----

  /** The first `i` odd numbers. */
  function Odds(i: nat): (l: seq<nat>)
    ensures |l| == i && forall j :: 0 <= j < i ==> l[j] == 2 * j + 1
  {
    if i == 0 then [] else Odds(i - 1) + [2 * i - 1]
  }

  /** Bin 1 has depth 1 and the first `i` odd numbers; the directory has depth 4 and sends odd numbers there. */
  ghost predicate Shallow(t: State<nat>, i: nat) {
    && t.maxDepth == 4 && |t.dir| == Pow2(t.maxDepth) && |t.bins| > 1 && t.num >= MAX_CAP
    && t.bins[1] == XBin(1, 1, MAX_CAP, Odds(i), D.Upto(i))
    && forall g :: g % 2 == 1 ==> Route(t, g) == 1
  }

  /** The first split leaves bin 1 and the entries of odd numbers as they are. */
  lemma SplitShallow(n: nat, x: nat)
    requires n == MAX_CAP && x == 8 * (n + 1) && Strong(Identity(), Filled(8, n))
    requires Sane(Started(Filled(8, n), 0)) && ExitsIn(Identity(), Started(Filled(8, n), 0), 3)
    ensures Shallow(Split(Identity(), Started(Filled(8, n), 0), 3), 0)
  {
    hide Strong, Sound, Weak, ExitsIn, Split, Sane, D.Upto, Times, Low, Pow2, LeftOf, Roles, WorkOk, MaskAt, Clear;
    var (o, s) := (Identity(), Filled(8, n));
    var w := Started(s, 0);
    StrongIsSound(o, s);
    C.StrongIsWeak(o, s);
    StartedOk(o, s, 0);
    SplitRoom(o, w, 3);
    SplitDepth(o, w, 3);
    StartRoles(o, s, 0);
    LeftStarts(s, 3);
    SplitRoute(o, w, 3, 0);
    forall g | g % 2 == 1 ensures Route(Split(o, w, 3), g) == 1 {
      OddEntry(n, g);
      ClearOutside(g, Hash(o, LeftOf(o, w, 0, DeadOf(s.bins[0]), 3)[0]), 0, 1, 3, 1);
      SplitElsewhere(o, w, 0, DeadOf(s.bins[0]), 3, 0, g);
    }
  }

  lemma LeftStarts(s: State<nat>, k: nat)
    requires Sound(Identity(), s) && |s.bins| > 0 && Sane(Started(s, 0)) && ExitsIn(Identity(), Started(s, 0), k)
    ensures LeftOf(Identity(), Started(s, 0), 0, DeadOf(s.bins[0]), k) != []
  {
    hide Left, ExitsIn, Sane, LiveOf, DeadOf, Moving, BinOk, Reached, LiveCount;
    StartRoles(Identity(), s, 0);
    LeftNonEmpty(Identity(), s, 0, k);
  }

  lemma OddEntry(n: nat, g: nat)
    requires g % 2 == 1
    ensures Low(g, 1) == 1 && Pow2(1) == 2
    ensures |Filled(8, n).dir| == Pow2(Filled(8, n).maxDepth) && Route(Filled(8, n), g) == 1
  {
    hide Low, Times, D.Upto;
    SmallLow(g);
  }

  function ToShallow(n: nat, x: nat, i: nat): seq<D.Op<nat>>
    decreases i
  {
    if i == 0 then Inserts(8, n) + [D.InsertOp(x, x)]
    else ToShallow(n, x, i - 1) + [D.InsertOp(2 * i - 1, 2 * i - 1)]
  }

  function ShallowTurns(n: nat, i: nat): seq<nat>
    decreases i
  {
    if i == 0 then Turns(n) + [3] else ShallowTurns(n, i - 1) + [0]
  }

  /** The insertion that splits bin 0 does not touch bin 1. */
  lemma EightsInserted(n: nat, x: nat)
    requires n == MAX_CAP && x == 8 * (n + 1) && Strong(Identity(), Filled(8, n))
    requires Ready(Identity(), Filled(8, n), x, Insert, 3)
    requires Shallow(Prepared(Identity(), Filled(8, n), x, Insert, 3), 0)
    requires Route(Prepared(Identity(), Filled(8, n), x, Insert, 3), Hash(Identity(), x)) != 1
    ensures Shallow(Apply(Identity(), Filled(8, n), D.InsertOp(x, x), 3).0, 0)
  {
    hide Strong, Ready, Prepared, Apply, Low, Pow2, Filled, BinAfter, D.Upto, Odds;
    var (o, s) := (Identity(), Filled(8, n));
    PreparedFacts(o, s, x, Insert, 3);
    ApplyChanges(o, s, D.InsertOp(x, x), 3);
    var p := Prepared(o, s, x, Insert, 3);
    BinGrows(p.bins[Route(p, Hash(o, x))], x);
    var u := Apply(o, s, D.InsertOp(x, x), 3).0;
    forall g | g % 2 == 1 ensures Route(u, g) == 1 { assert Route(p, g) == 1; }
  }

  lemma BinGrows(y: XBin<nat>, x: nat)
    requires forall i :: i in y.live ==> i < |y.els|
    ensures |BinAfter(Identity(), y, D.InsertOp(x, x)).live| >= |y.live|
  {
    hide D.Position;
  }

  lemma StartOdds(n: nat, x: nat) returns (t: State<nat>)
    requires n == MAX_CAP && x == 8 * (n + 1)
    ensures Trace(ToShallow(n, x, 0), ShallowTurns(n, 0), t) && Shallow(t, 0)
  {
    hide Trace, Strong, Ready, Prepared, Apply, Splits, Harmless, Shallow, Filled, Inserts, Turns, Split, ExitsIn, Sane,
         Started, Low, Pow2;
    var (o, s) := (Identity(), Filled(8, n));
    Fill(8, n);
    EightsSplit(n, x);
    EightsFull(n, x);
    IdentityIs(x, x);
    TraceStep(Inserts(8, n), Turns(n), s, D.InsertOp(x, x), 3);
    t := Apply(o, s, D.InsertOp(x, x), 3).0;
    SplitShallow(n, x);
    EvenElsewhere(n, x);
    EightsInserted(n, x);
  }

  lemma EvenElsewhere(n: nat, x: nat)
    requires n == MAX_CAP && x == 8 * (n + 1) && Sane(Started(Filled(8, n), 0))
    requires ExitsIn(Identity(), Started(Filled(8, n), 0), 3)
    ensures var r := Split(Identity(), Started(Filled(8, n), 0), 3);
      |r.dir| == Pow2(r.maxDepth) && Route(r, Hash(Identity(), x)) != 1
  {
    hide Split, ExitsIn, Sane, Low, Pow2, Times, D.Upto;
    EightsFull(n, x);
    SplitRoute(Identity(), Started(Filled(8, n), 0), 3, Hash(Identity(), x));
  }

  /** One odd number after the other. */
  lemma {:induction false} FillOdds(n: nat, x: nat, i: nat) returns (t: State<nat>)
    requires n == MAX_CAP && x == 8 * (n + 1) && i <= n
    ensures Trace(ToShallow(n, x, i), ShallowTurns(n, i), t) && Shallow(t, i)
    decreases i
  {
    hide Trace, Ready, Prepared, Apply, Splits, Harmless, Shallow, Low, Pow2, Odds, D.Upto;
    if i == 0 {
      t := StartOdds(n, x);
    } else {
      var u := FillOdds(n, x, i - 1);
      var y: nat := 2 * i - 1;
      TraceIsWeak(ToShallow(n, x, i - 1), ShallowTurns(n, i - 1), u);
      ShallowNext(u, i - 1, y);
      IdentityIs(y, y);
      TraceStep(ToShallow(n, x, i - 1), ShallowTurns(n, i - 1), u, D.InsertOp(y, y), 0);
      t := Apply(Identity(), u, D.InsertOp(y, y), 0).0;
    }
  }

  lemma ShallowNext(u: State<nat>, i: nat, y: nat)
    requires Weak(Identity(), u) && Shallow(u, i) && i < MAX_CAP && y == 2 * i + 1
    ensures Ready(Identity(), u, y, Insert, 0) && !Splits(Identity(), u, y, Insert)
    ensures Shallow(Apply(Identity(), u, D.InsertOp(y, y), 0).0, i + 1)
  {
    hide Ready, Prepared, Apply, Splits, Weak, Low, Pow2;
    IdentityIs(y, y);
    InsertNew(u, y, 1, 0);
    var t := With(u, 1, y);
    assert t.bins[1] == XBin(1, 1, MAX_CAP, Odds(i + 1), D.Upto(i + 1));
    forall g | g % 2 == 1 ensures Route(t, g) == 1 { assert Route(u, g) == 1; }
  }

  // ---- The second split ----

  lemma OddsDiffer(n: nat)
    requires n > 1
    ensures FirstDifference(Identity(), Odds(n), 1, 1)
  {
    hide Bit, Odds;
    SmallBits(1);
    SmallBits(3);
    IdentityIs(1, 0);
    IdentityIs(3, 0);
    assert Odds(n)[0] == 1 && Odds(n)[1] == 3;
  }

  /** Bin 1 is full, two bits and more shallower than the directory, and its split ends after one round. */
  lemma ShallowEnds(t: State<nat>, n: nat)
    requires n == MAX_CAP && Sound(Identity(), t) && Shallow(t, n)
    ensures Weak(Identity(), t) && |t.bins| > 1 && MustSplit(t, 1) && !H1(t, 1)
    ensures Sane(Started(t, 1)) && ExitsIn(Identity(), Started(t, 1), 1)
    ensures LiveOf(t.bins[1]) == Odds(n)
  {
    hide ExitsIn, Sane, Odds, D.Upto, Pow2, LiveCount, Reached, FirstDifference, Route;
    OddsDiffer(n);
    IdentityLawful();
    CleanSplit(Identity(), t, 1, 1);
    CleanStart(Identity(), t, 1);
  }

  lemma SevenOdd()
    ensures Hash(Identity(), 7) == 7 && Bit(7, 1) == 1 && Odd(7, 1, 1)
    ensures Low(7, Max(4, 2)) == 7 && MaskAt(7, 1, 1, 1) == 3
  {
    IdentityIs(7, 0);
    SmallBits(7);
    hide Bit;
    assert Pow2(4) == 16 && Pow2(1) == 2;
  }

  /** The directory still sends 7 to bin 1, which no longer has it. */
  lemma SevenElsewhere(t: State<nat>, n: nat)
    requires n == MAX_CAP && Sound(Identity(), t) && Shallow(t, n)
    requires Sane(Started(t, 1)) && ExitsIn(Identity(), Started(t, 1), 1)
    ensures
      var p := Split(Identity(), Started(t, 1), 1);
      |p.dir| == Pow2(p.maxDepth) && Route(p, 7) == 1 && |p.bins| > 1 && 7 !in BinSet(p.bins[1])
  {
    hide ExitsIn, Sane, Odds, D.Upto, Split, Started, LiveOf, DeadOf, Bit, Odd, Low, MaskAt, Max, Route, Weak, Pow2,
         EndsIn, Side, Reached, LiveCount;
    var o := Identity();
    ShallowEnds(t, n);
    SevenOdd();
    var l := LiveOf(t.bins[1]);
    assert Left(o, l, DeadOf(t.bins[1]), 1, 1, true) == l && l[3] == 7;
    LeftRoute(o, t, 1, 1, 3);
    var v := SplitHolds(o, t, 1, 1);
    var x := Split(o, Started(t, 1), 1).bins[1];
    assert v == 1;
    assert x.els == Side(o, l, 1, 0);
    forall i | 0 <= i < |x.els| ensures x.els[i] != 7 { var j := SideFrom(o, l, 1, 0, i); }
  }

  /** A lookup in a bin that does not have the number. */
  lemma FindMissesThere(u: State<nat>, y: nat)
    requires Weak(Identity(), u) && Route(u, Hash(Identity(), y)) < |u.bins|
    requires y !in BinSet(u.bins[Route(u, Hash(Identity(), y))])
    ensures Ready(Identity(), u, y, Find, 0) && Apply(Identity(), u, D.FindOp(y), 0).1 == D.Miss
  {
    hide Apply, Low, Pow2, LiveCount, D.Position, BinOk, BinSet;
    FindReady(u, y);
    ApplyChanges(Identity(), u, D.FindOp(y), 0);
    AbsentThere(u.bins[Route(u, Hash(Identity(), y))], y);
  }

  /** The insertion after the split brings no other number into bin 1. */
  lemma SevenStays(t: State<nat>, y: nat)
    requires Ready(Identity(), t, y, Insert, 1) && y != 7
    requires
      var p := Prepared(Identity(), t, y, Insert, 1);
      |p.dir| == Pow2(p.maxDepth) && Route(p, 7) == 1 && |p.bins| > 1 && 7 !in BinSet(p.bins[1])
    ensures
      var u := Apply(Identity(), t, D.InsertOp(y, y), 1).0;
      |u.dir| == Pow2(u.maxDepth) && Route(u, 7) == 1 && |u.bins| > 1 && 7 !in BinSet(u.bins[1])
  {
    hide Ready, Prepared, Apply, BinAfter, BinSet, Low, Pow2;
    PreparedFacts(Identity(), t, y, Insert, 1);
    ApplyChanges(Identity(), t, D.InsertOp(y, y), 1);
    var p := Prepared(Identity(), t, y, Insert, 1);
    BinAdded(Identity(), p.bins[Route(p, Hash(Identity(), y))], D.InsertOp(y, y));
  }

  lemma SevenThere(t: State<nat>, n: nat)
    requires n == MAX_CAP && Shallow(t, n)
    ensures 7 in Contents(t.bins)
  {
    hide Contents, Pow2, Route;
    assert t.bins[1].els[3] == 7 && 3 in t.bins[1].live;
    InBin(t.bins[1], 3);
    InContents(t.bins, 1);
  }

  lemma OddRoute(t: State<nat>, i: nat, y: nat)
    requires Shallow(t, i) && y % 2 == 1
    ensures |t.bins| > 1 && |t.dir| == Pow2(t.maxDepth) && Route(t, y) == 1
  {
    hide Pow2;
  }

  lemma LastStep(t: State<nat>, n: nat, y: nat)
    requires n == MAX_CAP && y == 2 * n + 1 && Sound(Identity(), t) && Shallow(t, n)
    ensures Fails(t, y, 1, 7)
  {
    hide Ready, Prepared, Apply, BinSet, Low, Pow2, Sound, Shallow, Weak, Split, Started, ExitsIn, Sane, MustSplit,
         Splits, Odds, LiveOf;
    ShallowEnds(t, n);
    OddRoute(t, n, y);
    IdentityIs(y, y);
    IdentityIs(7, 7);
    IdentityLawful();
    SplitReady(t, y, 1, 1);
    SevenElsewhere(t, n);
    SevenStays(t, y);
    ApplyWeak(Identity(), t, D.InsertOp(y, y), 1);
    FindMissesThere(Apply(Identity(), t, D.InsertOp(y, y), 1).0, 7);
  }

  /** Insert 8, 16, ..., 8 * (2^14 + 1); insert 1, 3, ..., 2^15 + 1; look up 7.  The last insertion splits bin 1
      without H1. */
  lemma SevenIsLost(n: nat, x: nat, y: nat) returns (t: State<nat>)
    requires n == MAX_CAP && x == 8 * (n + 1) && y == 2 * n + 1
    ensures Lost(ToShallow(n, x, n) + [D.InsertOp(y, y)] + [D.FindOp(7)], ShallowTurns(n, n) + [1] + [0], 7)
    ensures Lawful(Identity()) && Trace(ToShallow(n, x, n), ShallowTurns(n, n), t) && |t.bins| > 1 && !H1(t, 1)
  {
    hide Trace, Fails, Shallow, Sound, Weak, Contents, Lost, ToShallow, ShallowTurns, H1, Low, Pow2, MustSplit, Started,
         ExitsIn, Sane, Odds;
    IdentityLawful();
    t := FillOdds(n, x, n);
    TraceIsWeak(ToShallow(n, x, n), ShallowTurns(n, n), t);
    ShallowEnds(t, n);
    LastStep(t, n, y);
    SevenThere(t, n);
    TraceEnd(ToShallow(n, x, n), ShallowTurns(n, n), t, y, 1, 7);
  }
}
