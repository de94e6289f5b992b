/** Two programs on a new table of two bins and numbers that hash to themselves, each of which ends with a lookup
    of a number that was inserted and never deleted, and that the table does not find. */
module Counterexample {
  import opened BitMath
  import D = Dense
  import opened Directory
  import opened Extendible
  import opened IxExact
  import opened IxRuns
  import opened Keys
  import opened Probe
  import opened SplitExact
  import opened SplitLoop
  import opened SplitLosses
  import opened SplitRoutes

  function Identity(): Ops<nat> {
    Ops((x: nat) => x, (a: nat, b: nat) => a == b, true)
  }

  lemma IdentityLawful()
    ensures Lawful(Identity())
  {
    forall a: nat, b: nat ensures Eq(Identity(), a, b) <==> a == b { IdentityIs(a, b); }
    hide Identity;
  }

  lemma IdentityIs(x: nat, y: nat)
    ensures x > 0 ==> Hash(Identity(), x) == x
    ensures Eq(Identity(), x, y) <==> x == y
  {
  }

  // ---- Programs ----

  /** A new table of two bins. */
  function Start(): State<nat> { Created(1, MAX_CAP) }

  /** The table after `ops`, beside the set after `ops`; every element can be found so far. */
  ghost predicate Trace(ops: seq<D.Op<nat>>, rounds: seq<nat>, t: State<nat>) {
    && Ends(Identity(), Start(), ops, rounds) && RunOf(Identity(), Start(), ops, rounds).0 == t
    && SetRun(Identity(), {}, ops).0 == Contents(t.bins) && Sound(Identity(), t)
  }

  lemma TraceStart()
    ensures Trace([], [], Start()) && Strong(Identity(), Start())
  {
    hide Sound, Contents, Strong;
    Pow2Values();
    assert IsPow2(MAX_CAP) by { Pow2IsPow2(14); }
    CreatedStrong(Identity(), 1, MAX_CAP);
    StrongIsSound(Identity(), Start());
  }

  /** One more operation, which does no harm. */
  lemma TraceStep(ops: seq<D.Op<nat>>, rounds: seq<nat>, t: State<nat>, op: D.Op<nat>, r: nat)
    requires Trace(ops, rounds, t) && D.OpOk(Identity(), op) && Ready(Identity(), t, op.key, D.ActionOf(op), r)
    requires Splits(Identity(), t, op.key, D.ActionOf(op)) ==>
      Harmless(Identity(), t, Route(t, Hash(Identity(), op.key)))
    ensures Trace(ops + [op], rounds + [r], Apply(Identity(), t, op, r).0)
  {
    hide Sound, Contents, SetApply, Apply, Ready, Harmless, Splits, Ends, RunOf, SetRun, Start;
    IdentityLawful();
    SetIffHarmless(Identity(), t, op, r);
    RunSnoc(Identity(), Start(), ops, rounds, op, r);
    SetSnoc(Identity(), {}, ops, op);
  }

  /** After the insertion of `x`, in `r` rounds if it splits a bin, a lookup of `y` fails. */
  ghost predicate Fails(t: State<nat>, x: nat, r: nat, y: nat) {
    && Ready(Identity(), t, x, Insert, r)
    && var u := Apply(Identity(), t, D.InsertOp(x, x), r).0;
       Weak(Identity(), u) && Ready(Identity(), u, y, Find, 0) && Apply(Identity(), u, D.FindOp(y), 0).1 == D.Miss
  }

  /** A program that goes on with an insertion and ends with a lookup. */
  lemma TraceEnd(ops: seq<D.Op<nat>>, rounds: seq<nat>, t: State<nat>, x: nat, r: nat, y: nat)
    requires Trace(ops, rounds, t) && Fails(t, x, r, y) && x != y && y in Contents(t.bins)
    ensures Lost(ops + [D.InsertOp(x, x)] + [D.FindOp(y)], rounds + [r] + [0], y)
  {
    hide Sound, Contents, Apply, Ready, Ends, RunOf, SetRun, Start, Weak;
    var o, s := Identity(), Start();
    IdentityIs(x, x);
    RunSnoc(o, s, ops, rounds, D.InsertOp(x, x), r);
    SetSnoc(o, {}, ops, D.InsertOp(x, x));
    var u := Apply(o, t, D.InsertOp(x, x), r).0;
    FindReady(u, y);
    RunSnoc(o, s, ops + [D.InsertOp(x, x)], rounds + [r], D.FindOp(y), 0);
    SetSnoc(o, {}, ops + [D.InsertOp(x, x)], D.FindOp(y));
    SetKeeps(Contents(t.bins), x, y);
    Lengths(o, s, {}, ops, rounds);
  }

  lemma {:induction false} Lengths(o: Ops<nat>, s: State<nat>, c: set<nat>, ops: seq<D.Op<nat>>, rounds: seq<nat>)
    requires Ends(o, s, ops, rounds)
    ensures |RunOf(o, s, ops, rounds).1| == |SetRun(o, c, ops).1| == |ops|
    decreases |ops|
  {
    hide Apply, SetApply, Ready;
    if ops != [] { Lengths(o, Apply(o, s, ops[0], rounds[0]).0, SetApply(o, c, ops[0]).0, ops[1..], rounds[1..]); }
  }

  lemma FindReady(u: State<nat>, y: nat)
    requires Weak(Identity(), u)
    ensures Ready(Identity(), u, y, Find, 0)
  {
  }

  /** The set still has `y` after the insertion of another number. */
  lemma SetKeeps(c: set<nat>, x: nat, y: nat)
    requires y in c && x != y
    ensures var d := SetApply(Identity(), c, D.InsertOp(x, x)).0; SetApply(Identity(), d, D.FindOp(y)).1 == D.Hit(y)
  {
    var d := SetApply(Identity(), c, D.InsertOp(x, x)).0;
    assert y in d && Eq(Identity(), y, y);
    IdentityIs(The(Identity(), d, y), y);
  }

  /** A program that ends with a lookup of `y`: the table replies that there is none, the set that there is. */
  ghost predicate Lost(ops: seq<D.Op<nat>>, rounds: seq<nat>, y: nat) {
    && Ends(Identity(), Start(), ops, rounds) && ops != [] && ops[|ops| - 1] == D.FindOp(y)
    && var (replies, right) := (RunOf(Identity(), Start(), ops, rounds).1, SetRun(Identity(), {}, ops).1);
       |replies| == |right| == |ops| && replies[|ops| - 1] == D.Miss && right[|ops| - 1] == D.Hit(y)
  }

  // ---- Filling a bin ----

  /** The insertion of a number that the routed bin does not have and has room for. */
  lemma InsertNew(t: State<nat>, x: nat, b: nat, r: nat)
    requires Weak(Identity(), t) && Route(t, Hash(Identity(), x)) == b < |t.bins|
    requires |t.bins[b].els| < t.bins[b].cap && x !in t.bins[b].els
    ensures Ready(Identity(), t, x, Insert, r) && !Splits(Identity(), t, x, Insert)
    ensures Prepared(Identity(), t, x, Insert, r) == t
    ensures Apply(Identity(), t, D.InsertOp(x, x), r) == (With(t, b, x), D.Miss)
  {
    hide Low, Pow2, LiveCount, Apply, D.Position, Route, Distinct, IsPow2;
    var o, y := Identity(), t.bins[b];
    assert BinOk(o, y);
    ApplyChanges(o, t, D.InsertOp(x, x), r);
    var i := D.Position(o, y.els, y.live, x, 0);
    if i < |y.els| { IdentityIs(y.els[i], x); }
  }

  /** The insertion of `x` makes no room and leads from `t` to `u`. */
  ghost predicate Leads(t: State<nat>, x: nat, u: State<nat>) {
    && Ready(Identity(), t, x, Insert, 0) && !Splits(Identity(), t, x, Insert)
    && Prepared(Identity(), t, x, Insert, 0) == t && Apply(Identity(), t, D.InsertOp(x, x), 0).0 == u
  }

  function With(t: State<nat>, b: nat, x: nat): State<nat>
    requires b < |t.bins|
  {
    var y := t.bins[b];
    t.(bins := t.bins[b := y.(els := y.els + [x], live := y.live + {|y.els|})], num := t.num + 1)
  }

  /** The first `n` multiples of `k`, and the program that inserts them. */
  function Times(k: nat, n: nat): (l: seq<nat>)
    ensures |l| == n && forall i :: 0 <= i < n ==> l[i] == k * (i + 1)
  {
    if n == 0 then [] else Times(k, n - 1) + [k * n]
  }

  function Inserts(k: nat, n: nat): seq<D.Op<nat>> {
    if n == 0 then [] else Inserts(k, n - 1) + [D.InsertOp(k * n, k * n)]
  }

  function Turns(n: nat): seq<nat> {
    if n == 0 then [] else Turns(n - 1) + [0]
  }

  /** The table with the first `n` multiples of an even number `k`: all in bin 0. */
  function Filled(k: nat, n: nat): State<nat> {
    State(1, [0, 1], [XBin(1, 0, MAX_CAP, Times(k, n), D.Upto(n)), XBin(1, 1, MAX_CAP, [], {})], n)
  }

  lemma SmallLow(x: nat)
    ensures Low(x, 1) == x % 2 && Pow2(1) == 2
  {
  }

  lemma StartIsFilled(k: nat)
    ensures Start() == Filled(k, 0)
  {
    hide MAX_CAP;
    SmallLow(0);
    var s := Start();
    assert s.dir == [0, 1] && s.bins == Filled(k, 0).bins;
  }

  lemma FillNext(k: nat, n: nat, x: nat)
    requires k > 0 && k % 2 == 0 && n < MAX_CAP && x == k * (n + 1) && Weak(Identity(), Filled(k, n))
    ensures Leads(Filled(k, n), x, Filled(k, n + 1))
  {
    hide Low, Apply, Prepared, Ready, Splits, Weak;
    var t := Filled(k, n);
    EvenRoute(k, n + 1);
    IdentityIs(x, x);
    forall i | 0 <= i < n ensures Times(k, n)[i] != x { Smaller(k, i + 1, n + 1); }
    InsertNew(t, x, 0, 0);
    assert With(t, 0, x) == Filled(k, n + 1);
  }

  lemma Smaller(k: nat, a: nat, b: nat)
    requires k > 0 && a < b
    ensures k * a < k * b
  {
  }

  lemma EvenRoute(k: nat, n: nat)
    requires k % 2 == 0 && k > 0 && n > 0
    ensures k * n > 0 && Low(k * n, 1) == 0
  {
    SmallLow(k * n);
    assert k * n == 2 * (k / 2 * n);
  }

  lemma {:induction false} Fill(k: nat, n: nat)
    requires k > 0 && k % 2 == 0 && n <= MAX_CAP
    ensures Trace(Inserts(k, n), Turns(n), Filled(k, n)) && Strong(Identity(), Filled(k, n))
  {
    hide Trace, Strong, Apply, Ready, Splits, Filled, Start, Harmless;
    if n == 0 {
      TraceStart();
      StartIsFilled(k);
    } else {
      Fill(k, n - 1);
      var t: State<nat>, x: nat := Filled(k, n - 1), k * n;
      StrongIsWeak(Identity(), t);
      FillNext(k, n - 1, x);
      IdentityIs(x, x);
      IdentityLawful();
      TraceStep(Inserts(k, n - 1), Turns(n - 1), t, D.InsertOp(x, x), 0);
      ApplyStrong<nat>(Identity(), t, D.InsertOp(x, x), 0);
    }
  }

  lemma StrongIsWeak(o: Ops<nat>, t: State<nat>)
    requires Strong(o, t)
    ensures Weak(o, t)
  {
  }

  // ---- A split without H2 ----

  /** The multiples of 4 up to 4 * 2^14 in bin 0, without 4 itself, and 1 in bin 1. */
  function Holed(n: nat): State<nat> {
    State(1, [0, 1], [XBin(1, 0, MAX_CAP, Times(4, n), D.Upto(n) - {0}), XBin(1, 1, MAX_CAP, [1], {0})], n)
  }

  function ToHoled(n: nat): seq<D.Op<nat>> {
    Inserts(4, n) + [D.DeleteOp(4)] + [D.InsertOp(1, 1)]
  }

  lemma DeleteFour(n: nat)
    requires n == MAX_CAP
    requires Weak(Identity(), Filled(4, n))
    ensures Ready(Identity(), Filled(4, n), 4, Delete, 0) && !Splits(Identity(), Filled(4, n), 4, Delete)
    ensures Apply(Identity(), Filled(4, n), D.DeleteOp(4), 0).0 ==
      State(1, [0, 1], [XBin(1, 0, MAX_CAP, Times(4, n), D.Upto(n) - {0}), XBin(1, 1, MAX_CAP, [], {})], n - 1)
  {
    hide Low, LiveCount, Apply, Distinct, IsPow2, Times, D.Upto, D.Position, Weak;
    var o, t := Identity(), Filled(4, n);
    var y := t.bins[0];
    SmallLow(4);
    IdentityIs(4, 4);
    assert y.els[0] == 4;
    FoundFirst(y);
    ApplyChanges(o, t, D.DeleteOp(4), 0);
    var u := Apply(o, t, D.DeleteOp(4), 0).0;
    assert u.bins == [y.(live := D.Upto(n) - {0}), t.bins[1]];
    assert |D.Upto(n) - {0}| == n - 1;
  }

  lemma FoundFirst(y: XBin<nat>)
    requires |y.els| > 0 && y.els[0] == 4 && 0 in y.live
    ensures D.Position(Identity(), y.els, y.live, 4, 0) == 0
  {
  }

  lemma ReachHoled(n: nat)
    requires n == MAX_CAP
    ensures Trace(ToHoled(n), Turns(n) + [0] + [0], Holed(n))
  {
    hide Trace, Strong, Apply, Ready, Splits, Times, Harmless, Inserts, Turns, D.Upto, Filled;
    Fill(4, n);
    var o, t := Identity(), Filled(4, n);
    StrongIsWeak(o, t);
    DeleteFour(n);
    TraceStep(Inserts(4, n), Turns(n), t, D.DeleteOp(4), 0);
    var u := Apply(o, t, D.DeleteOp(4), 0).0;
    TraceIsWeak(Inserts(4, n) + [D.DeleteOp(4)], Turns(n) + [0], u);
    SmallLow(1);
    IdentityIs(1, 1);
    InsertNew(u, 1, 1, 0);
    TraceStep(Inserts(4, n) + [D.DeleteOp(4)], Turns(n) + [0], u, D.InsertOp(1, 1), 0);
    var y := u.bins[1];
    assert y.els + [1] == [1] && y.live + {0} == {0};
    assert With(u, 1, 1).bins == Holed(n).bins;
  }

  lemma TraceIsWeak(ops: seq<D.Op<nat>>, rounds: seq<nat>, t: State<nat>)
    requires Trace(ops, rounds, t)
    ensures Sound(Identity(), t) && Weak(Identity(), t)
  {
    hide Ends, RunOf, SetRun, Contents;
  }

  /** The live elements of bin 0: multiples of 4 from 8 on, in order. */
  function Rest(n: nat): seq<nat> { LiveOf(Holed(n).bins[0]) }

  lemma RestIs(n: nat, j: nat) returns (i: nat)
    requires n == MAX_CAP && j < |Rest(n)|
    ensures 1 <= i < n && Rest(n)[j] == 4 * (i + 1)
  {
    hide Times, D.Upto;
    var x := Holed(n).bins[0];
    i := D.SurvivorFrom(x.els, x.live, j);
  }

  lemma RestFirst(n: nat)
    requires n == MAX_CAP
    ensures |Rest(n)| > 3 && Rest(n)[0] == 8 && Rest(n)[1] == 12 && Rest(n)[2] == 16
  {
    hide Times, D.Upto;
    var x := Holed(n).bins[0];
    Prefix(x.els, x.live);
    D.SurvivorAt(x.els, x.live, 1);
    D.SurvivorAt(x.els, x.live, 2);
    D.SurvivorAt(x.els, x.live, 3);
    D.SurvivorAt(x.els, x.live, 4);
  }

  lemma Prefix(els: seq<nat>, live: set<nat>)
    requires |els| > 4 && 0 !in live && 1 in live && 2 in live && 3 in live
    ensures |D.Survivors(els[..1], live)| == 0 && |D.Survivors(els[..2], live)| == 1
    ensures |D.Survivors(els[..3], live)| == 2 && |D.Survivors(els[..4], live)| == 3
  {
    D.SurvivorsNone(els, live, 0, 0);
    D.SurvivorsNext(els, live, 0);
    D.SurvivorsNext(els, live, 1);
    D.SurvivorsNext(els, live, 2);
    D.SurvivorsNext(els, live, 3);
  }

  lemma SmallBits(x: nat)
    ensures Bit(x, 1) == x / 2 % 2 && Bit(x, 2) == x / 4 % 2 && Bit(x, 3) == x / 8 % 2
  {
    BitIsQuotient(x, 1);
    BitIsQuotient(x, 2);
    BitIsQuotient(x, 3);
    hide Bit;
    assert Pow2(2) == 4 && Pow2(3) == 8;
  }

  lemma FourBits(m: nat)
    ensures Bit(4 * m, 1) == 0
  {
    SmallBits(4 * m);
  }

  /** The multiples of 4 agree in bit 1, so the first round keeps them all in bin 0. */
  lemma RestAgree(n: nat)
    requires n == MAX_CAP
    ensures Agree(Identity(), Rest(n), 1) && Again(Identity(), Rest(n), 1, true)
  {
    hide Rest, Bit, Side;
    var (o, l) := (Identity(), Rest(n));
    forall j | 0 <= j < |l| ensures Bit(Hash(o, l[j]), 1) == 0 {
      var i := RestIs(n, j);
      FourBits(i + 1);
      IdentityIs(l[j], 0);
    }
    RestFirst(n);
    AgreeValue(o, l, 1, 0);
  }

  /** Position `i` of a list whose first entry is marked is kept. */
  lemma KeptAt(l: seq<nat>, i: nat) returns (j: nat)
    requires 0 < i < |l|
    ensures j < |Kept(l, {0})| && Kept(l, {0})[j] == l[i]
  {
    hide D.Upto;
    D.SurvivorAt(l, D.Upto(|l|) - {0}, i);
    j := |D.Survivors(l[..i], D.Upto(|l|) - {0})|;
  }

  /** The second round skips the entry of 8, which the bitmap still marks, and tells 12 and 16 apart. */
  lemma RestEnds(n: nat)
    requires n == MAX_CAP
    ensures EndsIn(Identity(), Rest(n), {0}, 1, 2, true)
    ensures Left(Identity(), Rest(n), {0}, 1, 2, true) == Kept(Rest(n), {0})
  {
    hide Rest, Bit, Side, Kept, Again, Agree;
    var (o, l) := (Identity(), Rest(n));
    RestAgree(n);
    RestFirst(n);
    var a := KeptAt(l, 1);
    var b := KeptAt(l, 2);
    var m := Moved(o, l, {0}, 1, true);
    assert m == Kept(l, {0});
    TwelveSixteen(m, a, b);
    assert EndsIn(o, m, {0}, 2, 1, true);
  }

  lemma TwelveSixteen(m: seq<nat>, a: nat, b: nat)
    requires a < |m| && b < |m| && m[a] == 12 && m[b] == 16
    ensures !Agree(Identity(), m, 2)
  {
    hide Bit;
    SmallBits(12);
    SmallBits(16);
    IdentityIs(12, 0);
    IdentityIs(16, 0);
  }

  /** The entry that is marked is dropped. */
  lemma KeptDrops(l: seq<nat>)
    requires Different(l) && l != []
    ensures l[0] in SeqSet(l) && l[0] !in SeqSet(Kept(l, {0}))
  {
    var r := Kept(l, {0});
    forall j: nat | j < |r| ensures r[j] != l[0] { var i := D.SurvivorFrom(l, D.Upto(|l|) - {0}, j); }
  }

  /** Number 8 is not among the elements that the split keeps. */
  lemma EightGone(n: nat)
    requires n == MAX_CAP
    requires Weak(Identity(), Holed(n))
    ensures 8 in SeqSet(Rest(n)) && 8 !in SeqSet(Left(Identity(), Rest(n), {0}, 1, 2, true))
  {
    hide Left, EndsIn, Rest, Weak, Kept, SeqSet, Different;
    RestEnds(n);
    RestDifferent(n);
    RestFirst(n);
    KeptDrops(Rest(n));
  }

  lemma RestDifferent(n: nat)
    requires n == MAX_CAP
    requires Weak(Identity(), Holed(n))
    ensures Different(Rest(n))
  {
    hide Holed, Different, Distinct, D.Upto, LiveCount, IsPow2, Pow2, BinOk;
    HoledBin(n);
    var x := Holed(n).bins[0];
    LiveDistinct(Identity(), x);
    IdentityLawful();
    DistinctIsDifferent(Identity(), Rest(n));
  }

  lemma HoledBin(n: nat)
    requires n == MAX_CAP
    requires Weak(Identity(), Holed(n))
    ensures |Holed(n).bins| == 2 && BinOk(Identity(), Holed(n).bins[0])
  {
    hide BinOk, LiveCount, Times, D.Upto;
  }

  lemma HoledDead(n: nat)
    requires n == MAX_CAP
    ensures DeadOf(Holed(n).bins[0]) == {0}
  {
    hide Times;
  }

  lemma HoledFull(n: nat)
    requires n == MAX_CAP
    ensures |Holed(n).bins| == 2 && Holed(n).bins[0].depth == 1 && MustSplit(Holed(n), 0)
  {
    hide D.Upto;
  }

  lemma HoledRoute(n: nat, x: nat)
    requires n == MAX_CAP && x == 4 * (n + 1)
    ensures |Holed(n).dir| == Pow2(Holed(n).maxDepth) && Route(Holed(n), Hash(Identity(), x)) == 0
  {
    hide Times, D.Upto, Low;
    IdentityIs(x, 0);
    SmallLow(x);
  }

  /** The insertion of a number whose bin must be split. */
  lemma SplitReady(t: State<nat>, x: nat, b: nat, k: nat)
    requires Weak(Identity(), t) && Route(t, Hash(Identity(), x)) == b < |t.bins| && MustSplit(t, b)
    requires Sane(Started(t, b)) && ExitsIn(Identity(), Started(t, b), k)
    ensures Ready(Identity(), t, x, Insert, k) && Splits(Identity(), t, x, Insert)
    ensures Prepared(Identity(), t, x, Insert, k) == Split(Identity(), Started(t, b), k)
  {
    hide Split, ExitsIn, Started, Sane, Low, Pow2;
  }

  lemma HoledEnds(n: nat)
    requires n == MAX_CAP && Weak(Identity(), Holed(n))
    ensures |Holed(n).bins| == 2 && Sane(Started(Holed(n), 0)) && ExitsIn(Identity(), Started(Holed(n), 0), 2)
  {
    hide Holed, Rest, EndsIn, Weak, ExitsIn, MustSplit, DeadOf, Moving, Sane, D.Upto;
    HoledFull(n);
    HoledDead(n);
    StartRoles(Identity(), Holed(n), 0);
    RolesAreSane(Started(Holed(n), 0), 0, {0});
    RestEnds(n);
    RestIsLive(n);
    ExitsIffEndsIn(Identity(), Started(Holed(n), 0), 0, {0}, 2);
  }

  lemma HoledNotH2(n: nat)
    requires n == MAX_CAP && Weak(Identity(), Holed(n))
    ensures |Holed(n).bins| == 2 && BinOk(Identity(), Holed(n).bins[0]) && !H2(Identity(), Holed(n), 0)
  {
    hide Holed, Weak, Started, H2, Exits, BinOk, Next, Sane;
    HoledEnds(n);
    OneRound(Identity(), Holed(n), 0);
  }

  lemma RestIsLive(n: nat)
    requires n == MAX_CAP
    ensures |Holed(n).bins| == 2 && Rest(n) == LiveOf(Holed(n).bins[0])
  {
    hide LiveOf, Times, D.Upto;
  }

  lemma HoledLoses(n: nat, x: nat)
    requires n == MAX_CAP && x == 4 * (n + 1) && Sound(Identity(), Holed(n))
    ensures Ready(Identity(), Holed(n), x, Insert, 2)
    ensures 8 in Contents(Holed(n).bins)
    ensures 8 !in Contents(Prepared(Identity(), Holed(n), x, Insert, 2).bins)
  {
    hide Holed, Rest, ExitsIn, Split, Started, Low, Pow2, DeadOf, LiveOf, Contents, SeqSet, Sane, Left, Weak, Prepared,
         BinSet, Ready, MustSplit, Reached, LiveCount;
    HoledFull(n);
    HoledEnds(n);
    HoledRoute(n, x);
    SplitReady(Holed(n), x, 0, 2);
    RestIsLive(n);
    EightGone(n);
    IdentityLawful();
    SplitLoses(Identity(), Holed(n), 0, 2);
    HoledDead(n);
    HoledBin(n);
    LiveSet(Holed(n).bins[0]);
    InContents(Holed(n).bins, 0);
  }

  /** A lookup of a number that the table does not have. */
  lemma FindMisses(u: State<nat>, y: nat)
    requires Weak(Identity(), u) && y !in Contents(u.bins)
    ensures Ready(Identity(), u, y, Find, 0) && Apply(Identity(), u, D.FindOp(y), 0).1 == D.Miss
  {
    hide Contents, Apply, Low, Pow2, LiveCount, D.Position, BinOk;
    FindReady(u, y);
    ApplyChanges(Identity(), u, D.FindOp(y), 0);
    var b := Route(u, Hash(Identity(), y));
    InContents(u.bins, b);
    AbsentThere(u.bins[b], y);
  }

  lemma AbsentThere(x: XBin<nat>, y: nat)
    requires y !in BinSet(x)
    ensures D.Position(Identity(), x.els, x.live, y, 0) == |x.els|
  {
    hide D.Position;
    var i := D.Position(Identity(), x.els, x.live, y, 0);
    if i < |x.els| { IdentityIs(x.els[i], y); }
  }

  /** Insert 4, 8, ..., 4 * 2^14; delete 4; insert 1 and 4 * (2^14 + 1); look up 8.  The last insertion splits
      bin 0 with H1 and without H2: the first round keeps all elements, and the second drops 8. */
  lemma EightIsLost(n: nat, x: nat)
    requires n == MAX_CAP && x == 4 * (n + 1)
    ensures Lost(ToHoled(n) + [D.InsertOp(x, x)] + [D.FindOp(8)], Turns(n) + [0] + [0] + [2] + [0], 8)
    ensures Lawful(Identity()) && H1(Holed(n), 0) && BinOk(Identity(), Holed(n).bins[0]) && !H2(Identity(), Holed(n), 0)
    ensures Trace(ToHoled(n), Turns(n) + [0] + [0], Holed(n))
  {
    assert H1(Holed(n), 0);
    hide Trace, Holed, ToHoled, Turns, Sound, Weak, Contents, Prepared, Apply, Ready, Lost, Low, Pow2, BinAfter, H1,
         H2, BinOk;
    var (o, t, op) := (Identity(), Holed(n), D.InsertOp(x, x));
    IdentityLawful();
    ReachHoled(n);
    TraceIsWeak(ToHoled(n), Turns(n) + [0] + [0], t);
    HoledLoses(n, x);
    HoledNotH2(n);
    IdentityIs(x, x);
    ApplyWeak(o, t, op, 2);
    StaysLost(t, x, 2, 8);
    FindMisses(Apply(o, t, op, 2).0, 8);
    TraceEnd(ToHoled(n), Turns(n) + [0] + [0], t, x, 2, 8);
  }

  lemma StaysLost(t: State<nat>, x: nat, r: nat, y: nat)
    requires Ready(Identity(), t, x, Insert, r) && x != y
    requires y !in Contents(Prepared(Identity(), t, x, Insert, r).bins)
    ensures y !in Contents(Apply(Identity(), t, D.InsertOp(x, x), r).0.bins)
  {
    hide Contents, Prepared, Apply, Ready, Low, Pow2, BinAfter;
    PreparedFacts(Identity(), t, x, Insert, r);
    ApplyChanges(Identity(), t, D.InsertOp(x, x), r);
    var p := Prepared(Identity(), t, x, Insert, r);
    AddedOnly(Identity(), p, Route(p, Hash(Identity(), x)), D.InsertOp(x, x));
  }
}
