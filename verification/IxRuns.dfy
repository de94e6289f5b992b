/** Runs of an ixhtab: as long as every element can be found, the table answers like a set of pairwise
    different elements, and as long as every split meets H1 and H2, every element can be found. */
module IxRuns {
  import opened BitMath
  import D = Dense
  import opened Directory
  import opened Extendible
  import opened Keys
  import opened Probe

  // ---- Steps ----

  /** The table is well formed, and if the operation splits a bin the split ends in `rounds` rounds. */
  ghost predicate Ready<El>(o: Ops<El>, s: State<El>, key: El, action: Action, rounds: nat) {
    && Weak(o, s)
    && var b := Route(s, Hash(o, key));
       b < |s.bins| && (action == Insert && MustSplit(s, b) ==>
         Sane(Started(s, b)) && ExitsIn(o, Started(s, b), rounds))
  }

  ghost function Prepared<El>(o: Ops<El>, s: State<El>, key: El, action: Action, rounds: nat): (r: State<El>)
    requires Ready(o, s, key, action, rounds)
    ensures Weak(o, r) && Route(r, Hash(o, key)) < |r.bins|
    ensures action == Insert ==> var b := Route(r, Hash(o, key)); |r.bins[b].els| < r.bins[b].cap
  {
    var b := Route(s, Hash(o, key));
    if action == Insert && MustMakeRoom(s, b) then
      RoomyOk(o, s, Hash(o, key), rounds);
      Roomy(o, s, b, rounds)
    else
      assert BinOk(o, s.bins[b]);
      s
  }

  /** `ixht_perform`: the new table, whether the element was there, and its bin and position. */
  ghost function Performed<El>(o: Ops<El>, s: State<El>, key: El, action: Action, rounds: nat)
    : (State<El>, bool, nat, nat)
    requires Ready(o, s, key, action, rounds)
  {
    var p := Prepared(o, s, key, action, rounds);
    var b := Route(p, Hash(o, key));
    var (r, found, res) := Acted(o, p, b, key, action);
    (r, found, b, res)
  }

  /** The caller's write through the returned pointer. */
  function Stored<El>(s: State<El>, b: nat, i: nat, e: El): State<El> {
    if b < |s.bins| && i < |s.bins[b].els| then
      s.(bins := s.bins[b := s.bins[b].(els := s.bins[b].els[i := e])])
    else s
  }

  ghost function Apply<El>(o: Ops<El>, s: State<El>, op: D.Op<El>, rounds: nat): (State<El>, D.Reply<El>)
    requires Ready(o, s, op.key, D.ActionOf(op), rounds)
  {
    var (r, found, b, i) := Performed(o, s, op.key, D.ActionOf(op), rounds);
    (if op.ReplaceOp? || (op.InsertOp? && !found) then Stored(r, b, i, op.e) else r,
     D.ReplyOf(if b < |r.bins| then r.bins[b].els else [], op, found, i))
  }

  // ---- What every operation keeps ----

  lemma PerformedRes<El(!new)>(o: Ops<El>, s: State<El>, key: El, action: Action, rounds: nat)
    requires Lawful(o) && Ready(o, s, key, action, rounds)
    ensures
      var (r, found, b, i) := Performed(o, s, key, action, rounds);
      b < |r.bins|
      && (found || action == Insert ==> i < |r.bins[b].els| && Eq(o, r.bins[b].els[i], key))
      && (!found && action == Insert ==> i + 1 == |r.bins[b].els|)
  {
    hide Prepared, Ready, Lawful;
    EqRefl(o, key);
    PreparedFacts(o, s, key, action, rounds);
  }

  lemma StoredWeak<El(!new)>(o: Ops<El>, s: State<El>, b: nat, i: nat, e: El)
    requires Lawful(o) && Weak(o, s) && b < |s.bins| && i < |s.bins[b].els| && Eq(o, s.bins[b].els[i], e)
    ensures Weak(o, Stored(s, b, i, e))
  {
    hide IsPow2, Pow2, LiveCount;
    var x, r := s.bins[b], Stored(s, b, i, e);
    var y := r.bins[b];
    assert BinOk(o, x);
    LiveCountUpdate(s.bins, b, y);
    forall j, k | j in y.live && k in y.live && j != k ensures !Eq(o, y.els[j], y.els[k]) {
      EqSame(o, x.els[i], e, x.els[j]);
      EqSame(o, x.els[i], e, x.els[k]);
    }
    assert BinOk(o, y);
  }

  /** Every operation keeps the table well formed, with or without H1 and H2. */
  lemma ApplyWeak<El(!new)>(o: Ops<El>, s: State<El>, op: D.Op<El>, rounds: nat)
    requires Lawful(o) && D.OpOk(o, op) && Ready(o, s, op.key, D.ActionOf(op), rounds)
    ensures Weak(o, Apply(o, s, op, rounds).0)
  {
    hide Weak, Prepared, Ready, Lawful, D.Position, Acted;
    var action := D.ActionOf(op);
    PreparedFacts(o, s, op.key, action, rounds);
    var p := Prepared(o, s, op.key, action, rounds);
    ActedWeak(o, p, Route(p, Hash(o, op.key)), op.key, action);
    PerformedRes(o, s, op.key, action, rounds);
    var (r, found, b, i) := Performed(o, s, op.key, action, rounds);
    if op.ReplaceOp? || (op.InsertOp? && !found) {
      EqTrans(o, r.bins[b].els[i], op.key, op.e);
      StoredWeak(o, r, b, i, op.e);
    }
  }

  // ---- The set ----

  lemma StrongIsSound<El>(o: Ops<El>, s: State<El>)
    requires Strong(o, s)
    ensures Sound(o, s)
  {
    hide Low, Pow2, LiveCount, Reached, DirOk, Routed, BinOk;
    StrongReached(o, s);
  }

  /** The live elements of a bin. */
  ghost function BinSet<El>(x: XBin<El>): set<El> {
    set i | i in x.live && i < |x.els| :: x.els[i]
  }

  /** The live elements of all bins. */
  ghost function Contents<El>(bins: seq<XBin<El>>): set<El> {
    if bins == [] then {} else Contents(bins[..|bins| - 1]) + BinSet(bins[|bins| - 1])
  }

  /** The caller's view: a set without two equal elements. */
  ghost predicate Present<El>(o: Ops<El>, c: set<El>, key: El) {
    exists e :: e in c && Eq(o, e, key)
  }

  ghost function The<El>(o: Ops<El>, c: set<El>, key: El): (e: El)
    requires Present(o, c, key)
    ensures e in c && Eq(o, e, key)
  {
    var e :| e in c && Eq(o, e, key);
    e
  }

  ghost function SetApply<El>(o: Ops<El>, c: set<El>, op: D.Op<El>): (set<El>, D.Reply<El>) {
    if Present(o, c, op.key) then
      var e := The(o, c, op.key);
      match op
      case FindOp(_) => (c, D.Hit(e))
      case DeleteOp(_) => (c - {e}, D.Gone)
      case InsertOp(_, _) => (c, D.Hit(e))
      case ReplaceOp(_, n) => (c - {e} + {n}, D.Hit(e))
    else
      match op
      case FindOp(_) => (c, D.Miss)
      case DeleteOp(_) => (c, D.Miss)
      case InsertOp(_, n) => (c + {n}, D.Miss)
      case ReplaceOp(_, n) => (c + {n}, D.Miss)
  }

  // ---- Sets of bins ----

  lemma {:induction false} InContents<El>(bins: seq<XBin<El>>, b: nat)
    requires b < |bins|
    ensures BinSet(bins[b]) <= Contents(bins)
  {
    if b < |bins| - 1 { InContents(bins[..|bins| - 1], b); }
  }

  lemma {:induction false} FromContents<El>(bins: seq<XBin<El>>, e: El) returns (b: nat)
    requires e in Contents(bins)
    ensures b < |bins| && e in BinSet(bins[b])
  {
    if e in BinSet(bins[|bins| - 1]) { b := |bins| - 1; } else { b := FromContents(bins[..|bins| - 1], e); }
  }

  /** No element of another bin equals one of this bin. */
  lemma OtherBin<El(!new)>(o: Ops<El>, s: State<El>, key: El, c: nat, e: El)
    requires Lawful(o) && Sound(o, s) && c < |s.bins| && e in BinSet(s.bins[c]) && Eq(o, e, key)
    ensures Route(s, Hash(o, key)) == c
  {
    hide Low, Pow2, LiveCount, Route;
    EqSym(o, e, key);
    assert BinReached(o, s, c);
  }

  /** Looking in the routed bin is looking in the whole table. */
  lemma FindIsPresent<El(!new)>(o: Ops<El>, s: State<El>, key: El)
    requires Lawful(o) && Sound(o, s) && Route(s, Hash(o, key)) < |s.bins|
    ensures
      var x := s.bins[Route(s, Hash(o, key))];
      var i := D.Position(o, x.els, x.live, key, 0);
      && (i < |x.els| <==> Present(o, Contents(s.bins), key))
      && (i < |x.els| ==> x.els[i] == The(o, Contents(s.bins), key))
  {
    hide Low, Pow2, LiveCount, Sound, Contents;
    var b := RouteOf(o, s, key);
    var x := s.bins[b];
    var i := D.Position(o, x.els, x.live, key, 0);
    InContents(s.bins, b);
    if i < |x.els| {
      assert x.els[i] in BinSet(x);
    }
    if Present(o, Contents(s.bins), key) {
      var e := The(o, Contents(s.bins), key);
      var c := FromContents(s.bins, e);
      OtherBin(o, s, key, c, e);
      var j :| j in x.live && j < |x.els| && x.els[j] == e;
      BinIsDistinct(o, s, b);
      D.PositionUnique(o, x.els, x.live, key, j);
    }
  }

  lemma RouteOf<El>(o: Ops<El>, s: State<El>, key: El) returns (b: nat)
    requires Sound(o, s)
    ensures |s.dir| == Pow2(s.maxDepth) && b == Route(s, Hash(o, key)) < |s.bins|
  {
    b := Route(s, Hash(o, key));
  }

  lemma BinIsDistinct<El>(o: Ops<El>, s: State<El>, b: nat)
    requires Sound(o, s) && b < |s.bins|
    ensures (forall i :: i in s.bins[b].live ==> i < |s.bins[b].els|) && Distinct(o, s.bins[b].els, s.bins[b].live)
  {
    assert BinOk(o, s.bins[b]);
  }

  // ---- One operation on the routed bin ----

  /** The routed bin after the operation and the caller's write. */
  function BinAfter<El>(o: Ops<El>, x: XBin<El>, op: D.Op<El>): XBin<El> {
    var i := D.Position(o, x.els, x.live, op.key, 0);
    if i < |x.els| then
      if op.DeleteOp? then x.(live := x.live - {i})
      else if op.ReplaceOp? then x.(els := x.els[i := op.e])
      else x
    else if op.InsertOp? || op.ReplaceOp? then x.(els := x.els + [op.e], live := x.live + {i})
    else x
  }

  /** Apart from making room, an operation changes only the routed bin and the count. */
  lemma ApplyChanges<El>(o: Ops<El>, s: State<El>, op: D.Op<El>, rounds: nat)
    requires Ready(o, s, op.key, D.ActionOf(op), rounds)
    ensures
      var p := Prepared(o, s, op.key, D.ActionOf(op), rounds);
      var b := Route(p, Hash(o, op.key));
      var (r, reply) := Apply(o, s, op, rounds);
      && r == p.(bins := p.bins[b := BinAfter(o, p.bins[b], op)], num := r.num)
      && r.num + |p.bins[b].live| == p.num + |BinAfter(o, p.bins[b], op).live|
      && reply == (var i := D.Position(o, p.bins[b].els, p.bins[b].live, op.key, 0);
                   if i == |p.bins[b].els| then D.Miss else if op.DeleteOp? then D.Gone else D.Hit(p.bins[b].els[i]))
  {
    hide D.Position, Prepared, Weak, Ready;
    PreparedFacts(o, s, op.key, D.ActionOf(op), rounds);
    var p := Prepared(o, s, op.key, D.ActionOf(op), rounds);
    var b := Route(p, Hash(o, op.key));
    var x := p.bins[b];
    var i := D.Position(o, x.els, x.live, op.key, 0);
    if i == |x.els| && (op.InsertOp? || op.ReplaceOp?) {
      assert (x.els + [op.key])[i := op.e] == x.els + [op.e];
    }
  }

  lemma PreparedFacts<El>(o: Ops<El>, s: State<El>, key: El, action: Action, rounds: nat)
    requires Ready(o, s, key, action, rounds)
    ensures
      var p := Prepared(o, s, key, action, rounds);
      |p.dir| == Pow2(p.maxDepth) &&
      var b := Route(p, Hash(o, key));
      && b < |p.bins| && |p.bins[b].live| <= p.num
      && forall i :: i in p.bins[b].live ==> i < |p.bins[b].els|
  {
    hide Prepared, Pow2, Ready;
    var p := Prepared(o, s, key, action, rounds);
    var b := Route(p, Hash(o, key));
    assert BinOk(o, p.bins[b]);
    LiveCountAtLeast(p.bins, b);
  }

  lemma BinAfterOk<El(!new)>(o: Ops<El>, x: XBin<El>, op: D.Op<El>)
    requires Lawful(o) && BinOk(o, x) && D.OpOk(o, op)
    requires op.InsertOp? || op.ReplaceOp? ==> |x.els| < x.cap
    ensures BinOk(o, BinAfter(o, x, op))
  {
    hide IsPow2, Pow2, D.Position, Distinct;
    BinAfterDistinct(o, x, op);
  }

  lemma BinAfterDistinct<El(!new)>(o: Ops<El>, x: XBin<El>, op: D.Op<El>)
    requires Lawful(o) && D.OpOk(o, op) && (forall i :: i in x.live ==> i < |x.els|) && Distinct(o, x.els, x.live)
    ensures var y := BinAfter(o, x, op); (forall i :: i in y.live ==> i < |y.els|) && Distinct(o, y.els, y.live)
  {
    hide D.Position;
    var y := BinAfter(o, x, op);
    var i := D.Position(o, x.els, x.live, op.key, 0);
    if i < |x.els| && op.ReplaceOp? {
      EqTrans(o, x.els[i], op.key, op.e);
      forall j, k | j in y.live && k in y.live && j != k ensures !Eq(o, y.els[j], y.els[k]) {
        EqSame(o, x.els[i], op.e, x.els[j]);
        EqSame(o, x.els[i], op.e, x.els[k]);
      }
    } else if i == |x.els| && (op.InsertOp? || op.ReplaceOp?) {
      AbsentSame(o, x.els, x.live, op.key, op.e);
      D.AppendDistinct(o, x.els, x.live, op.e);
    }
  }

  lemma AbsentSame<El(!new)>(o: Ops<El>, els: seq<El>, live: set<nat>, key: El, e: El)
    requires Lawful(o) && Eq(o, key, e) && Absent(o, els, live, key)
    ensures Absent(o, els, live, e)
  {
    forall i | i in live && i < |els| ensures !Eq(o, els[i], e) { EqSame(o, key, e, els[i]); }
  }

  lemma BinAfterRouted<El(!new)>(o: Ops<El>, x: XBin<El>, op: D.Op<El>)
    requires Lawful(o) && D.OpOk(o, op) && (forall i :: i in x.live ==> i < |x.els|) && Routed(o, x)
    requires Low(Hash(o, op.key), x.depth) == x.mask
    ensures var y := BinAfter(o, x, op); (forall i :: i in y.live ==> i < |y.els|) && Routed(o, y)
  {
    hide Low, D.Position;
    if op.InsertOp? || op.ReplaceOp? { EqSym(o, op.key, op.e); }
  }

  /** Replacing a bin by a sound bin of the same depth and mask keeps the table sound. */
  lemma StrongUpdate<El>(o: Ops<El>, s: State<El>, b: nat, x: XBin<El>, num: nat)
    requires Strong(o, s) && b < |s.bins| && BinOk(o, x) && Routed(o, x)
    requires x.depth == s.bins[b].depth && x.mask == s.bins[b].mask
    requires num + |s.bins[b].live| == s.num + |x.live|
    ensures Strong(o, s.(bins := s.bins[b := x], num := num))
  {
    hide Low, Pow2, BinOk, Routed, LiveCount;
    var r := s.(bins := s.bins[b := x], num := num);
    LiveCountUpdate(s.bins, b, x);
    forall j, c | 0 <= j < |r.dir| && 0 <= c < |r.bins| ensures Names(r, j, c) { assert Names(s, j, c); }
  }

  /** The key belongs to the bin it is routed to. */
  lemma KeyIsRouted<El>(o: Ops<El>, s: State<El>, key: El)
    requires Strong(o, s) && Route(s, Hash(o, key)) < |s.bins|
    ensures var x := s.bins[Route(s, Hash(o, key))]; Low(Hash(o, key), x.depth) == x.mask
  {
    hide Low, Pow2, BinOk, Routed, LiveCount;
    var h := Hash(o, key);
    var b := Route(s, h);
    assert s.bins[b].depth <= s.maxDepth;
    LowLow(h, s.bins[b].depth, s.maxDepth);
    assert Names(s, Low(h, s.maxDepth), b);
  }

  // ---- Making room keeps the elements ----

  lemma SurvivorSet<El>(x: XBin<El>, cap: nat)
    requires forall i :: i in x.live ==> i < |x.els|
    ensures BinSet(Compacted(x, cap)) == BinSet(x)
  {
    var y := Compacted(x, cap);
    forall e | e in BinSet(y) ensures e in BinSet(x) {
      var k :| k in y.live && k < |y.els| && y.els[k] == e;
      var i := D.SurvivorFrom(x.els, x.live, k);
    }
    forall e | e in BinSet(x) ensures e in BinSet(y) {
      var i :| i in x.live && i < |x.els| && x.els[i] == e;
      D.SurvivorAt(x.els, x.live, i);
      var k := |D.Survivors(x.els[..i], x.live)|;
      assert k in y.live && y.els[k] == e;
    }
  }

  lemma CompactedRouted<El>(o: Ops<El>, x: XBin<El>, cap: nat)
    requires (forall i :: i in x.live ==> i < |x.els|) && Routed(o, x)
    ensures Routed(o, Compacted(x, cap)) && |Compacted(x, cap).live| == |x.live|
  {
    hide Low;
    var y := Compacted(x, cap);
    D.SurvivorsCount(x.els, x.live);
    forall k | k in y.live ensures Low(Hash(o, y.els[k]), y.depth) == y.mask {
      var i := D.SurvivorFrom(x.els, x.live, k);
    }
  }

  ghost function SeqSet<El>(l: seq<El>): set<El> {
    set i: nat | i < |l| :: l[i]
  }

  lemma AllLiveSet<El>(x: XBin<El>)
    requires x.live == D.Upto(|x.els|)
    ensures BinSet(x) == SeqSet(x.els)
  {
  }

  lemma SideSets<El>(o: Ops<El>, l: seq<El>, k: nat)
    ensures SeqSet(Side(o, l, k, 0)) + SeqSet(Side(o, l, k, 1)) == SeqSet(l)
  {
    hide Bit, Side;
    forall v: nat, j: nat | v < 2 && j < |Side(o, l, k, v)| ensures Side(o, l, k, v)[j] in SeqSet(l) {
      var i := SideFrom(o, l, k, v, j);
    }
    forall i: nat | i < |l| ensures l[i] in SeqSet(Side(o, l, k, 0)) + SeqSet(Side(o, l, k, 1)) {
      SideHas(o, l, k, Bit(Hash(o, l[i]), k), i);
    }
  }

  /** The two halves of a split bin hold its live elements. */
  lemma HalvesSet<El>(o: Ops<El>, s: State<El>, b: nat)
    requires Weak(o, s) && b < |s.bins| && Sane(Started(s, b))
    ensures BinSet(OldBin(o, Started(s, b))) + BinSet(NewBin(o, Started(s, b))) == BinSet(s.bins[b])
  {
    hide LiveCount, Distinct, Pow2, SeqSet, BinSet, Side, D.Survivors, Kept;
    var w, x := Started(s, b), s.bins[b];
    StartedOk(o, s, b);
    assert BinOk(o, x);
    SurvivorSet(x, x.cap);
    AllLiveSet(Compacted(x, x.cap));
    SideSets(o, Moving(w), x.depth);
    AllLiveSet(OldBin(o, w));
    AllLiveSet(NewBin(o, w));
  }

  /** Two tables whose bins cover the same elements. */
  lemma ContentsSame<El>(a: seq<XBin<El>>, b: seq<XBin<El>>)
    requires forall c :: 0 <= c < |a| ==> BinSet(a[c]) <= Contents(b)
    requires forall c :: 0 <= c < |b| ==> BinSet(b[c]) <= Contents(a)
    ensures Contents(a) == Contents(b)
  {
    hide Contents, BinSet;
    forall e | e in Contents(a) ensures e in Contents(b) { var c := FromContents(a, e); }
    forall e | e in Contents(b) ensures e in Contents(a) { var c := FromContents(b, e); }
  }

  lemma SplitContents<El>(o: Ops<El>, s: State<El>, b: nat)
    requires Weak(o, s) && b < |s.bins| && Sane(Started(s, b))
    ensures Contents(Round(o, Started(s, b)).bins) == Contents(s.bins)
  {
    hide Weak, Contents, BinSet, OldBin, NewBin, Pow2;
    var w := Started(s, b);
    var r := Round(o, w);
    HalvesSet(o, s, b);
    forall c | 0 <= c < |r.bins| ensures BinSet(r.bins[c]) <= Contents(s.bins) {
      if c < |s.bins| { InContents(s.bins, c); }
      InContents(s.bins, b);
    }
    forall c | 0 <= c < |s.bins| ensures BinSet(s.bins[c]) <= Contents(r.bins) {
      InContents(r.bins, c);
      InContents(r.bins, w.n);
    }
    ContentsSame(r.bins, s.bins);
  }

  /** A bin of the table replaced, with its elements changed from one set to another. */
  lemma ContentsUpdate<El>(bins: seq<XBin<El>>, b: nat, x: XBin<El>, gone: set<El>, added: set<El>)
    requires b < |bins| && gone <= BinSet(bins[b]) && BinSet(x) == BinSet(bins[b]) - gone + added
    requires forall c :: 0 <= c < |bins| && c != b ==> BinSet(bins[c]) !! gone
    ensures Contents(bins[b := x]) == Contents(bins) - gone + added
  {
    hide Contents, BinSet;
    var r := bins[b := x];
    forall e | e in Contents(r) ensures e in Contents(bins) - gone + added {
      var c := FromContents(r, e);
      InContents(bins, c);
    }
    forall e | e in Contents(bins) - gone + added ensures e in Contents(r) {
      InContents(r, b);
      if e !in added {
        var c := FromContents(bins, e);
        InContents(r, c);
      }
    }
  }

  // ---- Runs ----

  /** If the operation splits a bin then H1 and H2 hold. */
  ghost predicate Plain<El>(o: Ops<El>, s: State<El>, key: El, action: Action) {
    && Weak(o, s)
    && var b := Route(s, Hash(o, key));
       b < |s.bins| && BinOk(o, s.bins[b]) && (action == Insert && MustSplit(s, b) ==> H1(s, b) && H2(o, s, b))
  }

  lemma PlainIsReady<El>(o: Ops<El>, s: State<El>, key: El, action: Action)
    requires Plain(o, s, key, action)
    ensures Ready(o, s, key, action, 1)
  {
    hide Low, Pow2, LiveCount, ExitsIn, Sane, Started;
    OneRound(o, s, Route(s, Hash(o, key)));
  }

  lemma CompactedStrong<El>(o: Ops<El>, s: State<El>, b: nat)
    requires Strong(o, s) && b < |s.bins| && MustMakeRoom(s, b) && !MustSplit(s, b)
    ensures Strong(o, Roomy(o, s, b, 1)) && Contents(Roomy(o, s, b, 1).bins) == Contents(s.bins)
  {
    hide Low, Pow2, LiveCount, Names, Routed, Compacted, BinSet, Contents, Strong, Distinct, IsPow2;
    var x, r := s.bins[b], Roomy(o, s, b, 1);
    StrongParts(o, s, b);
    CompactedOk(o, s, b);
    assert r == Roomy(o, s, b, 0);
    WeakBin(o, r, b);
    var cap := if Grows(s, b) then 2 * x.cap else x.cap;
    CompactedRouted(o, x, cap);
    CompactedSame(x, cap);
    StrongUpdate(o, s, b, Compacted(x, cap), s.num);
    SurvivorSet(x, cap);
    ContentsUpdate(s.bins, b, Compacted(x, cap), {}, {});
  }

  lemma CompactedSame<El>(x: XBin<El>, cap: nat)
    ensures Compacted(x, cap).depth == x.depth && Compacted(x, cap).mask == x.mask
  {
  }

  lemma StrongParts<El>(o: Ops<El>, s: State<El>, b: nat)
    requires Strong(o, s) && b < |s.bins|
    ensures Weak(o, s) && BinOk(o, s.bins[b]) && Routed(o, s.bins[b])
  {
  }

  lemma WeakBin<El>(o: Ops<El>, s: State<El>, b: nat)
    requires Weak(o, s) && b < |s.bins|
    ensures BinOk(o, s.bins[b])
  {
  }

  lemma PreparedStrong<El>(o: Ops<El>, s: State<El>, key: El, action: Action)
    requires Strong(o, s) && Plain(o, s, key, action) && Ready(o, s, key, action, 1)
    ensures Strong(o, Prepared(o, s, key, action, 1))
    ensures Contents(Prepared(o, s, key, action, 1).bins) == Contents(s.bins)
  {
    var b := Route(s, Hash(o, key));
    hide Low, Pow2, LiveCount, Names, Routed, Started, Contents, Strong, Weak, Compacted;
    StrongParts(o, s, b);
    if action == Insert && MustMakeRoom(s, b) {
      if MustSplit(s, b) {
        SplitKeepsStrong(o, s, b);
        SplitContents(o, s, b);
      } else {
        CompactedStrong(o, s, b);
      }
    }
  }

  /** What the operation does to the elements of the routed bin. */
  lemma BinAfterSet<El(!new)>(o: Ops<El>, x: XBin<El>, op: D.Op<El>)
    requires Lawful(o) && (forall i :: i in x.live ==> i < |x.els|) && Distinct(o, x.els, x.live)
    ensures
      var i := D.Position(o, x.els, x.live, op.key, 0);
      var gone := if i < |x.els| && (op.DeleteOp? || op.ReplaceOp?) then {x.els[i]} else {};
      var added := if op.ReplaceOp? || (op.InsertOp? && i == |x.els|) then {op.e} else {};
      gone <= BinSet(x) && BinSet(BinAfter(o, x, op)) == BinSet(x) - gone + added
  {
    hide D.Position;
    var i := D.Position(o, x.els, x.live, op.key, 0);
    var y := BinAfter(o, x, op);
    if i < |x.els| {
      assert x.els[i] in BinSet(x);
      forall j | j in x.live && j != i ensures x.els[j] != x.els[i] { EqRefl(o, x.els[i]); }
      if op.ReplaceOp? { assert y.els[i] in BinSet(y); }
      forall j | j in x.live && j != i && (op.DeleteOp? || op.ReplaceOp?) ensures x.els[j] in BinSet(y) {
        assert j in y.live && y.els[j] == x.els[j];
      }
    } else if op.InsertOp? || op.ReplaceOp? {
      assert y.els[i] == op.e && i in y.live;
      forall j | j in x.live ensures x.els[j] in BinSet(y) { assert j in y.live && y.els[j] == x.els[j]; }
    }
  }

  /** Elements of other bins are not the one found. */
  lemma FoundElsewhere<El(!new)>(o: Ops<El>, p: State<El>, key: El, gone: set<El>)
    requires Lawful(o) && Sound(o, p) && Route(p, Hash(o, key)) < |p.bins|
    requires forall e :: e in gone ==> Eq(o, e, key)
    ensures forall c :: 0 <= c < |p.bins| && c != Route(p, Hash(o, key)) ==> BinSet(p.bins[c]) !! gone
  {
    hide Sound, BinSet, Low, Pow2;
    forall c, e | 0 <= c < |p.bins| && c != RouteAt(o, p, key) && e in BinSet(p.bins[c]) ensures e !in gone {
      if e in gone { OtherBin(o, p, key, c, e); }
    }
  }

  ghost function RouteAt<El>(o: Ops<El>, p: State<El>, key: El): (b: nat)
    requires Sound(o, p)
    ensures b == Route(p, Hash(o, key))
  {
    Route(p, Hash(o, key))
  }

  /** Replacing a bin by a well-formed one whose elements are routed to it keeps the table sound. */
  lemma SoundUpdate<El>(o: Ops<El>, s: State<El>, b: nat, x: XBin<El>, num: nat)
    requires Sound(o, s) && b < |s.bins| && BinOk(o, x) && x.depth == s.bins[b].depth
    requires |s.dir| == Pow2(s.maxDepth) && forall i :: i in x.live && i < |x.els| ==> Route(s, Hash(o, x.els[i])) == b
    requires num + |s.bins[b].live| == s.num + |x.live|
    ensures Sound(o, s.(bins := s.bins[b := x], num := num))
  {
    hide Low, Pow2, BinOk, LiveCount;
    var r := s.(bins := s.bins[b := x], num := num);
    LiveCountUpdate(s.bins, b, x);
    forall c | 0 <= c < |r.bins| ensures BinReached(o, r, c) {
      if c != b { assert BinReached(o, s, c); }
    }
  }

  /** The elements of the routed bin are routed to it after the operation. */
  lemma BinAfterReached<El(!new)>(o: Ops<El>, s: State<El>, b: nat, op: D.Op<El>)
    requires Lawful(o) && Sound(o, s) && D.OpOk(o, op) && b < |s.bins| && |s.dir| == Pow2(s.maxDepth)
    requires Route(s, Hash(o, op.key)) == b
    ensures var y := BinAfter(o, s.bins[b], op);
      forall i :: i in y.live && i < |y.els| ==> Route(s, Hash(o, y.els[i])) == b
  {
    hide D.Position, Route, Weak, LiveCount, Pow2;
    assert BinReached(o, s, b);
    if op.InsertOp? || op.ReplaceOp? { EqSym(o, op.key, op.e); }
  }

  lemma SoundBin<El>(o: Ops<El>, s: State<El>, b: nat)
    requires Sound(o, s) && b < |s.bins|
    ensures Weak(o, s) && BinOk(o, s.bins[b])
  {
  }

  /** Once the table has room and every element can be found, an operation does what the set does, and every
      element can still be found. */
  lemma ApplyPrepared<El(!new)>(o: Ops<El>, s: State<El>, op: D.Op<El>, rounds: nat)
    requires Lawful(o) && D.OpOk(o, op) && Ready(o, s, op.key, D.ActionOf(op), rounds)
    requires Sound(o, Prepared(o, s, op.key, D.ActionOf(op), rounds))
    ensures Sound(o, Apply(o, s, op, rounds).0)
    ensures var (r, reply) := Apply(o, s, op, rounds);
      (Contents(r.bins), reply) == SetApply(o, Contents(Prepared(o, s, op.key, D.ActionOf(op), rounds).bins), op)
  {
    hide Low, Pow2, LiveCount, Sound, Contents, BinSet, BinAfter, Prepared, Apply, D.Position, Ready, BinOk, Weak;
    PreparedFacts(o, s, op.key, D.ActionOf(op), rounds);
    var p := Prepared(o, s, op.key, D.ActionOf(op), rounds);
    var b := RouteAt(o, p, op.key);
    var x := p.bins[b];
    ApplyChanges(o, s, op, rounds);
    BinIsDistinct(o, p, b);
    SoundBin(o, p, b);
    BinAfterOk(o, x, op);
    BinAfterReached(o, p, b, op);
    BinAfterSame(o, x, op);
    SoundUpdate(o, p, b, BinAfter(o, x, op), Apply(o, s, op, rounds).0.num);
    BinAfterSet(o, x, op);
    FindIsPresent(o, p, op.key);
    SetApplyIs(o, Contents(p.bins), op);
    var i := D.Position(o, x.els, x.live, op.key, 0);
    var gone := if i < |x.els| && (op.DeleteOp? || op.ReplaceOp?) then {x.els[i]} else {};
    var added := if op.ReplaceOp? || (op.InsertOp? && i == |x.els|) then {op.e} else {};
    FoundElsewhere(o, p, op.key, gone);
    ContentsUpdate(p.bins, b, BinAfter(o, x, op), gone, added);
  }

  /** The routed bin of a sound table is split by the operation. */
  ghost predicate Splits<El>(o: Ops<El>, s: State<El>, key: El, action: Action) {
    && Weak(o, s) && action == Insert
    && var b := Route(s, Hash(o, key)); b < |s.bins| && MustSplit(s, b)
  }

  /** An operation that splits no bin is the set operation and keeps every element in reach, whatever became
      of the directory before. */
  lemma ApplyWithoutSplit<El(!new)>(o: Ops<El>, s: State<El>, op: D.Op<El>, rounds: nat)
    requires Lawful(o) && Sound(o, s) && D.OpOk(o, op) && !Splits(o, s, op.key, D.ActionOf(op))
    ensures Ready(o, s, op.key, D.ActionOf(op), rounds) && Sound(o, Apply(o, s, op, rounds).0)
    ensures var (r, reply) := Apply(o, s, op, rounds); (Contents(r.bins), reply) == SetApply(o, Contents(s.bins), op)
  {
    PreparedSound(o, s, op.key, D.ActionOf(op), rounds);
    hide Sound, Splits, Ready, Prepared, Contents, Apply, SetApply;
    ApplyPrepared(o, s, op, rounds);
  }

  lemma PreparedSound<El>(o: Ops<El>, s: State<El>, key: El, action: Action, rounds: nat)
    requires Sound(o, s) && !Splits(o, s, key, action)
    ensures Ready(o, s, key, action, rounds) && Sound(o, Prepared(o, s, key, action, rounds))
    ensures Contents(Prepared(o, s, key, action, rounds).bins) == Contents(s.bins)
  {
    hide Low, Pow2, LiveCount, Started, Contents, Reached, BinOk, Compacted, MustMakeRoom, Grows;
    var b := Route(s, Hash(o, key));
    if action == Insert && MustMakeRoom(s, b) { CompactedSound(o, s, b, rounds); }
  }

  lemma CompactedSound<El>(o: Ops<El>, s: State<El>, b: nat, rounds: nat)
    requires Sound(o, s) && b < |s.bins| && MustMakeRoom(s, b) && !MustSplit(s, b)
    ensures Sound(o, Roomy(o, s, b, rounds)) && Contents(Roomy(o, s, b, rounds).bins) == Contents(s.bins)
  {
    hide Low, Pow2, LiveCount, Compacted, BinSet, Contents, Sound, Distinct, IsPow2;
    var x, r := s.bins[b], Roomy(o, s, b, rounds);
    SoundBin(o, s, b);
    CompactedOk(o, s, b);
    assert r == Roomy(o, s, b, 0);
    WeakBin(o, r, b);
    var cap := if Grows(s, b) then 2 * x.cap else x.cap;
    CompactedReached(o, s, b, cap);
    CompactedSame(x, cap);
    SoundUpdate(o, s, b, Compacted(x, cap), s.num);
    SurvivorSet(x, cap);
    ContentsUpdate(s.bins, b, Compacted(x, cap), {}, {});
  }

  lemma CompactedReached<El>(o: Ops<El>, s: State<El>, b: nat, cap: nat)
    requires Sound(o, s) && b < |s.bins|
    ensures |s.dir| == Pow2(s.maxDepth) && |Compacted(s.bins[b], cap).live| == |s.bins[b].live|
    ensures var y := Compacted(s.bins[b], cap);
      forall i :: i in y.live && i < |y.els| ==> Route(s, Hash(o, y.els[i])) == b
  {
    hide Low, Route, LiveCount, Distinct;
    var x := s.bins[b];
    var y := Compacted(x, cap);
    assert BinOk(o, x) && BinReached(o, s, b);
    D.SurvivorsCount(x.els, x.live);
    forall k | k in y.live && k < |y.els| ensures Route(s, Hash(o, y.els[k])) == b {
      var i := D.SurvivorFrom(x.els, x.live, k);
    }
  }

  /** One operation, with H1 and H2 at a split: the invariant is kept and the table does what the set does. */
  lemma ApplyIsSet<El(!new)>(o: Ops<El>, s: State<El>, op: D.Op<El>)
    requires Lawful(o) && Strong(o, s) && Plain(o, s, op.key, D.ActionOf(op)) && D.OpOk(o, op)
    ensures Ready(o, s, op.key, D.ActionOf(op), 1)
    ensures Strong(o, Apply(o, s, op, 1).0)
    ensures var (r, reply) := Apply(o, s, op, 1); (Contents(r.bins), reply) == SetApply(o, Contents(s.bins), op)
  {
    hide Strong, Contents, Prepared, Apply, Plain, Ready, SetApply, Sound;
    PlainIsReady(o, s, op.key, D.ActionOf(op));
    PreparedStrong(o, s, op.key, D.ActionOf(op));
    StrongIsSound(o, Prepared(o, s, op.key, D.ActionOf(op), 1));
    ApplyPrepared(o, s, op, 1);
    ApplyStrong(o, s, op, 1);
  }

  lemma ApplyStrong<El(!new)>(o: Ops<El>, s: State<El>, op: D.Op<El>, rounds: nat)
    requires Lawful(o) && D.OpOk(o, op) && Ready(o, s, op.key, D.ActionOf(op), rounds)
    requires Strong(o, Prepared(o, s, op.key, D.ActionOf(op), rounds))
    ensures Strong(o, Apply(o, s, op, rounds).0)
  {
    hide Low, Pow2, LiveCount, Strong, BinAfter, Prepared, Apply, D.Position, Ready, BinOk, Weak, Routed, Sound;
    PreparedFacts(o, s, op.key, D.ActionOf(op), rounds);
    var p := Prepared(o, s, op.key, D.ActionOf(op), rounds);
    StrongIsSound(o, p);
    var b := RouteAt(o, p, op.key);
    var x := p.bins[b];
    ApplyChanges(o, s, op, rounds);
    StrongParts(o, p, b);
    KeyIsRouted(o, p, op.key);
    BinAfterOk(o, x, op);
    BinAfterRouted(o, x, op);
    BinAfterSame(o, x, op);
    StrongUpdate(o, p, b, BinAfter(o, x, op), Apply(o, s, op, rounds).0.num);
  }

  lemma SetApplyIs<El>(o: Ops<El>, c: set<El>, op: D.Op<El>)
    ensures
      var gone := if Present(o, c, op.key) && (op.DeleteOp? || op.ReplaceOp?) then {The(o, c, op.key)} else {};
      var added := if op.ReplaceOp? || (op.InsertOp? && !Present(o, c, op.key)) then {op.e} else {};
      SetApply(o, c, op).0 == c - gone + added
  {
  }

  lemma BinAfterSame<El>(o: Ops<El>, x: XBin<El>, op: D.Op<El>)
    ensures BinAfter(o, x, op).depth == x.depth && BinAfter(o, x, op).mask == x.mask
  {
  }

  ghost function SetRun<El>(o: Ops<El>, c: set<El>, ops: seq<D.Op<El>>): (set<El>, seq<D.Reply<El>>)
    decreases |ops|
  {
    if ops == [] then (c, []) else
      var (c1, r) := SetApply(o, c, ops[0]);
      var (c2, rs) := SetRun(o, c1, ops[1..]);
      (c2, [r] + rs)
  }

  // ---- Creation ----

  /** `ixht_create`: 2^p empty bins, one for each directory entry. */
  function Created<El>(p: nat, cap: nat): State<El> {
    State(p, seq(Pow2(p), i => i), seq(Pow2(p), (i: nat) => XBin(p, i, cap, [], {})), 0)
  }

  lemma CreatedStrong<El>(o: Ops<El>, p: nat, cap: nat)
    requires 8 <= cap <= MAX_CAP && IsPow2(cap)
    ensures Strong(o, Created<El>(p, cap)) && Contents(Created<El>(p, cap).bins) == {}
  {
    hide Low, IsPow2, Pow2;
    var s := Created<El>(p, cap);
    NoneLive(s.bins);
    forall j, b | 0 <= j < |s.dir| && 0 <= b < |s.bins| ensures Names(s, j, b) { LowSmall(j, p); }
  }

  lemma {:induction false} NoneLive<El>(bins: seq<XBin<El>>)
    requires forall b :: 0 <= b < |bins| ==> bins[b].live == {}
    ensures LiveCount(bins) == 0 && Contents(bins) == {}
  {
    if bins != [] { NoneLive(bins[..|bins| - 1]); }
  }
}
