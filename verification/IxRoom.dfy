/** When ixhtab makes room, told by the tables before and after, and the tables that never split a bin: as long
    as a table holds fewer than 2^14 elements it is a set for every hash function. */
module IxRoom {
  import opened BitMath
  import D = Dense
  import opened Directory
  import opened Extendible
  import opened IxExact
  import opened IxRuns
  import opened IxSizes
  import opened Keys
  import opened Probe
  import opened SplitExact

  // ---- Making room ----

  predicate Inserts<El>(op: D.Op<El>) { D.ActionOf(op) == Insert }

  /** The bin after an insertion that made no room: every entry is kept, with one more if the key was new. */
  predicate Added<El>(x: XBin<El>, y: XBin<El>, reply: D.Reply<El>) {
    && y.cap == x.cap && x.live <= y.live && |y.els| == |x.els| + (if reply == D.Miss then 1 else 0)
  }

  /** The bin after an insertion that compacted it: no deleted entry is left. */
  predicate Repacked<El>(x: XBin<El>, y: XBin<El>, reply: D.Reply<El>) {
    y.live == D.Upto(|y.els|) && |y.els| == |x.live| + (if reply == D.Miss then 1 else 0)
  }

  lemma BinAfterAdded<El>(o: Ops<El>, x: XBin<El>, op: D.Op<El>)
    requires Inserts(op)
    ensures
      var i := D.Position(o, x.els, x.live, op.key, 0);
      var reply := if i == |x.els| then D.Miss else D.Hit(x.els[i]);
      && Added(x, BinAfter(o, x, op), reply)
      && (x.live == D.Upto(|x.els|) ==> Repacked(x, BinAfter(o, x, op), reply))
  {
    hide D.Position;
    D.UptoNext(|x.els|);
  }

  /** The table in which an insertion looks for the key. */
  lemma PreparedIs<El>(o: Ops<El>, s: State<El>, key: El, rounds: nat)
    requires Ready(o, s, key, Insert, rounds)
    ensures
      var b := Route(s, Hash(o, key));
      var (x, p) := (s.bins[b], Prepared(o, s, key, Insert, rounds));
      if |x.els| < x.cap then p == s
      else if x.cap == MAX_CAP <= s.num then |p.bins| == |s.bins| + 1
      else
        && p == s.(bins := s.bins[b := Compacted(x, if s.num >= x.cap then 2 * x.cap else x.cap)])
        && Route(p, Hash(o, key)) == b
  {
    hide Low, Pow2, LiveCount, Split, ExitsIn, Started, Sane, Compacted;
    var b := Route(s, Hash(o, key));
    WeakBin(o, s, b);
    if MustSplit(s, b) { SplitBeside(o, s, b, rounds); }
  }

  lemma CompactedSize<El>(x: XBin<El>, cap: nat)
    requires forall i :: i in x.live ==> i < |x.els|
    ensures var y := Compacted(x, cap);
      y.cap == cap && |y.els| == |x.live| && y.live == D.Upto(|y.els|) && |y.live| == |x.live|
  {
    D.SurvivorsCount(x.els, x.live);
  }

  /** An insertion makes room if and only if the bin that the key is routed to is full.  It then adds a bin, or
      doubles that bin, if and only if the table holds at least as many elements as the bin has room for: a bin
      if that is 2^14, and otherwise twice the room.  Nothing happens to the other bins. */
  lemma RoomIffFull<El>(o: Ops<El>, s: State<El>, op: D.Op<El>, rounds: nat)
    requires Inserts(op) && Ready(o, s, op.key, Insert, rounds)
    ensures
      var b := Route(s, Hash(o, op.key));
      var (r, reply) := Apply(o, s, op, rounds);
      var x := s.bins[b];
      && (|r.bins| > |s.bins| <==> |x.els| == x.cap == MAX_CAP <= s.num)
      && (|r.bins| > |s.bins| ==> |r.bins| == |s.bins| + 1)
      && b < |r.bins|
      && (|x.els| < x.cap ==> Added(x, r.bins[b], reply))
      && (|x.els| == x.cap ==> (|r.bins| > |s.bins| || r.bins[b].cap == 2 * x.cap <==> s.num >= x.cap))
      && (|x.els| == x.cap > s.num ==> r.bins[b].cap == x.cap)
      && (|x.els| == x.cap && |r.bins| == |s.bins| ==> Repacked(x, r.bins[b], reply))
      && (|r.bins| == |s.bins| ==> r == s.(bins := s.bins[b := r.bins[b]], num := r.num))
  {
    hide Low, Pow2, LiveCount, Prepared, Apply, D.Position, BinAfter, Split, ExitsIn, Started, Sane, Compacted;
    var b := Route(s, Hash(o, op.key));
    WeakBin(o, s, b);
    var p := Prepared(o, s, op.key, Insert, rounds);
    ApplyChanges(o, s, op, rounds);
    PreparedFacts(o, s, op.key, Insert, rounds);
    PreparedIs(o, s, op.key, rounds);
    CompactedSize(s.bins[b], if s.num >= s.bins[b].cap then 2 * s.bins[b].cap else s.bins[b].cap);
    BinAfterAdded(o, p.bins[Route(p, Hash(o, op.key))], op);
  }

  // ---- Tables of fewer than 2^14 elements ----

  /** From a sound table of fewer than 2^14 elements every operation is the set operation and leaves a sound
      table, whatever the hashes are. */
  lemma SmallIsSet<El(!new)>(o: Ops<El>, s: State<El>, op: D.Op<El>, rounds: nat)
    requires Lawful(o) && Sound(o, s) && D.OpOk(o, op) && (Inserts(op) ==> s.num < MAX_CAP)
    ensures Ready(o, s, op.key, D.ActionOf(op), rounds) && Sound(o, Apply(o, s, op, rounds).0)
    ensures var (r, reply) := Apply(o, s, op, rounds); (Contents(r.bins), reply) == SetApply(o, Contents(s.bins), op)
  {
    assert !Splits(o, s, op.key, D.ActionOf(op)) by { NoSplit(o, s, op); }
    hide Sound, Splits, Ready, Apply, SetApply, Contents;
    ApplyWithoutSplit(o, s, op, rounds);
  }

  lemma NoSplit<El>(o: Ops<El>, s: State<El>, op: D.Op<El>)
    requires Weak(o, s) && (Inserts(op) ==> s.num < MAX_CAP)
    ensures !Splits(o, s, op.key, D.ActionOf(op))
  {
    hide Low, Pow2, LiveCount;
  }

  /** The element count of a sound table is the size of the set. */
  lemma SoundSize<El(!new)>(o: Ops<El>, s: State<El>)
    requires Lawful(o) && Sound(o, s)
    ensures |Contents(s.bins)| == s.num
  {
    hide LiveCount, Contents;
    PrefixSize(o, s, |s.bins|);
    assert s.bins[..|s.bins|] == s.bins;
  }

  lemma {:induction false} PrefixSize<El(!new)>(o: Ops<El>, s: State<El>, n: nat)
    requires Lawful(o) && Sound(o, s) && n <= |s.bins|
    ensures |Contents(s.bins[..n])| == LiveCount(s.bins[..n])
  {
    hide Sound, Lawful, BinSet;
    if n > 0 {
      var m := n - 1;
      PrefixSize(o, s, m);
      assert s.bins[..n][..m] == s.bins[..m];
      SoundBin(o, s, m);
      BinSize(o, s.bins[m]);
      BinsApart(o, s, m);
      forall e | e in Contents(s.bins[..m]) ensures e !in BinSet(s.bins[m]) {
        var c := FromContents(s.bins[..m], e);
      }
    }
  }

  lemma BinSize<El(!new)>(o: Ops<El>, x: XBin<El>)
    requires Lawful(o) && BinOk(o, x)
    ensures |BinSet(x)| == |x.live|
  {
    hide Lawful, BinSet, SeqSet, LiveOf, Distinct;
    LiveSet(x);
    LiveSize(x);
    LiveDistinct(o, x);
    DistinctIsDifferent(o, LiveOf(x));
    SeqSetSize(LiveOf(x));
  }

  /** At every insertion of a run the set has fewer than 2^14 elements. */
  ghost predicate Small<El>(o: Ops<El>, c: set<El>, ops: seq<D.Op<El>>) {
    forall n :: 0 <= n < |ops| && Inserts(ops[n]) ==> |SetRun(o, c, ops[..n]).0| < MAX_CAP
  }

  /** Over every such run, from any sound table and for every hash function: it is a run of the set, with every
      element in reach throughout. */
  lemma {:induction false} SmallRunIsSet<El(!new)>(o: Ops<El>, s: State<El>, ops: seq<D.Op<El>>, rounds: seq<nat>)
    requires Lawful(o) && Sound(o, s) && |rounds| == |ops| && forall i :: 0 <= i < |ops| ==> D.OpOk(o, ops[i])
    requires Small(o, Contents(s.bins), ops)
    ensures Ends(o, s, ops, rounds) && StaysSet(o, s, ops, rounds)
    decreases |ops|
  {
    hide Sound, Lawful, Ready, Apply, SetApply, Contents, D.OpOk, Inserts;
    if ops != [] {
      SoundSize(o, s);
      assert ops[..0] == [];
      SmallIsSet(o, s, ops[0], rounds[0]);
      SmallRest(o, Contents(s.bins), ops);
      SmallRunIsSet(o, Apply(o, s, ops[0], rounds[0]).0, ops[1..], rounds[1..]);
    }
  }

  lemma SmallRest<El>(o: Ops<El>, c: set<El>, ops: seq<D.Op<El>>)
    requires ops != [] && Small(o, c, ops)
    ensures Small(o, SetApply(o, c, ops[0]).0, ops[1..])
  {
    hide SetApply, Inserts;
    var rest := ops[1..];
    forall n | 0 <= n < |rest| && Inserts(rest[n])
      ensures |SetRun(o, SetApply(o, c, ops[0]).0, rest[..n]).0| < MAX_CAP
    {
      assert Inserts(ops[n + 1]) && ops[..n + 1][1..] == rest[..n];
    }
  }

  // ---- New tables ----

  function Capacity<El>(bins: seq<XBin<El>>): nat {
    if bins == [] then 0 else Capacity(bins[..|bins| - 1]) + bins[|bins| - 1].cap
  }

  /** Entries in use, deleted or not. */
  function Entries<El>(bins: seq<XBin<El>>): nat {
    if bins == [] then 0 else Entries(bins[..|bins| - 1]) + |bins[|bins| - 1].els|
  }

  lemma {:induction false} SameCaps<El>(bins: seq<XBin<El>>, cap: nat)
    requires forall b :: 0 <= b < |bins| ==> bins[b].cap == cap && bins[b].els == []
    ensures Capacity(bins) == |bins| * cap && Entries(bins) == 0
  {
    if bins != [] { SameCaps(bins[..|bins| - 1], cap); }
  }

  lemma {:induction false} EntriesUpdate<El>(bins: seq<XBin<El>>, b: nat, x: XBin<El>)
    requires b < |bins|
    ensures Entries(bins[b := x]) + |bins[b].els| == Entries(bins) + |x.els|
    ensures |bins[b].els| <= Entries(bins)
  {
    var n := |bins| - 1;
    if b < n {
      EntriesUpdate(bins[..n], b, x);
      assert bins[b := x][..n] == bins[..n][b := x];
    } else {
      assert bins[b := x][..n] == bins[..n];
    }
  }

  /** How many elements a run adds to a set. */
  ghost function News<El>(o: Ops<El>, c: set<El>, ops: seq<D.Op<El>>): nat
    decreases |ops|
  {
    if ops == [] then 0 else
      var (d, reply) := SetApply(o, c, ops[0]);
      (if Inserts(ops[0]) && reply == D.Miss then 1 else 0) + News(o, d, ops[1..])
  }

  /** At every insertion of a run it has added fewer than `free` elements. */
  ghost predicate Adds<El>(o: Ops<El>, c: set<El>, ops: seq<D.Op<El>>, free: nat) {
    forall n :: 0 <= n < |ops| && Inserts(ops[n]) ==> News(o, c, ops[..n]) < free
  }

  lemma AddsRest<El>(o: Ops<El>, c: set<El>, ops: seq<D.Op<El>>, free: nat)
    requires ops != [] && Adds(o, c, ops, free)
    ensures Inserts(ops[0]) ==> free > 0
    ensures
      var (d, reply) := SetApply(o, c, ops[0]);
      Adds(o, d, ops[1..], if Inserts(ops[0]) && reply == D.Miss then free - 1 else free)
  {
    hide SetApply, Inserts;
    assert ops[..0] == [];
    var rest := ops[1..];
    forall n | 0 <= n < |rest| && Inserts(rest[n]) ensures News(o, c, ops[..n + 1]) < free {
      assert Inserts(ops[n + 1]);
    }
    forall n | 0 <= n < |rest| ensures ops[..n + 1][1..] == rest[..n] && ops[..n + 1][0] == ops[0] {}
  }

  /** Every bin has room for `free` elements more than the table has entries. */
  predicate Spacious<El>(s: State<El>, free: nat) {
    forall b :: 0 <= b < |s.bins| ==> Entries(s.bins) + free <= s.bins[b].cap
  }

  /** The same bins, of the same capacities, found by the same directory. */
  predicate SameRoom<El>(s: State<El>, r: State<El>) {
    && r.dir == s.dir && |r.bins| == |s.bins|
    && forall b :: 0 <= b < |s.bins| ==> r.bins[b].cap == s.bins[b].cap
  }

  /** An operation that finds the routed bin not full, or that is no insertion, makes no room. */
  lemma StepRoom<El>(o: Ops<El>, s: State<El>, op: D.Op<El>, rounds: nat)
    requires Ready(o, s, op.key, D.ActionOf(op), rounds)
    requires Inserts(op) ==> Spacious(s, 1)
    ensures
      var (r, reply) := Apply(o, s, op, rounds);
      SameRoom(s, r) && Entries(r.bins) == Entries(s.bins) + if Inserts(op) && reply == D.Miss then 1 else 0
  {
    hide Low, Pow2, LiveCount, Apply, D.Position, BinAfter, Split, ExitsIn, Started, Sane, Compacted, Entries, BinOk;
    var b := Route(s, Hash(o, op.key));
    var y := BinAfter(o, s.bins[b], op);
    EntriesUpdate(s.bins, b, y);
    if Inserts(op) { BinAfterAdded(o, s.bins[b], op); } else { BinAfterKept(o, s.bins[b], op); }
    assert Prepared(o, s, op.key, D.ActionOf(op), rounds) == s;
    hide Prepared;
    ApplyChanges(o, s, op, rounds);
  }

  lemma BinAfterKept<El>(o: Ops<El>, x: XBin<El>, op: D.Op<El>)
    requires !Inserts(op)
    ensures BinAfter(o, x, op).els == x.els && BinAfter(o, x, op).cap == x.cap
  {
  }

  lemma NoSplitYet<El>(o: Ops<El>, s: State<El>, op: D.Op<El>)
    requires Weak(o, s) && (Inserts(op) ==> Spacious(s, 1))
    ensures !Splits(o, s, op.key, D.ActionOf(op))
  {
    hide Low, Pow2, LiveCount, Entries;
    var b := Route(s, Hash(o, op.key));
    EntriesUpdate(s.bins, b, s.bins[b]);
  }

  /** While a run has added fewer elements than every bin has room for, no insertion makes room: each new
      element gets an entry and none is removed.  It is a run of the set for every hash function. */
  lemma {:induction false} NoRoomMade<El(!new)>(
    o: Ops<El>, s: State<El>, ops: seq<D.Op<El>>, rounds: seq<nat>, free: nat)
    requires Lawful(o) && Sound(o, s) && |rounds| == |ops| && forall i :: 0 <= i < |ops| ==> D.OpOk(o, ops[i])
    requires Spacious(s, free) && Adds(o, Contents(s.bins), ops, free)
    ensures Ends(o, s, ops, rounds) && StaysSet(o, s, ops, rounds)
    ensures var r := RunOf(o, s, ops, rounds).0;
      SameRoom(s, r) && Entries(r.bins) == Entries(s.bins) + News(o, Contents(s.bins), ops)
    decreases |ops|
  {
    hide Sound, Lawful, Ready, Apply, SetApply, Contents, D.OpOk, Inserts, Adds, Entries, Splits;
    if ops != [] {
      AddsRest(o, Contents(s.bins), ops, free);
      assert Weak(o, s) by { SoundIsWeak(o, s); }
      NoSplitYet(o, s, ops[0]);
      ApplyWithoutSplit(o, s, ops[0], rounds[0]);
      StepRoom(o, s, ops[0], rounds[0]);
      var (t, reply) := Apply(o, s, ops[0], rounds[0]);
      NoRoomMade(o, t, ops[1..], rounds[1..], if Inserts(ops[0]) && reply == D.Miss then free - 1 else free);
    }
  }

  lemma SoundIsWeak<El>(o: Ops<El>, s: State<El>)
    requires Sound(o, s)
    ensures Weak(o, s)
  {
  }

  /** The capacities of a new table. */
  lemma CreatedCapacity<El>(p: nat, cap: nat)
    ensures var s := Created<El>(p, cap); Capacity(s.bins) == Pow2(p) * cap && Entries(s.bins) == 0
  {
    hide Pow2;
    SameCaps(Created<El>(p, cap).bins, cap);
  }

  /** Every bin of a new table has room for `minSize` elements or for 2^14. */
  lemma CreatedSpacious<El>(p: nat, cap: nat, minSize: nat)
    requires var s := Created<El>(p, cap); Capacity(s.bins) >= minSize && FullSized(s)
    ensures Spacious(Created<El>(p, cap), if minSize < MAX_CAP then minSize else MAX_CAP)
  {
    hide Pow2, Capacity, Entries;
    CreatedCapacity<El>(p, cap);
  }

  /** A new table with room for `minSize` elements takes as many, though not more than 2^14, before an insertion
      makes room. */
  lemma FirstElements<El(!new)>(
    o: Ops<El>, p: nat, cap: nat, minSize: nat, ops: seq<D.Op<El>>, rounds: seq<nat>)
    requires Lawful(o) && |rounds| == |ops| && forall i :: 0 <= i < |ops| ==> D.OpOk(o, ops[i])
    requires 8 <= cap <= MAX_CAP && IsPow2(cap)
    requires var s := Created<El>(p, cap); Capacity(s.bins) >= minSize && FullSized(s)
    requires Adds(o, {}, ops, if minSize < MAX_CAP then minSize else MAX_CAP)
    ensures var s := Created<El>(p, cap);
      && Ends(o, s, ops, rounds) && StaysSet(o, s, ops, rounds)
      && SameRoom(s, RunOf(o, s, ops, rounds).0)
      && Entries(RunOf(o, s, ops, rounds).0.bins) == News(o, {}, ops)
  {
    hide Sound, Strong, Lawful, Pow2, IsPow2, Contents, Adds, Capacity, Entries, D.OpOk, Spacious, FullSized, SameRoom,
         Created, Ends, StaysSet, RunOf, News;
    var s := Created<El>(p, cap);
    CreatedStrong(o, p, cap);
    StrongIsSound(o, s);
    CreatedCapacity<El>(p, cap);
    CreatedSpacious<El>(p, cap, minSize);
    NoRoomMade(o, s, ops, rounds, if minSize < MAX_CAP then minSize else MAX_CAP);
  }

  // ---- Hash 0 ----

  /** Every element of a sound table lies in the bin that the directory names at its hash modulo the size of the
      directory, where a hash of 0 counts as 1: in the bin of entry 1, unless there is only one entry. */
  lemma WhereElementsLie<El>(o: Ops<El>, s: State<El>, b: nat, i: nat)
    requires Sound(o, s) && o.zeroIsOne && b < |s.bins| && i in s.bins[b].live && i < |s.bins[b].els|
    ensures var h := o.hash(s.bins[b].els[i]);
      |s.dir| > 0 && b == s.dir[(if h == 0 then 1 else h) % |s.dir|]
      && (h == 0 && |s.dir| > 1 ==> b == s.dir[1])
  {
    hide Pow2, LiveCount, BinOk;
    assert BinReached(o, s, b);
  }

  lemma FirstOfBin<El(!new)>(o: Ops<El>, x: XBin<El>, e: El)
    requires x.els == [] && x.live == {}
    ensures BinAfter(o, x, D.InsertOp(e, e)) == x.(els := [e], live := {0})
  {
  }

  /** A table whose routed bin is empty makes no room. */
  lemma EmptyIsReady<El>(o: Ops<El>, s: State<El>, key: El, rounds: nat)
    requires Weak(o, s) && s.bins[Route(s, Hash(o, key))].els == []
    ensures Ready(o, s, key, Insert, rounds) && Prepared(o, s, key, Insert, rounds) == s
  {
    hide Low, Pow2, LiveCount;
    WeakBin(o, s, Route(s, Hash(o, key)));
  }

  lemma CreatedRoute<El>(p: nat, cap: nat, h: nat)
    requires p > 0
    ensures var s := Created<El>(p, cap);
      && |s.dir| == |s.bins| == Pow2(p) > 1 && h % |s.bins| < |s.bins| && 1 % |s.bins| == 1
      && Route(s, h) == h % |s.bins| && s.bins[h % |s.bins|] == XBin(p, h % |s.bins|, cap, [], {})
  {
    assert Pow2(p) > 1;
    hide Pow2;
    LowSmall(1, p);
    var k := Low(h, p);
    assert k == h % Pow2(p);
  }

  lemma CreatedWeak<El>(o: Ops<El>, p: nat, cap: nat)
    requires 8 <= cap <= MAX_CAP && IsPow2(cap)
    ensures Weak(o, Created<El>(p, cap))
  {
    hide Pow2, IsPow2, LiveCount, BinOk;
    CreatedStrong(o, p, cap);
  }

  /** The first element of a new table of several bins lies in the bin of its hash, and in bin 1 if that is 0. */
  lemma FirstGoesTo<El(!new)>(o: Ops<El>, p: nat, cap: nat, e: El, rounds: nat)
    requires o.zeroIsOne && 8 <= cap <= MAX_CAP && IsPow2(cap) && p > 0
    ensures
      var s := Created<El>(p, cap);
      var b := if o.hash(e) == 0 then 1 else o.hash(e) % |s.bins|;
      && Ready(o, s, e, Insert, rounds) && b < |s.bins|
      && Apply(o, s, D.InsertOp(e, e), rounds).0.bins == s.bins[b := XBin(p, b, cap, [e], {0})]
  {
    hide Pow2, IsPow2, BinAfter, Apply, D.Position, Prepared, Ready, Created, Weak, Route;
    var s := Created<El>(p, cap);
    CreatedWeak(o, p, cap);
    CreatedRoute<El>(p, cap, Hash(o, e));
    EmptyIsReady(o, s, e, rounds);
    ApplyChanges(o, s, D.InsertOp(e, e), rounds);
    FirstOfBin(o, s.bins[Hash(o, e) % |s.bins|], e);
  }
}
