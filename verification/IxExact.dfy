/** Exactly when ixhtab keeps its promises: when it answers like a set and every element can be found, and when
    it keeps the invariant of extendible hashing. */
module IxExact {
  import opened BitMath
  import D = Dense
  import opened Directory
  import opened Extendible
  import opened IxRuns
  import opened Keys
  import opened Probe
  import opened SplitExact

  /** The directory depends only on the depths and masks of the bins. */
  lemma DirOkSame<El>(s: State<El>, b: nat, x: XBin<El>, num: nat)
    requires b < |s.bins| && x.depth == s.bins[b].depth && x.mask == s.bins[b].mask
    ensures DirOk(s.(bins := s.bins[b := x], num := num)) ==> DirOk(s)
  {
    hide Low;
    var r := s.(bins := s.bins[b := x], num := num);
    if DirOk(r) {
      forall j, c | 0 <= j < |s.dir| && 0 <= c < |s.bins| ensures Names(s, j, c) { assert Names(r, j, c); }
    }
  }

  /** A split that meets H2 has no other number of rounds than one. */
  lemma RoundsAreOne<El>(o: Ops<El>, s: State<El>, key: El, action: Action, rounds: nat)
    requires Plain(o, s, key, action) && Ready(o, s, key, action, rounds)
    ensures Ready(o, s, key, action, 1) && Prepared(o, s, key, action, rounds) == Prepared(o, s, key, action, 1)
  {
    hide Low, Pow2, LiveCount, Started, Next, Split, H2;
    PlainIsReady(o, s, key, action);
    var b := Route(s, Hash(o, key));
    if action == Insert && MustSplit(s, b) { OneRound(o, s, b); }
  }

  lemma RoundsDoNotMatter<El>(o: Ops<El>, s: State<El>, op: D.Op<El>, rounds: nat)
    requires Plain(o, s, op.key, D.ActionOf(op)) && Ready(o, s, op.key, D.ActionOf(op), rounds)
    ensures Ready(o, s, op.key, D.ActionOf(op), 1) && Apply(o, s, op, rounds) == Apply(o, s, op, 1)
  {
    hide Prepared, Plain, Ready, D.Position;
    RoundsAreOne(o, s, op.key, D.ActionOf(op), rounds);
  }

  /** A split without H1 or without H2 breaks the directory, and the operation does not mend it. */
  lemma BadSplitBreaks<El>(o: Ops<El>, s: State<El>, op: D.Op<El>, rounds: nat)
    requires Strong(o, s) && Ready(o, s, op.key, D.ActionOf(op), rounds) && !Plain(o, s, op.key, D.ActionOf(op))
    ensures !Strong(o, Apply(o, s, op, rounds).0)
  {
    BadPreparation(o, s, op.key, D.ActionOf(op), rounds);
    hide Prepared, Plain, Ready, Weak, DirOk, Apply, BinAfter, D.Position, Routed;
    var p := Prepared(o, s, op.key, D.ActionOf(op), rounds);
    var b := Route(p, Hash(o, op.key));
    ApplyChanges(o, s, op, rounds);
    BinAfterSame(o, p.bins[b], op);
    DirOkSame(p, b, BinAfter(o, p.bins[b], op), Apply(o, s, op, rounds).0.num);
  }

  lemma BadPreparation<El>(o: Ops<El>, s: State<El>, key: El, action: Action, rounds: nat)
    requires Strong(o, s) && Ready(o, s, key, action, rounds) && !Plain(o, s, key, action)
    ensures !DirOk(Prepared(o, s, key, action, rounds))
  {
    hide Low, Pow2, LiveCount, DirOk, Routed, Started, Split, ExitsIn, H1, H2, Sane, BinOk, Strong;
    var b := Route(s, Hash(o, key));
    WeakBin(o, s, b);
    StrongIffH1H2(o, s, b, rounds);
  }

  /** An operation keeps the invariant of extendible hashing if and only if it splits no bin, or splits one
      that meets H1 and H2. */
  lemma StrongIffPlain<El(!new)>(o: Ops<El>, s: State<El>, op: D.Op<El>, rounds: nat)
    requires Lawful(o) && Strong(o, s) && D.OpOk(o, op) && Ready(o, s, op.key, D.ActionOf(op), rounds)
    ensures Strong(o, Apply(o, s, op, rounds).0) <==> Plain(o, s, op.key, D.ActionOf(op))
  {
    hide Strong, Plain, Ready, Apply, Contents;
    if Plain(o, s, op.key, D.ActionOf(op)) {
      RoundsDoNotMatter(o, s, op, rounds);
      ApplyIsSet(o, s, op);
    } else {
      BadSplitBreaks(o, s, op, rounds);
    }
  }

  // ---- Exactly when an operation is the set operation ----

  /** In a sound table no two elements are equal. */
  lemma OneEqual<El(!new)>(o: Ops<El>, s: State<El>, key: El, e: El, f: El)
    requires Lawful(o) && Sound(o, s) && e in Contents(s.bins) && f in Contents(s.bins)
    requires Eq(o, e, key) && Eq(o, f, key)
    ensures e == f
  {
    hide Sound, Contents, Lawful, Low, Pow2;
    var b := FromContents(s.bins, e);
    var c := FromContents(s.bins, f);
    OtherBin(o, s, key, b, e);
    OtherBin(o, s, key, c, f);
    BinIsDistinct(o, s, b);
    var x := s.bins[b];
    var i :| i in x.live && i < |x.els| && x.els[i] == e;
    var j :| j in x.live && j < |x.els| && x.els[j] == f;
    EqSym(o, f, key);
    EqTrans(o, e, key, f);
  }

  /** An insertion does not bring an element back into reach. */
  lemma ReachedBack<El(!new)>(o: Ops<El>, p: State<El>, b: nat, op: D.Op<El>, num: nat)
    requires Lawful(o) && D.OpOk(o, op) && b < |p.bins| && |p.dir| == Pow2(p.maxDepth) && Route(p, Hash(o, op.key)) == b
    requires op.InsertOp? || op.ReplaceOp?
    requires Reached(o, p.(bins := p.bins[b := BinAfter(o, p.bins[b], op)], num := num))
    ensures Reached(o, p)
  {
    hide Lawful, Pow2, Low, BinAfter;
    var x := p.bins[b];
    var y := BinAfter(o, x, op);
    var r := p.(bins := p.bins[b := y], num := num);
    forall c | 0 <= c < |p.bins| ensures BinReached(o, p, c) {
      assert BinReached(o, r, c) && r.bins[c] == if c == b then y else p.bins[c];
      forall i | i in p.bins[c].live && i < |p.bins[c].els| ensures Route(p, Hash(o, p.bins[c].els[i])) == c {
        if c == b { StillThere(o, x, op, i); }
        assert Route(r, Hash(o, r.bins[c].els[i])) == c;
      }
    }
  }

  lemma StillThere<El(!new)>(o: Ops<El>, x: XBin<El>, op: D.Op<El>, i: nat)
    requires Lawful(o) && D.OpOk(o, op) && (op.InsertOp? || op.ReplaceOp?) && i in x.live && i < |x.els|
    ensures
      var y := BinAfter(o, x, op);
      i in y.live && i < |y.els| && Hash(o, y.els[i]) == Hash(o, x.els[i])
  {
    hide D.Position, Lawful;
    var j := D.Position(o, x.els, x.live, op.key, 0);
    if j == i && op.ReplaceOp? {
      EqTrans(o, x.els[i], op.key, op.e);
      EqSym(o, x.els[i], op.e);
    }
  }

  /** An insertion into a table that has lost an element is not the set operation: either the element is still
      missing, or its return is answered as if it were new. */
  lemma LostStays<El(!new)>(o: Ops<El>, s: State<El>, op: D.Op<El>, rounds: nat, e: El)
    requires Lawful(o) && Sound(o, s) && D.OpOk(o, op) && Ready(o, s, op.key, D.ActionOf(op), rounds)
    requires op.InsertOp? || op.ReplaceOp?
    requires Contents(Prepared(o, s, op.key, D.ActionOf(op), rounds).bins) <= Contents(s.bins)
    requires e in Contents(s.bins) && e !in Contents(Prepared(o, s, op.key, D.ActionOf(op), rounds).bins)
    ensures var (r, reply) := Apply(o, s, op, rounds); (Contents(r.bins), reply) != SetApply(o, Contents(s.bins), op)
  {
    hide Sound, Contents, Lawful, Low, Pow2, Prepared, Ready, Apply, BinAfter, D.Position, BinSet, Weak;
    var p := Prepared(o, s, op.key, D.ActionOf(op), rounds);
    PreparedFacts(o, s, op.key, D.ActionOf(op), rounds);
    var b := Route(p, Hash(o, op.key));
    var x := p.bins[b];
    var i := D.Position(o, x.els, x.live, op.key, 0);
    ApplyChanges(o, s, op, rounds);
    if Eq(o, e, op.key) {
      if i < |x.els| {
        InBin(x, i);
        InContents(p.bins, b);
        OneEqual(o, s, op.key, e, x.els[i]);
      }
    } else {
      AddedOnly(o, p, b, op);
      EqSym(o, op.key, op.e);
      assert e !in Contents(Apply(o, s, op, rounds).0.bins);
      SetApplyIs(o, Contents(s.bins), op);
      assert e in SetApply(o, Contents(s.bins), op).0;
    }
  }

  lemma InBin<El>(x: XBin<El>, i: nat)
    requires i in x.live && i < |x.els|
    ensures x.els[i] in BinSet(x)
  {
  }

  lemma AddedOnly<El(!new)>(o: Ops<El>, p: State<El>, b: nat, op: D.Op<El>)
    requires b < |p.bins| && (op.InsertOp? || op.ReplaceOp?)
    ensures Contents(p.bins[b := BinAfter(o, p.bins[b], op)]) <= Contents(p.bins) + {op.e}
  {
    hide Contents, BinSet, BinAfter;
    var y := BinAfter(o, p.bins[b], op);
    assert BinSet(y) <= BinSet(p.bins[b]) + {op.e} by { BinAdded(o, p.bins[b], op); }
    forall e | e in Contents(p.bins[b := y]) ensures e in Contents(p.bins) + {op.e} {
      var c := FromContents(p.bins[b := y], e);
      InContents(p.bins, c);
    }
  }

  lemma BinAdded<El>(o: Ops<El>, x: XBin<El>, op: D.Op<El>)
    requires op.InsertOp? || op.ReplaceOp?
    ensures BinSet(BinAfter(o, x, op)) <= BinSet(x) + {op.e}
  {
    hide D.Position;
  }

  /** Making room by a split. */
  lemma SplitPrepared<El(!new)>(o: Ops<El>, s: State<El>, key: El, action: Action, rounds: nat)
    requires Lawful(o) && Sound(o, s) && Ready(o, s, key, action, rounds) && Splits(o, s, key, action)
    ensures
      var (b, p) := (Route(s, Hash(o, key)), Prepared(o, s, key, action, rounds));
      && Contents(p.bins) <= Contents(s.bins)
      && (Contents(p.bins) == Contents(s.bins) && Reached(o, p) <==> Harmless(o, s, b))
      && (Harmless(o, s, b) ==> Sound(o, p))
  {
    hide Low, Pow2, LiveCount, Started, Split, ExitsIn, Sane, BinOk, Contents, Harmless, Reached, LiveOf, DeadOf,
         Lawful;
    var b := Route(s, Hash(o, key));
    KeepsIffHarmless(o, s, b, rounds);
    SplitLoses(o, s, b, rounds);
    if Harmless(o, s, b) { HarmlessCount(o, s, b, rounds); }
    RoomyOk(o, s, Hash(o, key), rounds);
  }

  lemma HarmlessCount<El(!new)>(o: Ops<El>, s: State<El>, b: nat, k: nat)
    requires Lawful(o) && Sound(o, s) && b < |s.bins| && Sane(Started(s, b)) && ExitsIn(o, Started(s, b), k)
    requires Harmless(o, s, b)
    ensures LiveCount(Split(o, Started(s, b), k).bins) == s.num
  {
    hide Low, Pow2, LiveCount, Started, Split, ExitsIn, Sane, Contents, Reached, LiveOf, DeadOf, Lawful, Weak;
    HarmlessLeft(o, s, b, k);
    SplitCount(o, s, b, k);
  }

  /** From any sound table an operation is the set operation, and leaves every element in reach, if and only if
      it splits no bin or its split is harmless. */
  lemma SetIffHarmless<El(!new)>(o: Ops<El>, s: State<El>, op: D.Op<El>, rounds: nat)
    requires Lawful(o) && Sound(o, s) && D.OpOk(o, op) && Ready(o, s, op.key, D.ActionOf(op), rounds)
    ensures
      var (r, reply) := Apply(o, s, op, rounds);
      Sound(o, r) && (Contents(r.bins), reply) == SetApply(o, Contents(s.bins), op)
      <==> (Splits(o, s, op.key, D.ActionOf(op)) ==> Harmless(o, s, Route(s, Hash(o, op.key))))
  {
    hide Lawful, Sound, Contents, Apply, SetApply, Ready, Harmless, Prepared, Splits, Low, Pow2;
    var b := RouteOf(o, s, op.key);
    if !Splits(o, s, op.key, D.ActionOf(op)) {
      ApplyWithoutSplit(o, s, op, rounds);
    } else {
      SplitPrepared(o, s, op.key, D.ActionOf(op), rounds);
      if Harmless(o, s, b) {
        ApplyPrepared(o, s, op, rounds);
      } else {
        HarmIsDone(o, s, op, rounds);
      }
    }
  }

  lemma HarmIsDone<El(!new)>(o: Ops<El>, s: State<El>, op: D.Op<El>, rounds: nat)
    requires Lawful(o) && Sound(o, s) && D.OpOk(o, op) && Ready(o, s, op.key, D.ActionOf(op), rounds)
    requires Splits(o, s, op.key, D.ActionOf(op)) && !Harmless(o, s, Route(s, Hash(o, op.key)))
    ensures
      var (r, reply) := Apply(o, s, op, rounds);
      !(Sound(o, r) && (Contents(r.bins), reply) == SetApply(o, Contents(s.bins), op))
  {
    hide Lawful, Contents, Apply, SetApply, Ready, Harmless, Prepared, Splits, Low, Pow2, Weak, BinAfter, Reached,
         LiveCount;
    SplitsInserts(o, s, op);
    SplitPrepared(o, s, op.key, D.ActionOf(op), rounds);
    var p := Prepared(o, s, op.key, D.ActionOf(op), rounds);
    if Contents(p.bins) == Contents(s.bins) {
      PreparedFacts(o, s, op.key, D.ActionOf(op), rounds);
      ApplyChanges(o, s, op, rounds);
      var r := Apply(o, s, op, rounds).0;
      if Reached(o, r) { ReachedBack(o, p, Route(p, Hash(o, op.key)), op, r.num); }
    } else {
      var e :| e in Contents(s.bins) && e !in Contents(p.bins);
      LostStays(o, s, op, rounds, e);
    }
  }

  lemma SplitsInserts<El>(o: Ops<El>, s: State<El>, op: D.Op<El>)
    requires Splits(o, s, op.key, D.ActionOf(op))
    ensures op.InsertOp? || op.ReplaceOp?
  {
  }

  // ---- Runs ----

  /** A run all of whose splits end, operation `i` in `rounds[i]` rounds.  That the table is well formed at every
      step asks for nothing more: every operation keeps it so. */
  ghost predicate Ends<El(!new)>(o: Ops<El>, s: State<El>, ops: seq<D.Op<El>>, rounds: seq<nat>)
    decreases |ops|
  {
    |rounds| == |ops| &&
    (ops == [] ||
     (D.OpOk(o, ops[0]) && Ready(o, s, ops[0].key, D.ActionOf(ops[0]), rounds[0]) &&
      Ends(o, Apply(o, s, ops[0], rounds[0]).0, ops[1..], rounds[1..])))
  }

  /** The final table and the replies of such a run. */
  ghost function RunOf<El(!new)>(o: Ops<El>, s: State<El>, ops: seq<D.Op<El>>, rounds: seq<nat>)
    : (State<El>, seq<D.Reply<El>>)
    requires Ends(o, s, ops, rounds)
    decreases |ops|
  {
    if ops == [] then (s, []) else
      var (s1, r) := Apply(o, s, ops[0], rounds[0]);
      var (s2, rs) := RunOf(o, s1, ops[1..], rounds[1..]);
      (s2, [r] + rs)
  }

  /** Every operation of the run is the set operation, and every element can be found before and after it. */
  ghost predicate StaysSet<El(!new)>(o: Ops<El>, s: State<El>, ops: seq<D.Op<El>>, rounds: seq<nat>)
    requires Ends(o, s, ops, rounds)
    decreases |ops|
  {
    Sound(o, s) &&
    (ops == [] ||
     (var (t, reply) := Apply(o, s, ops[0], rounds[0]);
      (Contents(t.bins), reply) == SetApply(o, Contents(s.bins), ops[0]) && StaysSet(o, t, ops[1..], rounds[1..])))
  }

  /** Every split of the run is harmless. */
  ghost predicate HarmlessSplits<El(!new)>(o: Ops<El>, s: State<El>, ops: seq<D.Op<El>>, rounds: seq<nat>)
    requires Ends(o, s, ops, rounds)
    decreases |ops|
  {
    ops == [] ||
    ((Splits(o, s, ops[0].key, D.ActionOf(ops[0])) ==> Harmless(o, s, Route(s, Hash(o, ops[0].key)))) &&
     HarmlessSplits(o, Apply(o, s, ops[0], rounds[0]).0, ops[1..], rounds[1..]))
  }

  /** Every split of the run meets H1 and H2. */
  ghost predicate PlainSplits<El(!new)>(o: Ops<El>, s: State<El>, ops: seq<D.Op<El>>, rounds: seq<nat>)
    requires Ends(o, s, ops, rounds)
    decreases |ops|
  {
    ops == [] ||
    (Plain(o, s, ops[0].key, D.ActionOf(ops[0])) &&
     PlainSplits(o, Apply(o, s, ops[0], rounds[0]).0, ops[1..], rounds[1..]))
  }

  /** The invariant holds before and after every operation of the run. */
  ghost predicate StaysStrong<El(!new)>(o: Ops<El>, s: State<El>, ops: seq<D.Op<El>>, rounds: seq<nat>)
    requires Ends(o, s, ops, rounds)
    decreases |ops|
  {
    Strong(o, s) && (ops == [] || StaysStrong(o, Apply(o, s, ops[0], rounds[0]).0, ops[1..], rounds[1..]))
  }

  /** Over every run whose splits end, from a sound table: it is a run of the set in which every element can
      always be found if and only if every split is harmless. */
  lemma {:induction false} StaysSetIffHarmless<El(!new)>(o: Ops<El>, s: State<El>, ops: seq<D.Op<El>>, rounds: seq<nat>)
    requires Lawful(o) && Sound(o, s) && Ends(o, s, ops, rounds)
    ensures StaysSet(o, s, ops, rounds) <==> HarmlessSplits(o, s, ops, rounds)
    decreases |ops|
  {
    hide Sound, Harmless, Ready, Apply, Splits, SetApply, Contents, Lawful;
    if ops != [] {
      SetIffHarmless(o, s, ops[0], rounds[0]);
      var t := Apply(o, s, ops[0], rounds[0]).0;
      if Sound(o, t) {
        StaysSetIffHarmless(o, t, ops[1..], rounds[1..]);
      } else {
        NotSoundAfter(o, t, ops[1..], rounds[1..]);
      }
    }
  }

  lemma NotSoundAfter<El(!new)>(o: Ops<El>, s: State<El>, ops: seq<D.Op<El>>, rounds: seq<nat>)
    requires Ends(o, s, ops, rounds) && !Sound(o, s)
    ensures !StaysSet(o, s, ops, rounds)
  {
  }

  /** A run of the set gives its replies and ends with its elements. */
  lemma {:induction false} StaysSetRuns<El(!new)>(o: Ops<El>, s: State<El>, ops: seq<D.Op<El>>, rounds: seq<nat>)
    requires Ends(o, s, ops, rounds) && StaysSet(o, s, ops, rounds)
    ensures Sound(o, RunOf(o, s, ops, rounds).0)
    ensures var (r, rs) := RunOf(o, s, ops, rounds); (Contents(r.bins), rs) == SetRun(o, Contents(s.bins), ops)
    decreases |ops|
  {
    hide Sound, Ready, Apply, SetApply, Contents;
    if ops != [] { StaysSetRuns(o, Apply(o, s, ops[0], rounds[0]).0, ops[1..], rounds[1..]); }
  }

  /** Over every run whose splits end, from a table with the invariant: it holds throughout if and only if
      every split meets H1 and H2. */
  lemma {:induction false} StaysStrongIffPlain<El(!new)>(o: Ops<El>, s: State<El>, ops: seq<D.Op<El>>, rounds: seq<nat>)
    requires Lawful(o) && Strong(o, s) && Ends(o, s, ops, rounds)
    ensures StaysStrong(o, s, ops, rounds) <==> PlainSplits(o, s, ops, rounds)
    decreases |ops|
  {
    hide Strong, Plain, Ready, Apply;
    if ops != [] {
      StrongIffPlain(o, s, ops[0], rounds[0]);
      var t := Apply(o, s, ops[0], rounds[0]).0;
      if Strong(o, t) {
        StaysStrongIffPlain(o, t, ops[1..], rounds[1..]);
      } else {
        NotStrongAfter(o, t, ops[1..], rounds[1..]);
      }
    }
  }

  lemma NotStrongAfter<El(!new)>(o: Ops<El>, s: State<El>, ops: seq<D.Op<El>>, rounds: seq<nat>)
    requires Ends(o, s, ops, rounds) && !Strong(o, s)
    ensures !StaysStrong(o, s, ops, rounds)
  {
  }

  /** Over every run whose splits meet H1 and H2, from a table with the invariant: it is a run of the set, and
      the invariant is kept. */
  lemma {:induction false} RunIsSet<El(!new)>(o: Ops<El>, s: State<El>, ops: seq<D.Op<El>>, rounds: seq<nat>)
    requires Lawful(o) && Strong(o, s) && Ends(o, s, ops, rounds) && PlainSplits(o, s, ops, rounds)
    ensures StaysSet(o, s, ops, rounds) && Strong(o, RunOf(o, s, ops, rounds).0)
    decreases |ops|
  {
    hide Strong, Plain, Ready, Apply, Sound, SetApply, Contents;
    StrongIsSound(o, s);
    if ops != [] {
      RoundsDoNotMatter(o, s, ops[0], rounds[0]);
      ApplyIsSet(o, s, ops[0]);
      RunIsSet(o, Apply(o, s, ops[0], rounds[0]).0, ops[1..], rounds[1..]);
    }
  }

  lemma RunHead<El(!new)>(o: Ops<El>, s: State<El>, ops: seq<D.Op<El>>, rounds: seq<nat>)
    requires ops != [] && Ends(o, s, ops, rounds)
    ensures D.OpOk(o, ops[0]) && |rounds| == |ops| && Ready(o, s, ops[0].key, D.ActionOf(ops[0]), rounds[0])
    ensures
      var (s1, r) := Apply(o, s, ops[0], rounds[0]);
      && Ends(o, s1, ops[1..], rounds[1..])
      && RunOf(o, s, ops, rounds)
         == (RunOf(o, s1, ops[1..], rounds[1..]).0, [r] + RunOf(o, s1, ops[1..], rounds[1..]).1)
  {
    hide Apply, Ready;
  }

  lemma RunEnd<El(!new)>(o: Ops<El>, s: State<El>)
    ensures Ends(o, s, [], []) && RunOf(o, s, [], []) == (s, [])
  {
  }

  /** A run, and the same run of the set, extended at its end. */
  lemma {:induction false} RunSnoc<El(!new)>(
    o: Ops<El>, s: State<El>, ops: seq<D.Op<El>>, rounds: seq<nat>, op: D.Op<El>, r: nat)
    requires Ends(o, s, ops, rounds) && D.OpOk(o, op)
    requires Ready(o, RunOf(o, s, ops, rounds).0, op.key, D.ActionOf(op), r)
    ensures Ends(o, s, ops + [op], rounds + [r])
    ensures
      var ((t, rs), (u, reply)) := (RunOf(o, s, ops, rounds), Apply(o, RunOf(o, s, ops, rounds).0, op, r));
      RunOf(o, s, ops + [op], rounds + [r]) == (u, rs + [reply])
    decreases |ops|
  {
    hide Apply, Ready;
    if ops == [] {
      assert ops + [op] == [op] && (rounds + [r])[0] == r && [op][1..] == [] && (rounds + [r])[1..] == [];
      var reply := Apply(o, s, op, r).1;
      assert [reply] + [] == [] + [reply];
    } else {
      var (s1, first) := Apply(o, s, ops[0], rounds[0]);
      RunSnoc(o, s1, ops[1..], rounds[1..], op, r);
      assert (ops + [op])[1..] == ops[1..] + [op] && (rounds + [r])[1..] == rounds[1..] + [r];
      var (t, rs) := RunOf(o, s1, ops[1..], rounds[1..]);
      var reply := Apply(o, t, op, r).1;
      assert [first] + (rs + [reply]) == [first] + rs + [reply];
    }
  }

  lemma {:induction false} SetSnoc<El(!new)>(o: Ops<El>, c: set<El>, ops: seq<D.Op<El>>, op: D.Op<El>)
    ensures
      var ((d, rs), (e, reply)) := (SetRun(o, c, ops), SetApply(o, SetRun(o, c, ops).0, op));
      SetRun(o, c, ops + [op]) == (e, rs + [reply])
    decreases |ops|
  {
    hide SetApply;
    if ops == [] {
      assert ops + [op] == [op] && [op][1..] == [];
      var reply := SetApply(o, c, op).1;
      assert [reply] + [] == [] + [reply];
    } else {
      var (d, first) := SetApply(o, c, ops[0]);
      SetSnoc(o, d, ops[1..], op);
      assert (ops + [op])[1..] == ops[1..] + [op];
      var (e, rs) := SetRun(o, d, ops[1..]);
      var reply := SetApply(o, e, op).1;
      assert [first] + (rs + [reply]) == [first] + rs + [reply];
    }
  }
}
