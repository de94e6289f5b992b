/** ixhtab: a directory of bins that are compacted, grown or split when they are full. */
module Ixhtab {
  import opened BitMath
  import opened Bins
  import Bitmap
  import D = Dense
  import opened Directory
  import opened Distribution
  import opened Extendible
  import opened Keys
  import opened Probe
  import I = IxIteration
  import M = IxRoom
  import R = IxRuns
  import X = IxExact
  import Swar

  const WIDTH: nat := 0x1_0000

  /** Bin `x`, with the depth and mask that the table keeps for it, is `v`, and its first `n` elements have
      been written. */
  ghost predicate Matches<El(0,!new)>(x: Bin<El>, v: XBin<El>, o: Ops<El>, p: Swar.Platform, n: nat)
    reads x, x.Repr
  {
    && x.o == o && x.version == Current && x.platform == p && x.width == WIDTH
    && x.Core() && x.Written(n) && x.BitmapOk()
    && v.cap == 4 * (x.mask + 1) && v.els == x.ix.els && v.live == x.ix.at.Keys
  }

  ghost predicate Disjoint(parts: seq<set<object>>) {
    forall i, j :: 0 <= i < |parts| && 0 <= j < |parts| && i != j ==> parts[i] !! parts[j]
  }

  class Table<El(0,!new)> {
    const o: Ops<El>
    const platform: Swar.Platform
    var num: nat
    var maxDepth: nat
    var binMask: nat
    var dir: seq<nat>
    var bins: seq<Bin<El>>
    var depths: seq<nat> // the fields `depth` and `mask` of the bins
    var masks: seq<nat>
    ghost var st: State<El>
    ghost var parts: seq<set<object>> // the objects of each bin
    ghost var Repr: set<object>

    /** The bins do not overlap. */
    ghost predicate Apart()
      reads this, Repr
    {
      && this !in Repr && |parts| == |bins| && Disjoint(parts)
      && (forall i :: 0 <= i < |bins| ==> bins[i] in parts[i] && parts[i] <= Repr && bins[i].Repr == parts[i])
    }

    /** The plain fields are those of `s`. */
    ghost predicate FieldsOf(s: State<El>)
      reads this
    {
      && num == s.num && maxDepth == s.maxDepth && dir == s.dir && binMask + 1 == Pow2(maxDepth)
      && |bins| == |depths| == |masks| == |s.bins|
      && (forall i :: 0 <= i < |bins| ==> s.bins[i].depth == depths[i] && s.bins[i].mask == masks[i])
    }

    ghost predicate Fields()
      reads this
    {
      FieldsOf(st)
    }

    /** The invariant when the first `n` elements of bin `b` have been written. */
    ghost predicate ValidBut(b: nat, n: nat)
      reads this, Repr
    {
      && Apart() && Fields() && Lawful(o) && Weak(o, st)
      && forall i :: 0 <= i < |bins| ==>
        Matches(bins[i], st.bins[i], o, platform, if i == b then n else |st.bins[i].els|)
    }

    ghost predicate Valid()
      reads this, Repr
    {
      && Apart() && Fields() && Lawful(o) && Weak(o, st)
      && forall i :: 0 <= i < |bins| ==> Matches(bins[i], st.bins[i], o, platform, |st.bins[i].els|)
    }

    /** All bins but `b` are as the ghost state says. */
    ghost predicate Rest(b: nat)
      reads this, Repr
    {
      && Apart() && |bins| == |st.bins|
      && forall i :: 0 <= i < |bins| && i != b ==> Matches(bins[i], st.bins[i], o, platform, |st.bins[i].els|)
    }

    /** `ixht_do_1` on bin `b`. */
    method DoBin(b: nat, key: El, action: Action) returns (found: bool, res: nat, ghost y: XBin<El>)
      requires Valid() && b < |bins|
      requires action == Insert ==> |st.bins[b].els| < st.bins[b].cap
      modifies bins[b].Repr
      ensures Rest(b) && y == st.bins[b].(els := y.els, live := y.live)
      ensures Matches(bins[b], y, o, platform, if !found && action == Insert then res else |y.els|)
      ensures Changed(o, st.bins[b], y, key, action, found, res)
    {
      hide Weak, Pow2, Lawful, Absent, Bin.Core, Bin.Written, Bin.BitmapOk;
      var x := bins[b];
      x.Sizes();
      BinFacts(o, st, b);
      found, res := x.Do1(key, action);
      x.Sizes();
      y := st.bins[b].(els := x.ix.els, live := x.ix.at.Keys);
    }

    /** The same with the element count. */
    method ActOn(b: nat, key: El, action: Action) returns (found: bool, res: nat)
      requires Valid() && b < |bins|
      requires action == Insert ==> |st.bins[b].els| < st.bins[b].cap
      modifies this`num, this`st, bins[b].Repr
      ensures (st, found, res) == Acted(o, old(st), b, key, action)
      ensures ValidBut(b, if !found && action == Insert then res else |st.bins[b].els|)
    {
      hide Weak, Acted, Pow2, Lawful, Matches, Changed;
      ghost var y;
      found, res, y := DoBin(b, key, action);
      EffectIsActed(o, st, b, y, key, action, found, res);
      if found {
        if action == Delete {
          num := num - 1;
        }
      } else if action == Insert {
        num := num + 1;
      }
      st := st.(bins := st.bins[b := y], num := num);
    }

    // ---- Splitting ----

    /** The bins while bin `b` is split: its bitmap and that of its partner `n` mark `deadB` and `deadN`. */
    ghost predicate Torn(b: nat, n: nat, deadB: set<nat>, deadN: set<nat>)
      reads this, Repr
    {
      && Apart() && |bins| == |st.bins| && b < |bins| && n < |bins| && b != n
      && Loose(bins[b], st.bins[b], o, platform, deadB) && Loose(bins[n], st.bins[n], o, platform, deadN)
      && forall i :: 0 <= i < |bins| && i != b && i != n ==> Matches(bins[i], st.bins[i], o, platform, |st.bins[i].els|)
    }

    /** The distribution of one round. */
    method TearBins(b: nat, n: nat, k: nat, ghost w: Work<El>) returns (oldAdded: bool, newAdded: bool)
      requires w == Work(st, b, n, w.deadB, w.deadN) && Torn(b, n, w.deadB, w.deadN)
      requires WorkOk(o, w) && k == st.bins[b].depth
      modifies bins[b].Repr, bins[n].Repr
      ensures Apart()
      ensures Loose(bins[b], OldBin(o, w), o, platform, w.deadB) && Loose(bins[n], NewBin(o, w), o, platform, w.deadN)
      ensures forall i :: 0 <= i < |bins| && i != b && i != n ==>
        Matches(bins[i], st.bins[i], o, platform, |st.bins[i].els|)
      ensures oldAdded == (OldBin(o, w).els != []) && newAdded == (NewBin(o, w).els != [])
    {
      hide Weak, Pow2, Kept, Side, Distinct, D.Upto, Bitmap.Dead, Bin.Core, Bin.Written;
      BinFacts(o, st, b);
      NewIsEmpty(o, w);
      bins[b].Sizes();
      bins[n].Sizes();
      oldAdded, newAdded := SplitPair(bins[b], bins[n], k, st.bins[b], st.bins[n], w.deadB, w.deadN);
      bins[b].Sizes();
      bins[n].Sizes();
    }

    /** The depths, masks and directory of one round of `ixht_split_bin`. */
    method SplitFields(b: nat, n: nat, ghost w: Work<El>)
      requires w == Work(st, b, n, w.deadB, w.deadN) && Fields() && Sane(w)
      modifies this`maxDepth, this`binMask, this`dir, this`depths, this`masks
      ensures FieldsOf(Round(o, w))
    {
      hide Pow2, OldBin, NewBin, Or, Round;
      var k := depths[b];
      OrBit(masks[b], k);
      RoundFields(o, w);
      depths := depths[b := k + 1][n := k + 1];
      if k + 1 > maxDepth {
        maxDepth := k + 1;
        binMask := Pow2(maxDepth) - 1;
        dir := Doubled(dir);
      }
      masks := masks[n := Or(masks[b], Pow2(k))];
      dir := dir[masks[n] := n];
    }

    /** One round of `ixht_split_bin`. */
    method SplitRound(b: nat, n: nat, ghost w: Work<El>) returns (oldAdded: bool, newAdded: bool)
      requires w == Work(st, b, n, w.deadB, w.deadN) && Torn(b, n, w.deadB, w.deadN) && Fields()
      requires WorkOk(o, w) && Sane(w)
      modifies this`maxDepth, this`binMask, this`dir, this`depths, this`masks, this`st, bins[b].Repr, bins[n].Repr
      ensures st == Round(o, w) && Torn(b, n, w.deadB, w.deadN) && Fields()
      ensures oldAdded == (OldBin(o, w).els != []) && newAdded == (NewBin(o, w).els != [])
    {
      hide WorkOk, OldBin, NewBin, Loose, Matches, Sane, Pow2;
      var k := Depth(b);
      SplitFields(b, n, w);
      oldAdded, newAdded := TearBins(b, n, k, w);
      RoundFields(o, w);
      st := Round(o, w);
    }

    // ---- Making room ----

    /** `ixht_create_bin` at a split: an empty bin of the same size, not yet in the directory. */
    method CreateBin(b: nat)
      requires Valid() && b < |bins|
      modifies this`bins, this`depths, this`masks, this`st, this`parts, this`Repr
      ensures st == Started(old(st), b).s && |bins| == |old(bins)| + 1 && old(bins) == bins[..|bins| - 1]
      ensures Torn(b, |bins| - 1, Started(old(st), b).deadB, {}) && Fields() && fresh(Repr - old(Repr))
    {
      hide Weak, Pow2, Bin.Core, Bin.Written, Bin.BitmapOk, D.Upto, Loose, IsPow2;
      bins[b].Sizes();
      MatchesIsLoose(bins[b], st.bins[b], o, platform);
      var size := 4 * (bins[b].mask + 1);
      var y := new Bin<El>(o, Current, platform, WIDTH, 2 * size / 8);
      NewIsLoose(y);
      y.Sizes();
      ghost var s := Started(st, b).s;
      AddBin(y, s);
    }

    /** Bin `y` appended to the array of bins. */
    method AddBin(y: Bin<El>, ghost s: State<El>)
      requires Apart() && Fields() && y in y.Repr && y.Repr !! Repr && this !in y.Repr
      requires |s.bins| == |st.bins| + 1 && s == st.(bins := st.bins + [s.bins[|st.bins|]])
      requires s.bins[|st.bins|].depth == 0 && s.bins[|st.bins|].mask == 0
      modifies this`bins, this`depths, this`masks, this`st, this`parts, this`Repr
      ensures Apart() && Fields() && st == s && bins == old(bins) + [y] && Repr == old(Repr) + y.Repr
    {
      hide Pow2;
      bins := bins + [y];
      depths, masks := depths + [0], masks + [0];
      parts := parts + [y.Repr];
      Repr := Repr + y.Repr;
      st := s;
    }

    /** A round and the decision whether the loop goes on, and with which bin. */
    method SplitOnce(b: nat, n: nat, ghost w: Work<El>) returns (b': nat, n': nat, done: bool)
      requires w == Work(st, b, n, w.deadB, w.deadN) && Torn(b, n, w.deadB, w.deadN) && Fields()
      requires WorkOk(o, w) && Sane(w)
      modifies this`maxDepth, this`binMask, this`dir, this`depths, this`masks, this`st, bins[b].Repr, bins[n].Repr
      ensures done == Exits(o, w) && Fields() && ((b' == b && n' == n) || (b' == n && n' == b))
      ensures done ==> b' == b && n' == n && st == Round(o, w) && Torn(b, n, w.deadB, w.deadN)
      ensures !done ==>
        var x := Next(o, w);
        x == Work(st, b', n', x.deadB, x.deadN) && Torn(b', n', x.deadB, x.deadN) && WorkOk(o, x)
    {
      hide WorkOk, OldBin, NewBin, Loose, Matches, FieldsOf, Round;
      if !Exits(o, w) { NextOk(o, w); }
      var oldAdded, newAdded := SplitRound(b, n, w);
      b', n', done := b, n, false;
      if !oldAdded {
        b', n' := n, b;
      } else if newAdded {
        done := true;
      }
    }

    /** Both bitmaps cleared: the bins are whole again. */
    method Mend(b: nat, n: nat, ghost deadB: set<nat>, ghost deadN: set<nat>)
      requires Torn(b, n, deadB, deadN) && Fields() && Lawful(o) && Weak(o, st)
      requires st.bins[b].live == D.Upto(|st.bins[b].els|) && st.bins[n].live == D.Upto(|st.bins[n].els|)
      modifies bins[b].deleted, bins[n].deleted
      ensures Valid()
    {
      hide Weak, Pow2, D.Upto, Loose, Matches, Lawful, Inv;
      ClearBitmap(b, n, deadB, deadN);
      SwapTorn(b, n, {}, deadN);
      ClearBitmap(n, b, deadN, {});
      LooseIsMatches(bins[b], st.bins[b], o, platform);
      LooseIsMatches(bins[n], st.bins[n], o, platform);
    }

    lemma SwapTorn(b: nat, n: nat, deadB: set<nat>, deadN: set<nat>)
      requires Torn(b, n, deadB, deadN)
      ensures Torn(n, b, deadN, deadB)
    {
    }

    method ClearBitmap(b: nat, n: nat, ghost deadB: set<nat>, ghost deadN: set<nat>)
      requires Torn(b, n, deadB, deadN)
      modifies bins[b].deleted
      ensures Torn(b, n, {}, deadN)
    {
      hide Inv, Used, IsPow2, Lawful, Bitmap.Dead;
      bins[b].Sizes();
      bins[n].Sizes();
      Bitmap.Clear(bins[b].deleted);
    }

    /** The loop of `ixht_split_bin`. */
    method SplitRounds(b0: nat, n0: nat, ghost w0: Work<El>, ghost rounds: nat)
      returns (b: nat, n: nat, ghost w: Work<El>)
      requires w0 == Work(st, b0, n0, w0.deadB, w0.deadN) && Torn(b0, n0, w0.deadB, w0.deadN) && Fields()
      requires WorkOk(o, w0) && Sane(w0) && ExitsIn(o, w0, rounds)
      modifies this`maxDepth, this`binMask, this`dir, this`depths, this`masks, this`st, bins[b0].Repr, bins[n0].Repr
      ensures (b == b0 && n == n0) || (b == n0 && n == b0)
      ensures st == Split(o, w0, rounds) && Torn(b, n, w.deadB, w.deadN) && Fields()
    {
      hide WorkOk, OldBin, NewBin, Loose, Matches, Round, Exits, Next, FieldsOf;
      ghost var k := rounds;
      w, b, n := w0, b0, n0;
      while true
        invariant (b == b0 && n == n0) || (b == n0 && n == b0)
        invariant w == Work(st, b, n, w.deadB, w.deadN) && Torn(b, n, w.deadB, w.deadN) && Fields()
        invariant WorkOk(o, w) && Sane(w) && ExitsIn(o, w, k) && Split(o, w, k) == Split(o, w0, rounds)
        invariant b0 < |bins| && n0 < |bins| && bins[b0].Repr == old(bins[b0].Repr)
        invariant bins[n0].Repr == old(bins[n0].Repr)
        decreases k
      {
        var done;
        ghost var was := w;
        b, n, done := SplitOnce(b, n, w);
        if done {
          break;
        }
        NextRounds(o, was, k);
        w, k := Next(o, was), k - 1;
      }
    }

    /** `ixht_split_bin`, for a bin whose split ends: after `rounds` rounds. */
    method SplitBin(bin: nat, ghost rounds: nat)
      requires Valid() && bin < |bins| && Sane(Started(st, bin)) && ExitsIn(o, Started(st, bin), rounds)
      modifies this, Repr
      ensures Valid() && st == Split(o, Started(old(st), bin), rounds) && fresh(Repr - old(Repr))
    {
      hide Weak, WorkOk, Loose, Matches, Split, ExitsIn, Pow2, D.Upto, Lawful, Sane;
      ghost var w := Started(st, bin);
      StartedOk(o, st, bin);
      SplitWeak(o, w, rounds);
      SplitLive(o, w, rounds);
      CreateBin(bin);
      var b, n;
      b, n, w := SplitRounds(bin, |bins| - 1, w, rounds);
      TornParts(b, n, w.deadB, w.deadN);
      Mend(b, n, w.deadB, w.deadN);
    }

    lemma TornParts(b: nat, n: nat, deadB: set<nat>, deadN: set<nat>)
      requires Torn(b, n, deadB, deadN)
      ensures bins[b].deleted in Repr && bins[n].deleted in Repr
    {
      hide Inv, Used, IsPow2, Lawful, Bitmap.Dead;
    }

    /** Bin `b` rebuilt in place, as the branch of `ixht_perform` that does not split does it. */
    method CompactPart(b: nat, groups: nat)
      requires Valid() && b < |bins| && IsPow2(groups) && groups > bins[b].mask
      modifies bins[b].Repr
      ensures Matches(bins[b], Compacted(st.bins[b], 4 * groups), o, platform, |Compacted(st.bins[b], 4 * groups).els|)
      ensures bins[b] in bins[b].Repr && fresh(bins[b].Repr - parts[b])
      ensures forall i :: 0 <= i < |bins| && i != b ==>
        bins[i].Repr == parts[i] && Matches(bins[i], st.bins[i], o, platform, |st.bins[i].els|)
    {
      hide Weak, Pow2, D.Survivors, D.Upto, IsPow2, Lawful, Bin.Core, Bin.Written, Bin.BitmapOk;
      BinFacts(o, st, b);
      bins[b].Sizes();
      bins[b].Compact(groups);
      bins[b].Sizes();
    }

    method CompactBin(b: nat, groups: nat)
      requires Valid() && b < |bins| && IsPow2(groups) && groups > bins[b].mask
      requires Weak(o, st.(bins := st.bins[b := Compacted(st.bins[b], 4 * groups)]))
      modifies this`st, this`parts, this`Repr, bins[b].Repr
      ensures Valid() && st == old(st).(bins := old(st).bins[b := Compacted(old(st).bins[b], 4 * groups)])
      ensures fresh(Repr - old(Repr))
    {
      hide Weak, Pow2, IsPow2, Lawful, Matches, Compacted;
      CompactedFields(st.bins[b], 4 * groups);
      CompactPart(b, groups);
      parts := parts[b := bins[b].Repr];
      Repr := Repr + bins[b].Repr;
      st := st.(bins := st.bins[b := Compacted(st.bins[b], 4 * groups)]);
    }

    /** Room for one more element: by splitting the full bin, or by rebuilding it in an array of the same or
        of twice the size. */
    method MakeRoom(b: nat, ghost rounds: nat) returns (split: bool)
      requires Valid() && b < |bins| && MustMakeRoom(st, b)
      requires MustSplit(st, b) ==> Sane(Started(st, b)) && ExitsIn(o, Started(st, b), rounds)
      modifies this, Repr
      ensures Valid() && st == Roomy(o, old(st), b, rounds) && split == old(MustSplit(st, b)) && fresh(Repr - old(Repr))
    {
      hide Weak, Pow2, IsPow2, Lawful, Compacted, Split, ExitsIn, Sane, Started, Bin.Core, Bin.Written, Bin.BitmapOk;
      bins[b].Sizes();
      var indexesSize := (bins[b].mask + 1) * 8;
      var elsSize := indexesSize / 2;
      var grow := false;
      if 2 * num >= indexesSize {
        indexesSize, elsSize, grow := 2 * indexesSize, 2 * elsSize, true;
        DoublePow2(bins[b].mask + 1);
      }
      split := grow && elsSize >= 0x8000;
      if split {
        SplitBin(b, rounds);
      } else {
        CompactedOk(o, st, b);
        CompactBin(b, indexesSize / 8);
      }
    }

    /** The directory entry of a hash. */
    method Lookup(h: nat) returns (b: nat)
      requires Fields() && Weak(o, st)
      ensures |st.dir| == Pow2(st.maxDepth) && b == Route(st, h) < |bins|
    {
      AndLowMask(h, maxDepth);
      b := dir[And(h, binMask)];
    }

    /** The bin of a key, with room in it if the key is to be inserted. */
    method Prepare(key: El, action: Action, ghost rounds: nat) returns (b: nat)
      requires Valid() && R.Ready(o, st, key, action, rounds)
      modifies this, Repr
      ensures Valid() && st == R.Prepared(o, old(st), key, action, rounds)
      ensures b == Route(st, Hash(o, key)) < |bins| && fresh(Repr - old(Repr))
    {
      hide Weak, Pow2, Lawful, Route, Roomy, MustSplit, ExitsIn, Sane, Started, Low;
      b := Lookup(Hash(o, key));
      if action == Insert {
        var full := IsFull(b);
        if full {
          RoomyRoute(o, st, key, rounds);
          var split := MakeRoom(b, rounds);
          if split {
            b := Lookup(Hash(o, key));
          }
        }
      }
    }

    /** `ixht_perform`.  `rounds` is the number of rounds of the split, if there is one.  After an insertion
        that found nothing the caller must write element `res` of bin `b`. */
    method Perform(key: El, action: Action, ghost rounds: nat) returns (found: bool, b: nat, res: nat)
      requires Valid() && R.Ready(o, st, key, action, rounds)
      modifies this, Repr
      ensures (st, found, b, res) == R.Performed(o, old(st), key, action, rounds)
      ensures b < |st.bins| && ValidBut(b, if !found && action == Insert then res else |st.bins[b].els|)
      ensures fresh(Repr - old(Repr))
    {
      hide Weak, Pow2, Lawful, R.Ready, R.Prepared, Matches;
      b := Prepare(key, action, rounds);
      found, res := ActOn(b, key, action);
    }

    method IsFull(b: nat) returns (full: bool)
      requires Valid() && b < |bins|
      ensures full == MustMakeRoom(st, b)
    {
      hide Weak, Lawful, Bin.Core, Bin.Written, Bin.BitmapOk, Pow2;
      bins[b].Sizes();
      full := bins[b].bound == (bins[b].mask + 1) * 8 / 2;
    }

    // ---- The caller's side ----

    /** The caller's write through the returned pointer: an element equal to the one stored there. */
    method Store(b: nat, i: nat, e: El)
      requires b < |st.bins| && i < |st.bins[b].els| && Eq(o, st.bins[b].els[i], e)
      requires ValidBut(b, |st.bins[b].els|) || (i + 1 == |st.bins[b].els| && ValidBut(b, i))
      modifies this`st, bins[b].Repr
      ensures Valid() && st == R.Stored(old(st), b, i, e)
    {
      hide Weak, Pow2, Lawful, Matches;
      R.StoredWeak(o, st, b, i, e);
      ghost var y := st.bins[b].(els := st.bins[b].els[i := e]);
      StorePart(b, i, e, y);
      st := R.Stored(st, b, i, e);
    }

    method StorePart(b: nat, i: nat, e: El, ghost y: XBin<El>)
      requires b < |st.bins| && i < |st.bins[b].els| && Eq(o, st.bins[b].els[i], e)
      requires ValidBut(b, |st.bins[b].els|) || (i + 1 == |st.bins[b].els| && ValidBut(b, i))
      requires y == st.bins[b].(els := st.bins[b].els[i := e])
      modifies bins[b].Repr
      ensures Rest(b) && Matches(bins[b], y, o, platform, |y.els|)
    {
      hide Weak, Pow2, Lawful, Bin.Core, Bin.Written, Bin.BitmapOk, Bitmap.Dead;
      bins[b].Sizes();
      bins[b].Store(i, e);
      bins[b].Sizes();
    }

    /** The caller's read through the returned pointer. */
    method Load(b: nat, i: nat) returns (e: El)
      requires Valid() && b < |st.bins| && i < |st.bins[b].els|
      ensures e == st.bins[b].els[i]
    {
      hide Weak, Pow2, Lawful, Bin.BitmapOk;
      var x := bins[b];
      e := x.els[i];
      assert x.els[..x.bound][i] == e;
    }

    /** One operation of a caller, with the writes it owes the table. */
    method Apply(op: D.Op<El>, ghost rounds: nat) returns (reply: D.Reply<El>)
      requires Valid() && D.OpOk(o, op) && R.Ready(o, st, op.key, D.ActionOf(op), rounds)
      modifies this, Repr
      ensures Valid() && (st, reply) == R.Apply(o, old(st), op, rounds) && fresh(Repr - old(Repr))
    {
      hide Weak, Pow2, Lawful, R.Ready, R.Performed, Matches;
      R.PerformedRes(o, st, op.key, D.ActionOf(op), rounds);
      var found, b, res := Perform(op.key, D.ActionOf(op), rounds);
      reply := D.Miss;
      if found {
        var e := Load(b, res);
        reply := if op.DeleteOp? then D.Gone else D.Hit(e);
      }
      if op.ReplaceOp? || (op.InsertOp? && !found) {
        EqTrans(o, st.bins[b].els[res], op.key, op.e);
        Store(b, res, op.e);
      }
    }

    /** A whole program all of whose splits end.  From a sound table, and if every split is harmless, the
        replies and the elements are those of a set; if every split meets H1 and H2 the invariant is kept. */
    method Run(ops: seq<D.Op<El>>, ghost rounds: seq<nat>) returns (replies: seq<D.Reply<El>>)
      requires Valid() && X.Ends(o, st, ops, rounds)
      modifies this, Repr
      ensures Valid() && fresh(Repr - old(Repr)) && (st, replies) == X.RunOf(o, old(st), ops, rounds)
      ensures Sound(o, old(st)) && X.HarmlessSplits(o, old(st), ops, rounds) ==>
        Sound(o, st) && (R.Contents(st.bins), replies) == R.SetRun(o, R.Contents(old(st).bins), ops)
      ensures Strong(o, old(st)) && X.PlainSplits(o, old(st), ops, rounds) ==>
        Strong(o, st) && (R.Contents(st.bins), replies) == R.SetRun(o, R.Contents(old(st).bins), ops)
    {
      hide Weak, Strong, Sound, Lawful, Matches, R.Apply, X.RunOf, X.Ends, R.Ready, R.Contents, R.SetRun,
           X.HarmlessSplits, X.PlainSplits, X.StaysSet;
      RunMeans(o, st, ops, rounds);
      ghost var whole := X.RunOf(o, st, ops, rounds);
      ghost var (rest, turns) := (ops, rounds);
      replies := [];
      for n := 0 to |ops|
        invariant rest == ops[n..] && |turns| == |rest| && Valid() && fresh(Repr - old(Repr))
        invariant X.Ends(o, st, rest, turns)
        invariant whole.0 == X.RunOf(o, st, rest, turns).0 && whole.1 == replies + X.RunOf(o, st, rest, turns).1
      {
        X.RunHead(o, st, rest, turns);
        var r := Apply(ops[n], turns[0]);
        replies := replies + [r];
        rest, turns := rest[1..], turns[1..];
      }
      X.RunEnd(o, st);
      assert rest == [] && turns == [] && replies + [] == replies;
    }

    /** A whole program on a sound table that has fewer than 2^14 elements at every insertion: whatever the
        hashes, it ends, and the replies and the elements are those of a set. */
    method RunSmall(ops: seq<D.Op<El>>) returns (replies: seq<D.Reply<El>>)
      requires Valid() && Sound(o, st) && (forall i :: 0 <= i < |ops| ==> D.OpOk(o, ops[i]))
      requires M.Small(o, R.Contents(st.bins), ops)
      modifies this, Repr
      ensures Valid() && fresh(Repr - old(Repr))
      ensures Sound(o, st) && (R.Contents(st.bins), replies) == R.SetRun(o, R.Contents(old(st).bins), ops)
    {
      hide Weak, Sound, Lawful, Matches, X.RunOf, X.Ends, R.Contents, R.SetRun, X.StaysSet, M.Small, D.OpOk;
      ghost var rounds := seq(|ops|, i => 0);
      M.SmallRunIsSet(o, st, ops, rounds);
      X.StaysSetRuns(o, st, ops, rounds);
      replies := Run(ops, rounds);
    }

    /** `ixht_els_count`. */
    method Count() returns (n: nat)
      requires Valid()
      ensures n == st.num
      ensures Sound(o, st) ==> n == |R.Contents(st.bins)|
    {
      hide Weak, Sound, Lawful, Matches, R.Contents;
      if Sound(o, st) { M.SoundSize(o, st); }
      n := num;
    }

    // ---- Iteration ----

    /** `ixht_iter_advance`: the first live position from (b0, i0) on, or the end. */
    method Advance(b0: nat, i0: nat) returns (b: nat, i: nat)
      requires Valid() && b0 <= |bins| && (if b0 < |bins| then i0 <= |st.bins[b0].els| else i0 == 0)
      ensures b0 <= b <= |bins| == |st.bins|
      ensures if b < |bins| then i in st.bins[b].live && i < |st.bins[b].els| && (b == b0 ==> i0 <= i) else i == 0
      ensures I.Before(st.bins, b, i) == I.Before(st.bins, b0, i0)
    {
      hide Weak, Pow2, Lawful, I.Before, Matches;
      b, i := b0, i0;
      while b < |bins|
        invariant b0 <= b <= |bins| && (if b < |bins| then i <= |st.bins[b].els| && (b == b0 ==> i0 <= i) else i == 0)
        invariant I.Before(st.bins, b, i) == I.Before(st.bins, b0, i0)
      {
        var live;
        i, live := AdvanceIn(b, i);
        if live {
          return;
        }
        I.BeforeBin(st.bins, b);
        b, i := b + 1, 0;
      }
    }

    /** The inner loop: the first live position of bin `b` from `i0` on. */
    method AdvanceIn(b: nat, i0: nat) returns (i: nat, live: bool)
      requires Valid() && b < |bins| && i0 <= |st.bins[b].els|
      ensures i0 <= i <= |st.bins[b].els| && I.Before(st.bins, b, i) == I.Before(st.bins, b, i0)
      ensures if live then i < |st.bins[b].els| && i in st.bins[b].live else i == |st.bins[b].els|
    {
      hide Weak, Pow2, Lawful, I.Before, Bin.Core, Bin.Written, Bin.BitmapOk;
      bins[b].Sizes();
      i, live := i0, false;
      while i < bins[b].bound
        invariant i0 <= i <= |st.bins[b].els| && I.Before(st.bins, b, i) == I.Before(st.bins, b, i0)
      {
        var e;
        live, e := bins[b].Entry(i);
        if live {
          return;
        }
        I.BeforeNext(st.bins, b, i);
        i := i + 1;
      }
    }

    /** A whole iteration: `ixht_iter_begin`, then `ixht_iter_next` while the iterator is valid. */
    method Traverse() returns (l: seq<El>)
      requires Valid()
      ensures l == I.Listed(st.bins)
    {
      hide Weak, Pow2, Lawful, I.Before, Matches, I.Listed;
      l := [];
      var b, i := Advance(0, 0);
      I.BeforeStart(st.bins);
      while b < |bins|
        invariant b <= |bins| == |st.bins|
        invariant if b < |bins| then i in st.bins[b].live && i < |st.bins[b].els| else i == 0
        invariant l == I.Before(st.bins, b, i)
        decreases |bins| - b, if b < |bins| then |st.bins[b].els| - i else 0
      {
        var e := Load(b, i);
        l := l + [e];
        I.BeforeNext(st.bins, b, i);
        b, i := Advance(b, i + 1);
      }
      I.BeforeEnd(st.bins);
    }

    // ---- Creation ----

    /** `ixht_create`.  A hash of 0 stands for 1 throughout. */
    constructor (ops: Ops<El>, platform: Swar.Platform, minSize: nat)
      requires Lawful(ops)
      ensures o == NonZero(ops) && this.platform == platform
      ensures Valid() && fresh(Repr)
      ensures exists cap :: IsPow2(cap) && Sized(minSize, maxDepth, cap) && st == R.Created<El>(maxDepth, cap)
      ensures RoomFor(st.bins, minSize)
    {
      hide Weak, Lawful, Matches, Sized, Pow2, IsPow2, RoomFor;
      NonZeroLawful(ops);
      o, this.platform := NonZero(ops), platform;
      num, dir, bins, depths, masks := 0, [], [], [], [];
      var p, cap := Sizes(minSize);
      maxDepth, binMask := p, Pow2(p) - 1;
      st, parts, Repr := State(p, [], [], 0), [], {};
      new;
      SizedRoom<El>(minSize, p, cap);
      CreateBins(p, cap);
    }

    /** The bins that have been created. */
    ghost predicate Creating(i: nat, p: nat, cap: nat)
      reads this, Repr
    {
      && Apart() && |dir| == |bins| == |depths| == |masks| == i
      && (forall k :: 0 <= k < i ==> dir[k] == masks[k] == k && depths[k] == p)
      && (forall k :: 0 <= k < i ==> Matches(bins[k], XBin(p, k, cap, [], {}), o, platform, 0))
    }

    method CreateBins(p: nat, cap: nat)
      requires Lawful(o) && 8 <= cap <= MAX_CAP && IsPow2(cap) && Creating(0, p, cap)
      requires num == 0 && maxDepth == p && binMask + 1 == Pow2(p)
      modifies this`dir, this`bins, this`depths, this`masks, this`parts, this`Repr, this`st
      ensures Valid() && st == R.Created<El>(p, cap) && fresh(Repr - old(Repr))
    {
      hide Weak, Pow2, Lawful, Matches, IsPow2;
      var i := 0;
      while i < Pow2(p)
        invariant i <= Pow2(p) && Creating(i, p, cap) && fresh(Repr - old(Repr))
      {
        CreateNext(i, p, cap);
        i := i + 1;
      }
      st := R.Created<El>(p, cap);
      R.CreatedStrong(o, p, cap);
    }

    method CreateNext(i: nat, p: nat, cap: nat)
      requires Lawful(o) && 8 <= cap && IsPow2(cap) && Creating(i, p, cap)
      modifies this`dir, this`bins, this`depths, this`masks, this`parts, this`Repr
      ensures Creating(i + 1, p, cap) && fresh(Repr - old(Repr)) && Repr >= old(Repr)
    {
      hide Pow2, IsPow2, Lawful, Matches;
      GroupsPow2(cap);
      var y := new Bin<El>(o, Current, platform, WIDTH, 2 * cap / 8);
      NewMatches(y, p, i);
      y.Sizes();
      dir, bins, depths, masks := dir + [i], bins + [y], depths + [p], masks + [i];
      parts, Repr := parts + [y.Repr], Repr + y.Repr;
    }

    function Depth(b: nat): (d: nat)
      requires Fields() && b < |bins|
      reads this
      ensures d == st.bins[b].depth
    {
      depths[b]
    }
  }

  lemma NextRounds<El>(o: Ops<El>, w: Work<El>, k: nat)
    requires Sane(w) && ExitsIn(o, w, k) && !Exits(o, w)
    ensures k > 1 && ExitsIn(o, Next(o, w), k - 1) && Split(o, w, k) == Split(o, Next(o, w), k - 1)
  {
  }

  lemma CompactedFields<El>(x: XBin<El>, cap: nat)
    ensures Compacted(x, cap).depth == x.depth && Compacted(x, cap).mask == x.mask
  {
  }

  /** Compaction does not change the route. */
  lemma RoomyRoute<El>(o: Ops<El>, s: State<El>, key: El, rounds: nat)
    requires R.Ready(o, s, key, Insert, rounds) && MustMakeRoom(s, Route(s, Hash(o, key)))
    ensures var b := Route(s, Hash(o, key));
      !MustSplit(s, b) ==> var r := Roomy(o, s, b, rounds);
        |r.dir| == Pow2(r.maxDepth) && Route(r, Hash(o, key)) == b
  {
  }

  // ---- Sizes ----

  /** Room for `minSize` elements in 2^p bins of capacity `cap`: several bins only if one would be too large,
      and no more of them than needed. */
  predicate Sized(minSize: nat, p: nat, cap: nat) {
    && 8 <= cap <= MAX_CAP && minSize <= Pow2(p) * cap
    && (p > 0 ==> cap == MAX_CAP && Pow2(p - 1) * MAX_CAP < minSize)
    && (p == 0 && cap > 8 ==> cap < 2 * minSize)
  }

  /** The bins have room for `minSize` elements together: each for 2^14 if there are several, and for no more than
      twice as many as asked for, or eight. */
  predicate RoomFor<El>(bins: seq<XBin<El>>, minSize: nat) {
    && minSize <= M.Capacity(bins) && (M.Capacity(bins) > 8 ==> M.Capacity(bins) < 2 * minSize)
    && (forall b :: 0 <= b < |bins| ==> |bins| * bins[b].cap == M.Capacity(bins))
    && (|bins| > 1 ==> M.Capacity(bins) == |bins| * MAX_CAP)
  }

  lemma SizedRoom<El>(minSize: nat, p: nat, cap: nat)
    requires Sized(minSize, p, cap)
    ensures RoomFor(R.Created<El>(p, cap).bins, minSize)
  {
    M.CreatedCapacity<El>(p, cap);
    if p > 0 {
      assert Pow2(p) * MAX_CAP == 2 * (Pow2(p - 1) * MAX_CAP);
    }
    hide Pow2, M.Capacity;
    var bins := R.Created<El>(p, cap).bins;
    assert |bins| == Pow2(p);
  }

  /** The sizes of a new table: the loop of `ixht_create`, `ixht_get_params`, and the least size of a bin. */
  method Sizes(minSize: nat) returns (p: nat, cap: nat)
    ensures IsPow2(cap) && Sized(minSize, p, cap)
  {
    var size := 2;
    while minSize > size
      invariant IsPow2(size) && size >= 2 && (size > 2 ==> size < 2 * minSize)
      decreases minSize - size
    {
      size := size * 2;
    }
    var bn, bs;
    bn, p, bs := Params(size);
    SizesFit(minSize, size, p, bs);
    cap := if bs < 8 then 8 else bs;
  }

  /** `ixht_get_params`: `size` elements in 2^p bins of fewer than 2^15 elements. */
  method Params(size: nat) returns (bn: nat, p: nat, bs: nat)
    requires IsPow2(size)
    ensures bn == Pow2(p) && bn * bs == size && IsPow2(bs) && bs < 0x8000 && (p > 0 ==> bs >= 0x4000)
  {
    bs, bn, p := size, 1, 0;
    while bs >= 0x8000
      invariant bn == Pow2(p) && bn * bs == size && IsPow2(bs) && (p > 0 ==> bs >= 0x4000)
      decreases bs
    {
      HalveProduct(bn, bs, bs / 2);
      bn, bs, p := bn * 2, bs / 2, p + 1;
    }
  }

  lemma RunMeans<El(!new)>(o: Ops<El>, s: State<El>, ops: seq<D.Op<El>>, rounds: seq<nat>)
    requires Lawful(o) && X.Ends(o, s, ops, rounds)
    ensures
      var (r, rs) := X.RunOf(o, s, ops, rounds);
      && |rounds| == |ops|
      && (Sound(o, s) && X.HarmlessSplits(o, s, ops, rounds) ==>
            Sound(o, r) && (R.Contents(r.bins), rs) == R.SetRun(o, R.Contents(s.bins), ops))
      && (Strong(o, s) && X.PlainSplits(o, s, ops, rounds) ==>
            Strong(o, r) && (R.Contents(r.bins), rs) == R.SetRun(o, R.Contents(s.bins), ops))
  {
    hide Strong, Sound, Lawful, R.Apply, X.RunOf, R.Ready, R.Contents, R.SetRun, X.HarmlessSplits, X.PlainSplits,
         X.StaysSet;
    if Sound(o, s) && X.HarmlessSplits(o, s, ops, rounds) {
      X.StaysSetIffHarmless(o, s, ops, rounds);
      X.StaysSetRuns(o, s, ops, rounds);
    }
    if Strong(o, s) && X.PlainSplits(o, s, ops, rounds) {
      X.RunIsSet(o, s, ops, rounds);
      X.StaysSetRuns(o, s, ops, rounds);
    }
  }

  lemma HalveProduct(bn: nat, bs: nat, h: nat)
    requires bs == 2 * h
    ensures bn * 2 * h == bn * bs
  {
  }

  lemma SizesFit(minSize: nat, size: nat, p: nat, bs: nat)
    requires Pow2(p) * bs == size >= minSize && (size > 2 ==> size < 2 * minSize) && IsPow2(bs)
    requires bs < 0x8000 && (p > 0 ==> bs >= 0x4000)
    ensures var cap := if bs < 8 then 8 else bs; IsPow2(cap) && Sized(minSize, p, cap)
  {
    hide IsPow2;
    Pow2Gap(bs, 14);
    Pow2Values();
    assert IsPow2(8) by { Pow2IsPow2(3); assert Pow2(1) == 2; }
    if p > 0 {
      assert size == 2 * (Pow2(p - 1) * MAX_CAP);
    }
  }

  lemma GroupsPow2(cap: nat)
    requires IsPow2(cap) && cap >= 8
    ensures IsPow2(2 * cap / 8) && 4 * (2 * cap / 8) == cap
  {
    assert cap % 2 == 0 && cap / 2 % 2 == 0;
    assert 2 * cap / 8 == cap / 2 / 2;
  }

  lemma NewMatches<El(0,!new)>(x: Bin<El>, p: nat, i: nat)
    requires x.Core() && x.Written(x.bound) && x.BitmapOk() && x.ix.els == [] && x.ix.at == map[]
    requires x.version == Current && x.width == WIDTH
    ensures Matches(x, XBin(p, i, 4 * (x.mask + 1), [], {}), x.o, x.platform, 0)
  {
    hide Bitmap.Dead, IsPow2, Inv;
    x.Sizes();
  }

  /** After the split all elements of the two bins are live. */
  lemma {:induction false} SplitLive<El>(o: Ops<El>, w: Work<El>, k: nat)
    requires Sane(w) && ExitsIn(o, w, k)
    ensures var r := Split(o, w, k);
      && |r.bins| == |w.s.bins|
      && r.bins[w.b].live == D.Upto(|r.bins[w.b].els|) && r.bins[w.n].live == D.Upto(|r.bins[w.n].els|)
    decreases k
  {
    hide Side, Kept, D.Upto, Round;
    if k > 1 { SplitLive(o, Next(o, w), k - 1); }
  }

  /** The fields that a round sets. */
  lemma RoundFields<El>(o: Ops<El>, w: Work<El>)
    requires Sane(w)
    ensures
      var r, x := Round(o, w), w.s.bins[w.b];
      && |r.bins| == |w.s.bins| && r.num == w.s.num
      && r.maxDepth == (if x.depth + 1 > w.s.maxDepth then x.depth + 1 else w.s.maxDepth)
      && SplitMask(x) < |if x.depth + 1 > w.s.maxDepth then w.s.dir + w.s.dir else w.s.dir|
      && r.dir == (if x.depth + 1 > w.s.maxDepth then w.s.dir + w.s.dir else w.s.dir)[SplitMask(x) := w.n]
      && r.bins == w.s.bins[w.b := OldBin(o, w)][w.n := NewBin(o, w)]
      && OldBin(o, w).depth == NewBin(o, w).depth == x.depth + 1
      && OldBin(o, w).mask == x.mask && NewBin(o, w).mask == SplitMask(x)
  {
    SplitMaskFits(w);
  }

  /** The directory twice over, entry by entry. */
  method Doubled(dir: seq<nat>) returns (d: seq<nat>)
    ensures d == dir + dir
  {
    d := dir;
    for j := 0 to |dir|
      invariant d == dir + dir[..j]
    {
      d := d + [dir[j]];
    }
  }

  lemma NewIsEmpty<El>(o: Ops<El>, w: Work<El>)
    requires WorkOk(o, w)
    ensures w.s.bins[w.n].live == {}
  {
    assert BinOk(o, w.s.bins[w.n]);
  }

  /** As `Matches`, for a bin whose bitmap marks the positions `dead`, whatever they mean now. */
  ghost predicate Loose<El(0,!new)>(x: Bin<El>, v: XBin<El>, o: Ops<El>, p: Swar.Platform, dead: set<nat>)
    reads x, x.Repr
  {
    && x.o == o && x.version == Current && x.platform == p && x.width == WIDTH
    && x.Core() && x.Written(x.bound)
    && v.cap == 4 * (x.mask + 1) && v.els == x.ix.els && v.live == x.ix.at.Keys
    && v.cap <= 8 * x.deleted.Length && x.deleted in x.Repr
    && forall j :: 0 <= j < v.cap ==> Bitmap.Dead(x.deleted, j) == (j in dead)
  }

  /** What `do_1` does to the elements of a bin. */
  ghost predicate Changed<El>(o: Ops<El>, x: XBin<El>, y: XBin<El>, key: El, action: Action, found: bool, res: nat) {
    && (found <==> !Absent(o, x.els, x.live, key))
    && (found ==> res in x.live && res < |x.els| && Eq(o, x.els[res], key))
    && (!found ==> res == |x.els|)
    && y == x.(els := y.els, live := y.live)
    && y.els == (if !found && action == Insert then x.els + [key] else x.els)
    && y.live == (if !found && action == Insert then x.live + {res}
                  else if found && action == Delete then x.live - {res} else x.live)
  }

  lemma MatchesIsLoose<El(0,!new)>(x: Bin<El>, v: XBin<El>, o: Ops<El>, p: Swar.Platform)
    requires Matches(x, v, o, p, |v.els|)
    ensures Loose(x, v, o, p, D.Upto(|v.els|) - v.live)
  {
    hide Bitmap.Dead, IsPow2, Inv;
    x.Sizes();
  }

  lemma NewIsLoose<El(0,!new)>(x: Bin<El>)
    requires x.Core() && x.Written(x.bound) && x.BitmapOk() && x.ix.els == [] && x.ix.at == map[]
    requires x.version == Current && x.width == WIDTH
    ensures Loose(x, XBin(0, 0, 4 * (x.mask + 1), [], {}), x.o, x.platform, {})
  {
    hide Bitmap.Dead, IsPow2, Inv;
    x.Sizes();
  }

  lemma LooseIsMatches<El(0,!new)>(x: Bin<El>, v: XBin<El>, o: Ops<El>, p: Swar.Platform)
    requires Loose(x, v, o, p, {}) && v.live == D.Upto(|v.els|)
    ensures Matches(x, v, o, p, |v.els|)
  {
    hide Bitmap.Dead, IsPow2, Inv;
    x.Sizes();
  }

  /** The split bin emptied in place, ready to be distributed. */
  method StartSplit<El(0,!new)>(x: Bin<El>, y: Bin<El>, k: nat, ghost v: XBin<El>, ghost u: XBin<El>,
                                ghost dead: set<nat>, ghost deadN: set<nat>)
    requires Loose(x, v, x.o, x.platform, dead) && Loose(y, u, x.o, x.platform, deadN)
    requires u.els == [] && u.live == {} && u.cap == v.cap && x.Repr !! y.Repr
    requires Distinct(x.o, v.els, D.Upto(|v.els|) - dead)
    modifies x.Repr
    ensures x.Kept() && Splitting(x, y, k, 0, v.els, dead)
    ensures forall j :: 0 <= j < x.els.Length ==> Bitmap.Dead(x.deleted, j) == old(Bitmap.Dead(x.deleted, j))
  {
    hide Bitmap.Dead, IsPow2, Distinct, D.Upto, Side, Bin.Core;
    x.Sizes();
    y.Sizes();
    D.UptoNone();
    NoneAdded(x.o, v.els, dead, k, 0);
    NoneAdded(x.o, v.els, dead, k, 1);
    assert forall j :: 0 <= j < |v.els| ==> x.els[j] == v.els[j] by {
      assert x.els[..x.bound] == v.els[..x.bound];
      assert forall j :: 0 <= j < |v.els| ==> x.els[..x.bound][j] == x.els[j];
    }
    x.Reset();
    x.Sizes();
    x.NoneWritten();
  }

  /** One distribution: the two bins hold the two sides of the entries that the bitmap does not mark. */
  method SplitPair<El(0,!new)>(x: Bin<El>, y: Bin<El>, k: nat, ghost v: XBin<El>, ghost u: XBin<El>,
                               ghost dead: set<nat>, ghost deadN: set<nat>)
    returns (oldAdded: bool, newAdded: bool)
    requires Loose(x, v, x.o, x.platform, dead) && Loose(y, u, x.o, x.platform, deadN)
    requires u.els == [] && u.live == {} && u.cap == v.cap && x.Repr !! y.Repr && |v.els| <= WIDTH
    requires Distinct(x.o, v.els, D.Upto(|v.els|) - dead)
    modifies x.Repr, y.Repr
    ensures x.Kept() && y.Kept()
    ensures
      var l0, l1 := Side(x.o, Kept(v.els, dead), k, 0), Side(x.o, Kept(v.els, dead), k, 1);
      && Loose(x, v.(els := l0, live := D.Upto(|l0|)), x.o, x.platform, dead)
      && Loose(y, u.(els := l1, live := D.Upto(|l1|)), x.o, x.platform, deadN)
      && oldAdded == (l0 != []) && newAdded == (l1 != [])
  {
    hide Bitmap.Dead, Distinct, D.Upto, Side, Splitting, Bin.Core, Bin.Written, D.Survivors;
    x.Sizes();
    y.Sizes();
    var bound := x.bound;
    StartSplit(x, y, k, v, u, dead, deadN);
    oldAdded, newAdded := Distribute(x, y, k, bound, v.els, dead);
    assert v.els[..|v.els|] == v.els;
    SplittingDone(x, y, k, v.els, dead);
  }

  lemma SplittingDone<El(0,!new)>(x: Bin<El>, y: Bin<El>, k: nat, e0: seq<El>, dead: set<nat>)
    requires Splitting(x, y, k, |e0|, e0, dead)
    ensures Half(x, Kept(e0, dead), k, 0) && Half(y, Kept(e0, dead), k, 1)
  {
    hide Half;
    assert e0[..|e0|] == e0;
  }

  lemma BinFacts<El>(o: Ops<El>, s: State<El>, b: nat)
    requires Weak(o, s) && b < |s.bins|
    ensures |s.bins[b].els| <= s.bins[b].cap <= MAX_CAP && |s.bins[b].live| <= s.num
    ensures (forall i :: i in s.bins[b].live ==> i < |s.bins[b].els|) && Distinct(o, s.bins[b].els, s.bins[b].live)
  {
    assert BinOk(o, s.bins[b]);
    LiveCountAtLeast(s.bins, b);
  }

  /** What `do_1` does to a bin is what `Acted` does to the table. */
  lemma EffectIsActed<El(!new)>(o: Ops<El>, s: State<El>, b: nat, y: XBin<El>, key: El, action: Action,
                                found: bool, res: nat)
    requires Lawful(o) && Weak(o, s) && b < |s.bins| && (action == Insert ==> |s.bins[b].els| < s.bins[b].cap)
    requires Changed(o, s.bins[b], y, key, action, found, res)
    ensures
      var num := if !found && action == Insert then s.num + 1
                 else if found && action == Delete then s.num - 1 else s.num;
      && (found ==> s.num > 0)
      && Acted(o, s, b, key, action) == (s.(bins := s.bins[b := y], num := num), found, res)
      && Weak(o, s.(bins := s.bins[b := y], num := num))
  {
    hide Absent, D.Position, Distinct, Weak;
    var x := s.bins[b];
    BinFacts(o, s, b);
    ActedWeak(o, s, b, key, action);
    assert s.bins[b := x] == s.bins;
    if found { D.PositionUnique(o, x.els, x.live, key, res); } else { D.PositionAbsent(o, x.els, x.live, key); }
  }
}
