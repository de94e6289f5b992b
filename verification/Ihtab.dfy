/** ihtab: one bin that is rebuilt as a whole when its element array is full. */
module Ihtab {
  import opened BitMath
  import opened Bins
  import Bitmap
  import D = Dense
  import opened Keys
  import opened Probe
  import Swar

  const WIDTH: nat := 0x1_0000_0000

  class Table<El(0,!new)> {
    const o: Ops<El>
    const version: Version
    const platform: Swar.Platform
    var num: nat
    var bin: Bin<El>

    /** The table invariant when the first `n` elements have been written. */
    ghost predicate ValidUpto(n: nat)
      reads this, bin, bin.Repr
    {
      && this !in bin.Repr
      && bin.o == o && bin.version == version && bin.platform == platform && bin.width == WIDTH
      && bin.Core() && bin.Written(n) && bin.BitmapOk()
      && bin.bound < 4 * (bin.mask + 1)
      && num == |bin.ix.at.Keys|
    }

    ghost predicate Valid()
      reads this, bin, bin.Repr
    {
      ValidUpto(|bin.ix.els|)
    }

    /** The table without its slots. */
    ghost function View(): D.State<El>
      reads this, bin
    {
      D.State(bin.mask + 1, bin.ix.els, bin.ix.at.Keys)
    }

    lemma ViewOk(n: nat)
      requires ValidUpto(n)
      ensures D.Ok(o, View())
    {
    }

    /** The load: at most half of the slots less one are not EMPTY, in the current version exactly as many as
        there are entries, so that every walk meets a group where it stops. */
    lemma LoadFactor(n: nat)
      requires ValidUpto(n)
      ensures Used(bin.ix.slots) <= bin.bound <= |bin.ix.slots| / 2 - 1
      ensures version.Current? ==> Used(bin.ix.slots) == bin.bound
      ensures exists g :: 0 <= g < |bin.ix.slots| / 8 && !Full(bin.ix.slots, g)
    {
      SomeGroupStops(bin.ix.slots);
    }

    /** `iht_create`: the smallest power-of-two index with room for `minSize` elements. */
    constructor (o: Ops<El>, version: Version, platform: Swar.Platform, minSize: nat)
      requires Lawful(o)
      ensures this.o == o && this.version == version && this.platform == platform
      ensures Valid() && fresh(bin) && fresh(bin.Repr)
      ensures View() == D.State(bin.mask + 1, [], {})
      ensures 4 * (bin.mask + 1) >= minSize && (bin.mask > 0 ==> 2 * (bin.mask + 1) < minSize)
    {
      hide IsPow2, Lawful, Inv, Bitmap.Dead, Bin.Core, Bin.BitmapOk;
      var groups := IndexSize(minSize);
      this.o, this.version, this.platform := o, version, platform;
      num := 0;
      bin := new Bin<El>(o, version, platform, WIDTH, groups);
      new;
      bin.Sizes();
    }

    /** The new bin of a rebuild after `i` entries of the old one have been scanned. */
    ghost predicate Copying(rb: Bin<El>, i: nat)
      requires i <= |bin.ix.els|
      reads this, bin, bin.Repr, rb, rb.Repr
    {
      && rb.o == o && rb.version == version && rb.platform == platform && rb.width == WIDTH
      && rb.mask + 1 == D.Rebuilt(View()).groups
      && rb.Core() && rb.Written(rb.bound) && rb.BitmapOk()
      && rb.ix.els == D.Survivors(bin.ix.els[..i], bin.ix.at.Keys)
      && rb.ix.at.Keys == D.Upto(|rb.ix.els|)
    }

    method CopyEntry(rb: Bin<El>, i: nat)
      requires Valid() && bin.bound <= bin.Limit() && i < bin.bound
      requires i < |bin.ix.els| && Copying(rb, i) && this !in rb.Repr && rb.Repr !! bin.Repr
      modifies rb.Repr
      ensures rb.Repr == old(rb.Repr)
      ensures Valid() && i < |bin.ix.els| && Copying(rb, i + 1)
    {
      hide Inv, D.Survivors, D.Rebuilt, D.Ok, IsPow2, Lawful, Absent, D.Upto, Bin.Core, Bin.BitmapOk, Bin.Written;
      bin.Sizes();
      ViewOk(|bin.ix.els|);
      CopyFits(i);
      var live, e := bin.Entry(i);
      rb.Sizes();
      if live {
        rb.Append(e);
      }
    }

    lemma CopyFits(i: nat)
      requires Valid() && i < |bin.ix.els|
      ensures
        var d := View();
        var l := D.Survivors(d.els[..i], d.live);
        var m := D.Survivors(d.els[..i + 1], d.live);
        if i in d.live then
          && m == l + [d.els[i]] && D.Upto(|m|) == D.Upto(|l|) + {|l|}
          && |l| < 4 * D.Rebuilt(d).groups && |l| <= i && Absent(o, l, D.Upto(|l|), d.els[i])
        else m == l
    {
      hide D.Survivors, D.Upto, Absent;
      ViewOk(|bin.ix.els|);
      D.CopyStep(o, View().els, View().live, i);
      D.RebuiltOk(o, View());
    }

    method NewBin() returns (rb: Bin<El>)
      requires Valid()
      ensures fresh(rb) && fresh(rb.Repr) && Copying(rb, 0)
    {
      hide Inv, Distinct, IsPow2, Lawful, D.Upto, D.Ok, Bin.Core, Bin.BitmapOk, Bin.Written;
      bin.Sizes();
      ViewOk(|bin.ix.els|);
      D.SurvivorsCount(View().els, View().live);
      var groups := bin.mask + 1;
      if 4 * num >= 8 * groups {
        DoublePow2(groups);
        groups := 2 * groups;
      }
      rb := new Bin<El>(o, version, platform, WIDTH, groups);
    }

    /** The live elements, inserted in order into a new bin. */
    method CopyLive() returns (rb: Bin<El>)
      requires Valid() && bin.bound <= bin.Limit()
      ensures fresh(rb) && fresh(rb.Repr)
      ensures bin.bound == |bin.ix.els| && Copying(rb, bin.bound)
    {
      hide Inv, IsPow2, Lawful, Bin.Core, Bin.BitmapOk, Bin.Written, D.Rebuilt, D.Survivors, D.Upto;
      bin.Sizes();
      rb := NewBin();
      for i := 0 to bin.bound
        invariant Valid() && fresh(rb) && fresh(rb.Repr)
        invariant i <= |bin.ix.els| && Copying(rb, i)
      {
        CopyEntry(rb, i);
      }
    }

    /** `iht_rebuild`. */
    method Rebuild()
      requires Valid() && bin.bound <= bin.Limit()
      modifies this`bin
      ensures Valid() && fresh(bin) && fresh(bin.Repr)
      ensures View() == D.Rebuilt(old(View()))
    {
      hide Inv, D.Survivors, Distinct, Lawful, D.Upto, Bin.Core, Bin.BitmapOk, Bin.Written;
      bin.Sizes();
      ViewOk(|bin.ix.els|);
      D.RebuiltOk(o, View());
      D.SurvivorsCount(View().els, View().live);
      var rb := CopyLive();
      rb.Sizes();
      assert bin.ix.els[..bin.bound] == bin.ix.els;
      bin := rb;
    }

    /** `iht_perform`.  After an insertion that found nothing the caller must write element `res`. */
    method Perform(key: El, action: Action) returns (found: bool, res: nat)
      requires Valid() && (action == Insert ==> bin.bound < bin.Limit())
      modifies this, bin.Repr
      ensures (View(), found, res) == D.Performed(o, old(View()), key, action)
      ensures ValidUpto(if !found && action == Insert then res else |View().els|)
      ensures fresh(bin.Repr - old(bin.Repr))
    {
      hide Inv, Distinct, Lawful, IsPow2, D.Ok, D.Acted, Bin.Core, Bin.Written, Bin.BitmapOk;
      bin.Sizes();
      if action == Insert {
        if bin.bound >= 8 * (bin.mask + 1) / 2 - 1 {
          RebuiltHasRoom();
          Rebuild();
          bin.Sizes();
        }
      }
      found, res := Act(key, action);
    }

    lemma RebuiltHasRoom()
      requires Valid()
      ensures !D.MustRebuild(D.Rebuilt(View())) && |D.Rebuilt(View()).els| <= bin.bound
    {
      ViewOk(|bin.ix.els|);
      D.RebuiltOk(o, View());
    }

    /** `iht_do_1` on the table's own bin, with the element count. */
    method Act(key: El, action: Action) returns (found: bool, res: nat)
      requires Valid()
      requires action == Insert ==> !D.MustRebuild(View()) && bin.bound < bin.Limit()
      modifies this`num, bin.Repr
      ensures (View(), found, res) == D.Acted(o, old(View()), key, action)
      ensures ValidUpto(if !found && action == Insert then res else |View().els|)
      ensures bin.Repr == old(bin.Repr)
    {
      hide Inv, Lawful, IsPow2, D.Ok, D.Acted, Absent, Bitmap.Dead, Bin.Core, Bin.Written, Bin.BitmapOk;
      ghost var d := View();
      ViewOk(|bin.ix.els|);
      bin.Sizes();
      found, res := bin.Do1(key, action);
      bin.Sizes();
      if found {
        if action == Delete {
          num := num - 1;
        }
      } else if action == Insert {
        num := num + 1;
      }
      EffectIsActed(o, d, View(), key, action, found, res);
    }

    /** The caller's write through the returned pointer. */
    method Store(i: nat, e: El)
      requires ValidUpto(|View().els|) || (i + 1 == |View().els| && ValidUpto(i))
      requires i < |View().els| && Eq(o, View().els[i], e)
      modifies bin.Repr
      ensures Valid() && View() == old(View()).(els := old(View().els)[i := e])
      ensures bin.Repr == old(bin.Repr)
    {
      hide Inv, Lawful, IsPow2, Bitmap.Dead, Bin.Core, Bin.BitmapOk;
      bin.Sizes();
      bin.Store(i, e);
    }

    /** One operation of a caller, with the writes it owes the table. */
    method Apply(op: D.Op<El>) returns (reply: D.Reply<El>)
      requires Valid() && D.OpOk(o, op) && (D.ActionOf(op) == Insert ==> bin.bound < bin.Limit())
      modifies this, bin.Repr
      ensures Valid() && (View(), reply) == D.Apply(o, old(View()), op)
      ensures fresh(bin.Repr - old(bin.Repr))
    {
      hide Inv, Lawful, IsPow2, Bin.Core, Bin.BitmapOk, Bin.Written, D.Performed;
      bin.Sizes();
      PerformedRes(o, View(), op.key, D.ActionOf(op));
      var found, res := Perform(op.key, D.ActionOf(op));
      reply := D.Miss;
      if found {
        var e := Load(res);
        reply := if op.DeleteOp? then D.Gone else D.Hit(e);
      }
      if op.ReplaceOp? || (op.InsertOp? && !found) {
        EqTrans(o, View().els[res], op.key, op.e);
        Store(res, op.e);
      }
    }

    /** A whole program: operation after operation.  Whatever the version, the platform, the hash and the
        rebuilds, the replies and the elements in order are those of an insertion-ordered list. */
    method Run(ops: seq<D.Op<El>>) returns (replies: seq<D.Reply<El>>)
      requires Valid() && (forall i :: 0 <= i < |ops| ==> D.OpOk(o, ops[i])) && D.Fits(o, View(), ops, bin.Limit())
      modifies this, bin.Repr
      ensures Valid() && fresh(bin.Repr - old(bin.Repr))
      ensures (View(), replies) == D.Run(o, old(View()), ops)
      ensures (D.List(View()), replies) == D.ListRun(o, old(D.List(View())), ops)
    {
      hide Inv, Lawful, IsPow2, Bin.Core, Bin.BitmapOk, Bin.Written, D.Apply, D.ListRun, D.Ok, D.List;
      ViewOk(|View().els|);
      bin.Sizes();
      D.RunIsList(o, View(), ops);
      replies := [];
      for n := 0 to |ops|
        invariant Valid() && fresh(bin.Repr - old(bin.Repr)) && bin.Limit() == old(bin.Limit())
        invariant (View(), replies) == D.Run(o, old(View()), ops[..n])
      {
        D.RunNext(o, old(View()), ops, n);
        bin.Sizes();
        var r := Apply(ops[n]);
        bin.Sizes();
        replies := replies + [r];
      }
      assert ops[..|ops|] == ops;
    }

    /** `iht_els_count`. */
    method Count() returns (n: nat)
      requires Valid()
      ensures n == |D.List(View())|
    {
      hide Inv, Lawful, IsPow2, Bin.Core, Bin.BitmapOk, Bin.Written, D.Survivors;
      bin.Sizes();
      ViewOk(|View().els|);
      D.SurvivorsCount(View().els, View().live);
      n := num;
    }

    /** `iht_size`: one more than the entries that an insertion finds without a rebuild. */
    method Size() returns (n: nat)
      requires Valid()
      ensures n == 4 * View().groups && |View().els| < n
    {
      hide Inv, Lawful, IsPow2, Bin.Core, Bin.BitmapOk, Bin.Written;
      bin.Sizes();
      n := (bin.mask + 1) * 8 / 2;
    }

    /** The caller's read through the returned pointer. */
    method Load(i: nat) returns (e: El)
      requires Valid() && i < |View().els|
      ensures e == View().els[i]
    {
      e := bin.els[i];
      assert bin.els[..bin.bound][i] == e;
    }

    /** `iht_iter_advance`: the first live position from `from` on, or the end. */
    method Advance(from: nat) returns (i: nat)
      requires Valid() && from <= bin.bound
      ensures from <= i <= bin.bound == |View().els|
      ensures i < bin.bound ==> i in View().live
      ensures forall j :: from <= j < i ==> j !in View().live
    {
      hide Inv, Lawful, IsPow2, Bitmap.Dead, Bin.Core, Bin.BitmapOk, Bin.Written;
      bin.Sizes();
      i := from;
      while i < bin.bound
        invariant from <= i <= bin.bound
        invariant forall j :: from <= j < i ==> j !in bin.ix.at.Keys
      {
        var live, e := bin.Entry(i);
        if live {
          return;
        }
        i := i + 1;
      }
    }

    /** A whole iteration: `iht_iter_begin`, then `iht_iter_next` while the iterator is valid. */
    method Traverse() returns (l: seq<El>)
      requires Valid()
      ensures l == D.List(View())
    {
      hide Inv, Lawful, IsPow2, Bitmap.Dead, Bin.Core, Bin.BitmapOk, Bin.Written, D.Survivors;
      bin.Sizes();
      ghost var els, live := View().els, View().live;
      l := [];
      D.SurvivorsNone(els, live, 0, 0);
      var i := Advance(0);
      D.SurvivorsNone(els, live, 0, i);
      while i < bin.bound
        invariant i <= bin.bound == |els|
        invariant i < bin.bound ==> i in live
        invariant l == D.Survivors(els[..i], live)
        decreases bin.bound - i
      {
        var x, e := bin.Entry(i);
        l := l + [e];
        D.SurvivorsNext(els, live, i);
        var j := Advance(i + 1);
        D.SurvivorsNone(els, live, i + 1, j);
        i := j;
      }
      assert els[..i] == els;
    }
  }

  /** The size of a new index: the loop of `iht_create`. */
  method IndexSize(minSize: nat) returns (groups: nat)
    ensures IsPow2(groups) && 4 * groups >= minSize && (groups > 1 ==> 2 * groups < minSize)
  {
    var size := 8;
    while size / 2 < minSize
      invariant size % 8 == 0 && IsPow2(size / 8)
      invariant size > 8 ==> size / 4 < minSize
      decreases 2 * minSize - size
    {
      assert 2 * size / 8 / 2 == size / 8 && 2 * size / 8 % 2 == 0;
      size := size * 2;
    }
    groups := size / 8;
  }

  lemma PerformedRes<El(!new)>(o: Ops<El>, d: D.State<El>, key: El, action: Action)
    requires Lawful(o)
    ensures
      var (p, found, res) := D.Performed(o, d, key, action);
      && (action == Insert ==> res < |p.els| && Eq(o, p.els[res], key))
      && (found ==> res < |p.els|)
      && (!found && action == Insert ==> res + 1 == |p.els|)
  {
    EqRefl(o, key);
  }

  lemma EffectIsActed<El(!new)>(o: Ops<El>, d: D.State<El>, e: D.State<El>, key: El, action: Action,
                                found: bool, res: nat)
    requires Lawful(o) && D.Ok(o, d) && d.groups == e.groups
    requires found <==> !Absent(o, d.els, d.live, key)
    requires found ==> res in d.live && res < |d.els| && Eq(o, d.els[res], key)
    requires !found ==> res == |d.els|
    requires e.els == if !found && action == Insert then d.els + [key] else d.els
    requires e.live == if !found && action == Insert then d.live + {res}
                       else if found && action == Delete then d.live - {res} else d.live
    ensures (e, found, res) == D.Acted(o, d, key, action)
    ensures |e.live| == if !found && action == Insert then |d.live| + 1
                        else if found && action == Delete then |d.live| - 1 else |d.live|
  {
    hide D.Position, Distinct;
    if found {
      D.PositionUnique(o, d.els, d.live, key, res);
    } else {
      D.PositionAbsent(o, d.els, d.live, key);
      assert res !in d.live;
    }
  }
}
