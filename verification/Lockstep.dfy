/** Two tables that differ in version, platform or size answer alike. */
module Lockstep {
  import opened Bins
  import Bitmap
  import opened Keys
  import D = Dense
  import Ihtab

  /** Separate tables. */
  ghost predicate Separate<El(0,!new)>(a: Ihtab.Table<El>, b: Ihtab.Table<El>)
    reads a, a.bin, b, b.bin
  {
    a != b && a !in b.bin.Repr && b !in a.bin.Repr && a.bin.Repr !! b.bin.Repr
  }

  /** Everything but the slots is equal: the element count, the sizes, the written elements and the bitmap. */
  ghost predicate Alike<El(0,!new)>(a: Ihtab.Table<El>, b: Ihtab.Table<El>)
    reads a, a.bin, a.bin.Repr, b, b.bin, b.bin.Repr
  {
    && a.num == b.num && a.bin.mask == b.bin.mask && a.bin.bound == b.bin.bound
    && a.bin.Core() && b.bin.Core() && a.bin.els.Length == b.bin.els.Length
    && a.bin.els[..a.bin.bound] == b.bin.els[..b.bin.bound]
    && a.bin.BitmapOk() && b.bin.BitmapOk()
    && forall i :: 0 <= i < a.bin.els.Length ==> Bitmap.Dead(a.bin.deleted, i) == Bitmap.Dead(b.bin.deleted, i)
  }

  lemma SameViewIsAlike<El(0,!new)>(a: Ihtab.Table<El>, b: Ihtab.Table<El>)
    requires a.Valid() && b.Valid() && a.View() == b.View()
    ensures Alike(a, b)
  {
    hide Bitmap.Dead, Bin.Core, Lawful;
    a.bin.Sizes();
    b.bin.Sizes();
    var n := a.bin.bound;
    assert a.bin.ix.els[..n] == b.bin.ix.els[..n];
  }

  /** The same program on two tables: the replies agree, and the same elements in the same order agree, if
      they agreed at the start.  Tables of the same size stay equal in all but their slots. */
  method RunBoth<El(0,!new)>(a: Ihtab.Table<El>, b: Ihtab.Table<El>, ops: seq<D.Op<El>>)
    returns (ra: seq<D.Reply<El>>, rb: seq<D.Reply<El>>)
    requires a.Valid() && b.Valid() && Separate(a, b) && a.o == b.o
    requires D.List(a.View()) == D.List(b.View())
    requires forall i :: 0 <= i < |ops| ==> D.OpOk(a.o, ops[i])
    requires D.Fits(a.o, a.View(), ops, a.bin.Limit()) && D.Fits(b.o, b.View(), ops, b.bin.Limit())
    modifies a, a.bin.Repr, b, b.bin.Repr
    ensures a.Valid() && b.Valid()
    ensures ra == rb && D.List(a.View()) == D.List(b.View())
    ensures old(a.View() == b.View()) ==> a.View() == b.View() && Alike(a, b)
  {
    hide Alike, Bin.Core, Bin.Written, Bin.BitmapOk, Lawful, D.Run, D.ListRun, D.List;
    a.bin.Sizes();
    b.bin.Sizes();
    ra := a.Run(ops);
    rb := b.Run(ops);
    if a.View() == b.View() { SameViewIsAlike(a, b); }
  }
}
