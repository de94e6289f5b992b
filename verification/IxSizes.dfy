/** The sizes of the bins: in every table of more than one bin that a run can build, all bins have the largest
    size, because only a bin of that size is split. */
module IxSizes {
  import opened BitMath
  import D = Dense
  import opened Extendible
  import opened IxExact
  import opened IxRuns
  import opened Keys
  import opened Probe
  import opened SplitRoutes

  predicate FullSized<El>(s: State<El>) {
    |s.bins| > 1 ==> forall b :: 0 <= b < |s.bins| ==> s.bins[b].cap == MAX_CAP
  }

  /** A new table has several bins only if one would be too large. */
  lemma CreatedFullSized<El>(p: nat, cap: nat)
    requires p > 0 ==> cap == MAX_CAP
    ensures FullSized(Created<El>(p, cap))
  {
  }

  lemma RoundCaps<El>(o: Ops<El>, w: Work<El>)
    requires Sane(w)
    ensures var r := Round(o, w);
      |r.bins| == |w.s.bins| && forall c :: 0 <= c < |r.bins| ==> r.bins[c].cap == w.s.bins[c].cap
  {
    hide Side, Moving, Pow2;
  }

  lemma {:induction false} SplitCaps<El>(o: Ops<El>, w: Work<El>, k: nat)
    requires Sane(w) && ExitsIn(o, w, k)
    ensures var r := Split(o, w, k);
      |r.bins| == |w.s.bins| && forall c :: 0 <= c < |r.bins| ==> r.bins[c].cap == w.s.bins[c].cap
    decreases k
  {
    hide Round, Exits, Next, OldBin, NewBin, Sane;
    RoundCaps(o, w);
    NextIs(o, w);
    if k > 1 { SplitCaps(o, Next(o, w), k - 1); }
  }

  lemma SplitFullSized<El>(o: Ops<El>, s: State<El>, b: nat, k: nat)
    requires FullSized(s) && b < |s.bins| && BinOk(o, s.bins[b]) && MustSplit(s, b)
    requires Sane(Started(s, b)) && ExitsIn(o, Started(s, b), k)
    ensures FullSized(Split(o, Started(s, b), k))
  {
    hide Split, ExitsIn, Sane, D.Upto, IsPow2, Distinct, Pow2;
    SplitCaps(o, Started(s, b), k);
  }

  lemma CompactedFullSized<El>(o: Ops<El>, s: State<El>, b: nat, k: nat)
    requires FullSized(s) && b < |s.bins| && BinOk(o, s.bins[b]) && MustMakeRoom(s, b) && !MustSplit(s, b)
    ensures FullSized(Roomy(o, s, b, k))
  {
    hide D.Upto, D.Survivors, IsPow2, Distinct, Pow2;
  }

  lemma PreparedFullSized<El>(o: Ops<El>, s: State<El>, key: El, action: Action, rounds: nat)
    requires FullSized(s) && Ready(o, s, key, action, rounds)
    ensures FullSized(Prepared(o, s, key, action, rounds))
  {
    hide Low, Pow2, LiveCount, Split, ExitsIn, BinOk, FullSized, Started, Sane;
    var b := Route(s, Hash(o, key));
    WeakBin(o, s, b);
    if action == Insert && MustMakeRoom(s, b) {
      if MustSplit(s, b) { SplitFullSized(o, s, b, rounds); } else { CompactedFullSized(o, s, b, rounds); }
    }
  }

  lemma BinAfterCap<El>(o: Ops<El>, x: XBin<El>, op: D.Op<El>)
    ensures BinAfter(o, x, op).cap == x.cap
  {
  }

  /** Every operation keeps it so, with or without H1 and H2. */
  lemma ApplyFullSized<El>(o: Ops<El>, s: State<El>, op: D.Op<El>, rounds: nat)
    requires FullSized(s) && Ready(o, s, op.key, D.ActionOf(op), rounds)
    ensures FullSized(Apply(o, s, op, rounds).0)
  {
    hide Prepared, Ready, Apply, BinAfter, D.Position, Low, Pow2;
    PreparedFullSized(o, s, op.key, D.ActionOf(op), rounds);
    ApplyChanges(o, s, op, rounds);
    PreparedFacts(o, s, op.key, D.ActionOf(op), rounds);
    var p := Prepared(o, s, op.key, D.ActionOf(op), rounds);
    BinAfterCap(o, p.bins[Route(p, Hash(o, op.key))], op);
  }

  /** Over every run whose splits end. */
  lemma {:induction false} RunFullSized<El(!new)>(o: Ops<El>, s: State<El>, ops: seq<D.Op<El>>, rounds: seq<nat>)
    requires FullSized(s) && Ends(o, s, ops, rounds)
    ensures FullSized(RunOf(o, s, ops, rounds).0)
    decreases |ops|
  {
    hide Apply, Ready, FullSized;
    if ops != [] {
      ApplyFullSized(o, s, ops[0], rounds[0]);
      RunFullSized(o, Apply(o, s, ops[0], rounds[0]).0, ops[1..], rounds[1..]);
    }
  }
}
