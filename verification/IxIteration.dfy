/** The order in which an iteration visits the elements of ixhtab: bin after bin. */
module IxIteration {
  import opened Extendible
  import opened Keys
  import D = Dense
  import R = IxRuns

  /** The live elements of all bins, in order. */
  function Listed<El>(bins: seq<XBin<El>>): seq<El> {
    if bins == [] then [] else
      var x := bins[|bins| - 1];
      Listed(bins[..|bins| - 1]) + D.Survivors(x.els, x.live)
  }

  /** The live elements before position `i` of bin `b`. */
  function Before<El>(bins: seq<XBin<El>>, b: nat, i: nat): seq<El>
    requires b <= |bins|
    requires b < |bins| ==> i <= |bins[b].els|
  {
    Listed(bins[..b]) + if b < |bins| then D.Survivors(bins[b].els[..i], bins[b].live) else []
  }

  lemma BeforeStart<El>(bins: seq<XBin<El>>)
    ensures Before(bins, 0, 0) == []
  {
  }

  lemma BeforeNext<El>(bins: seq<XBin<El>>, b: nat, i: nat)
    requires b < |bins| && i < |bins[b].els|
    ensures Before(bins, b, i + 1) == Before(bins, b, i) + if i in bins[b].live then [bins[b].els[i]] else []
  {
    D.SurvivorsNext(bins[b].els, bins[b].live, i);
  }

  lemma BeforeBin<El>(bins: seq<XBin<El>>, b: nat)
    requires b < |bins|
    ensures Before(bins, b, |bins[b].els|) == Before(bins, b + 1, 0)
  {
    var x := bins[b];
    assert x.els[..|x.els|] == x.els;
    assert bins[..b + 1][..b] == bins[..b];
    if b + 1 < |bins| { assert D.Survivors(bins[b + 1].els[..0], bins[b + 1].live) == []; }
  }

  lemma BeforeEnd<El>(bins: seq<XBin<El>>)
    ensures Before(bins, |bins|, 0) == Listed(bins)
  {
    assert bins[..|bins|] == bins;
  }

  /** The iteration visits every live element exactly once. */
  lemma {:induction false} ListedIsContents<El>(bins: seq<XBin<El>>)
    requires forall b, i :: 0 <= b < |bins| && i in bins[b].live ==> i < |bins[b].els|
    ensures |Listed(bins)| == LiveCount(bins)
    ensures (set e | e in Listed(bins)) == R.Contents(bins)
  {
    hide D.Survivors, R.BinSet;
    if bins != [] {
      var n := |bins| - 1;
      var x := bins[n];
      ListedIsContents(bins[..n]);
      D.SurvivorsCount(x.els, x.live);
      SurvivorsSet(x);
      JoinedSet(Listed(bins[..n]), D.Survivors(x.els, x.live));
    }
  }

  lemma JoinedSet<El>(a: seq<El>, b: seq<El>)
    ensures (set e | e in a + b) == (set e | e in a) + (set e | e in b)
  {
  }

  lemma SurvivorsSet<El>(x: XBin<El>)
    ensures (set e | e in D.Survivors(x.els, x.live)) == R.BinSet(x)
  {
    var l := D.Survivors(x.els, x.live);
    forall e | e in l ensures e in R.BinSet(x) {
      var k :| 0 <= k < |l| && l[k] == e;
      var i := D.SurvivorFrom(x.els, x.live, k);
    }
    forall e | e in R.BinSet(x) ensures e in l {
      var i :| i in x.live && i < |x.els| && x.els[i] == e;
      D.SurvivorAt(x.els, x.live, i);
    }
  }

  /** Where the iteration visits the live element at position `i` of bin `b`: after all live elements of the
      bins before it and after the live elements before it in its bin. */
  lemma {:induction false} ListedAt<El>(bins: seq<XBin<El>>, b: nat, i: nat)
    requires forall c, j :: 0 <= c < |bins| && j in bins[c].live ==> j < |bins[c].els|
    requires b < |bins| && i in bins[b].live
    ensures
      var k := LiveCount(bins[..b]) + |D.Survivors(bins[b].els[..i], bins[b].live)|;
      k < |Listed(bins)| && Listed(bins)[k] == bins[b].els[i]
  {
    hide D.Survivors;
    var n := |bins| - 1;
    ListedIsContents(bins[..n]);
    if b < n {
      ListedAt(bins[..n], b, i);
      assert bins[..n][..b] == bins[..b];
    } else {
      D.SurvivorAt(bins[b].els, bins[b].live, i);
    }
  }
}
