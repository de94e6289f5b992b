/** When ihtab rebuilds and how large it gets, told by the list that the caller sees. */
module DenseSizes {
  import opened Dense
  import opened Keys
  import opened Probe

  /** What `do_1` and the caller's write do to the size. */
  lemma ActedSize<El>(o: Ops<El>, d: State<El>, op: Op<El>)
    ensures
      var (p, found, res) := Acted(o, d, op.key, ActionOf(op));
      var (r, reply) := (Stored(p, op, found, res), ReplyOf(p.els, op, found, res));
      var added := ActionOf(op) == Insert && reply == Miss;
      && r.groups == d.groups && |r.els| == |d.els| + (if added then 1 else 0)
      && (ActionOf(op) == Insert ==> r.live == d.live + (if added then {|d.els|} else {}))
  {
    hide Position;
  }

  /** What an operation does to the size.  An insertion rebuilds if and only if the entries fill all but one
      of their places: then no deleted entry is left, and the index doubles if and only if the list fills at
      least a quarter of its slots. */
  lemma StepSize<El>(o: Ops<El>, d: State<El>, op: Op<El>)
    requires Ok(o, d)
    ensures
      var (r, reply) := Apply(o, d, op);
      var (insert, added) := (ActionOf(op) == Insert, if ActionOf(op) == Insert && reply == Miss then 1 else 0);
      if insert && |d.els| + 1 == 4 * d.groups then
        && (r.groups != d.groups <==> 4 * |List(d)| >= 8 * d.groups)
        && (r.groups != d.groups ==> r.groups == 2 * d.groups)
        && |r.els| == |List(d)| + added && r.live == Upto(|r.els|)
      else
        && r.groups == d.groups && |r.els| == |d.els| + added && (insert ==> d.live <= r.live)
  {
    hide Position, Survivors, Distinct, Acted, Stored, ReplyOf;
    var p := Prepared(d, ActionOf(op));
    SurvivorsCount(d.els, d.live);
    UptoNext(|List(d)|);
    ActedSize(o, p, op);
  }

  function Max(a: nat, b: nat): nat { if a < b then b else a }

  /** Over any run the index never shrinks, and never has more groups than at the start or than the list had
      elements at some point of the run. */
  lemma {:induction false} RunSize<El(!new)>(o: Ops<El>, d: State<El>, ops: seq<Op<El>>) returns (n: nat)
    requires Lawful(o) && Ok(o, d) && forall i :: 0 <= i < |ops| ==> OpOk(o, ops[i])
    ensures n <= |ops|
    ensures d.groups <= Run(o, d, ops).0.groups <= Max(d.groups, |ListRun(o, List(d), ops[..n]).0|)
    decreases |ops|
  {
    hide Apply, ListApply, Ok, List;
    n := 0;
    if ops != [] {
      ApplyIsList(o, d, ops[0]);
      StepSize(o, d, ops[0]);
      var e := Apply(o, d, ops[0]).0;
      var m := RunSize(o, e, ops[1..]);
      assert ops[..0] == [] && ops[..m + 1][1..] == ops[1..][..m];
      if Max(d.groups, |List(d)|) < |ListRun(o, List(e), ops[1..][..m]).0| { n := m + 1; }
    }
  }

  /** How many elements a run adds to a list. */
  function News<El>(o: Ops<El>, l: seq<El>, ops: seq<Op<El>>): nat
    decreases |ops|
  {
    if ops == [] then 0 else
      var (m, reply) := ListApply(o, l, ops[0]);
      (if ActionOf(ops[0]) == Insert && reply == Miss then 1 else 0) + News(o, m, ops[1..])
  }

  /** A run that adds fewer elements than there are free places less one rebuilds nothing: every entry stays
      where it is, and a new entry is made for each of them. */
  lemma {:induction false} NoRebuild<El(!new)>(o: Ops<El>, d: State<El>, ops: seq<Op<El>>)
    requires Lawful(o) && Ok(o, d) && forall i :: 0 <= i < |ops| ==> OpOk(o, ops[i])
    requires |d.els| + News(o, List(d), ops) + 2 <= 4 * d.groups
    ensures var r := Run(o, d, ops).0; r.groups == d.groups && |r.els| == |d.els| + News(o, List(d), ops)
    decreases |ops|
  {
    hide Apply, ListApply, Ok, List;
    if ops != [] {
      ApplyIsList(o, d, ops[0]);
      StepSize(o, d, ops[0]);
      NoRebuild(o, Apply(o, d, ops[0]).0, ops[1..]);
    }
  }

  // ---- What is counted ----

  /** What a run scans is the sum of what its operations scan: all entries, deleted or not, of the table that an
      insertion finds with all but one place filled, and nothing otherwise. */
  lemma {:induction false} ScannedSum<El>(o: Ops<El>, d: State<El>, ops: seq<Op<El>>, op: Op<El>)
    requires Ok(o, Run(o, d, ops).0)
    ensures
      var e := Run(o, d, ops).0;
      Scanned(o, d, ops + [op]) == Scanned(o, d, ops)
        + if ActionOf(op) == Insert && |e.els| + 1 == 4 * e.groups then |e.els| else 0
    decreases |ops|
  {
    hide Apply, Distinct;
    if ops == [] {
      assert (ops + [op])[1..] == [];
    } else {
      ScannedSum(o, Apply(o, d, ops[0]).0, ops[1..], op);
      assert (ops + [op])[1..] == ops[1..] + [op];
    }
  }

  /** What a run inserts is what the list gains. */
  lemma {:induction false} InsertedIsNews<El(!new)>(o: Ops<El>, d: State<El>, ops: seq<Op<El>>)
    requires Lawful(o) && Ok(o, d) && forall i :: 0 <= i < |ops| ==> OpOk(o, ops[i])
    ensures Inserted(o, d, ops) == News(o, List(d), ops)
    decreases |ops|
  {
    hide Apply, ListApply, Ok, List;
    if ops != [] {
      ApplyIsList(o, d, ops[0]);
      InsertedIsNews(o, Apply(o, d, ops[0]).0, ops[1..]);
    }
  }
}
