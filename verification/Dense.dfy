/** What a table is without its slots: the dense element sequence, which of its elements are live, and
    how many groups the index has.  Both ihtab and ihtab-v0 perform exactly these steps, and the steps
    are those of an insertion-ordered list of distinct elements. */
module Dense {
  import opened Keys
  import opened Probe

  datatype State<El> = State(groups: nat, els: seq<El>, live: set<nat>)

  ghost predicate Ok<El>(o: Ops<El>, d: State<El>) {
    && d.groups > 0
    && |d.els| < 4 * d.groups
    && (forall i :: i in d.live ==> i < |d.els|)
    && Distinct(o, d.els, d.live)
  }

  /** The live elements, in insertion order. */
  function Survivors<El>(els: seq<El>, live: set<nat>): (l: seq<El>)
    ensures |l| <= |els|
  {
    if els == [] then [] else
      var n := |els| - 1;
      Survivors(els[..n], live) + if n in live then [els[n]] else []
  }

  /** The first `n` positions. */
  function Upto(n: nat): (s: set<nat>)
    ensures forall i: nat :: i in s <==> i < n
    ensures |s| == n
  {
    if n == 0 then {} else Upto(n - 1) + {n - 1}
  }

  /** First position from `n` on of a live element equal to the key, or the number of elements. */
  function Position<El>(o: Ops<El>, els: seq<El>, live: set<nat>, key: El, n: nat): (i: nat)
    requires n <= |els|
    ensures n <= i <= |els|
    ensures i < |els| ==> i in live && Eq(o, els[i], key)
    ensures forall j :: n <= j < i && j in live ==> !Eq(o, els[j], key)
    decreases |els| - n
  {
    if n == |els| || (n in live && Eq(o, els[n], key)) then n else Position(o, els, live, key, n + 1)
  }

  // ---- Steps ----

  /** `iht_rebuild`: only the live elements remain; the index doubles when they fill a quarter of it. */
  function Rebuilt<El>(d: State<El>): State<El> {
    var l := Survivors(d.els, d.live);
    State(if 4 * |d.live| >= 8 * d.groups then 2 * d.groups else d.groups, l, Upto(|l|))
  }

  /** Whether an insertion must rebuild first. */
  predicate MustRebuild<El>(d: State<El>) {
    |d.els| >= 8 * d.groups / 2 - 1
  }

  function Prepared<El>(d: State<El>, action: Action): State<El> {
    if action == Insert && MustRebuild(d) then Rebuilt(d) else d
  }

  /** `iht_do_1` on the elements; `res` is the position returned through the pointer. */
  function Acted<El>(o: Ops<El>, d: State<El>, key: El, action: Action): (State<El>, bool, nat) {
    var res := Position(o, d.els, d.live, key, 0);
    if res < |d.els| then
      (if action == Delete then d.(live := d.live - {res}) else d, true, res)
    else
      (if action == Insert then d.(els := d.els + [key], live := d.live + {res}) else d, false, res)
  }

  /** `iht_perform`. */
  function Performed<El>(o: Ops<El>, d: State<El>, key: El, action: Action): (State<El>, bool, nat) {
    Acted(o, Prepared(d, action), key, action)
  }

  // ---- Lemmas ----

  lemma {:induction false} SurvivorsCount<El>(els: seq<El>, live: set<nat>)
    requires forall i :: i in live ==> i < |els|
    ensures |Survivors(els, live)| == |live|
  {
    if els == [] {
      assert live == {};
    } else {
      var n := |els| - 1;
      SurvivorsCount(els[..n], live - {n});
      SurvivorsIgnore(els[..n], live, n);
    }
  }

  /** Positions past the end do not matter. */
  lemma {:induction false} SurvivorsIgnore<El>(els: seq<El>, live: set<nat>, i: nat)
    requires |els| <= i
    ensures Survivors(els, live - {i}) == Survivors(els, live) == Survivors(els, live + {i})
  {
    if els != [] { SurvivorsIgnore(els[..|els| - 1], live, i); }
  }

  /** Where the live element at position `i` stands among the survivors. */
  lemma {:induction false} SurvivorAt<El>(els: seq<El>, live: set<nat>, i: nat)
    requires i < |els| && i in live
    ensures |Survivors(els[..i], live)| < |Survivors(els, live)|
    ensures Survivors(els, live)[|Survivors(els[..i], live)|] == els[i]
  {
    var n := |els| - 1;
    if i < n {
      SurvivorAt(els[..n], live, i);
      assert els[..n][..i] == els[..i];
    }
  }

  lemma {:induction false} SurvivorFrom<El>(els: seq<El>, live: set<nat>, k: nat) returns (i: nat)
    requires k < |Survivors(els, live)|
    ensures i < |els| && i in live && els[i] == Survivors(els, live)[k]
    ensures k == |Survivors(els[..i], live)|
  {
    var n := |els| - 1;
    if k < |Survivors(els[..n], live)| {
      i := SurvivorFrom(els[..n], live, k);
      assert els[..n][..i] == els[..i];
    } else {
      i := n;
    }
  }

  lemma {:induction false} SurvivorsMonotone<El>(els: seq<El>, live: set<nat>, i: nat, j: nat)
    requires i < j <= |els|
    ensures |Survivors(els[..i], live)| + (if i in live then 1 else 0) <= |Survivors(els[..j], live)|
    decreases j
  {
    var n := j - 1;
    assert els[..j][..n] == els[..n];
    if i < n { SurvivorsMonotone(els, live, i, n); }
  }

  /** The survivors of distinct live elements are pairwise different. */
  lemma SurvivorsDistinct<El>(o: Ops<El>, els: seq<El>, live: set<nat>)
    requires (forall i :: i in live ==> i < |els|) && Distinct(o, els, live)
    ensures Distinct(o, Survivors(els, live), Upto(|Survivors(els, live)|))
  {
    var l := Survivors(els, live);
    forall a, b | a in Upto(|l|) && b in Upto(|l|) && a != b ensures !Eq(o, l[a], l[b]) {
      var i := SurvivorFrom(els, live, a);
      var j := SurvivorFrom(els, live, b);
    }
  }

  /** An element not yet copied by a rebuild differs from all that were. */
  lemma SurvivorsAbsent<El>(o: Ops<El>, els: seq<El>, live: set<nat>, i: nat)
    requires i < |els| && i in live && (forall j :: j in live ==> j < |els|) && Distinct(o, els, live)
    ensures Absent(o, Survivors(els[..i], live), Upto(|Survivors(els[..i], live)|), els[i])
  {
    var l := Survivors(els[..i], live);
    forall k | k in Upto(|l|) && k < |l| ensures !Eq(o, l[k], els[i]) {
      var j := SurvivorFrom(els[..i], live, k);
    }
  }

  /** Dead elements add nothing. */
  lemma {:induction false} SurvivorsNone<El>(els: seq<El>, live: set<nat>, i: nat, j: nat)
    requires i <= j <= |els| && forall k :: i <= k < j ==> k !in live
    ensures Survivors(els[..j], live) == Survivors(els[..i], live)
    ensures j == 0 ==> Survivors(els[..j], live) == []
    decreases j
  {
    if i < j {
      SurvivorsNext(els, live, j - 1);
      SurvivorsNone(els, live, i, j - 1);
    }
  }

  lemma UptoNone()
    ensures Upto(0) == {}
  {
  }

  lemma UptoNext(n: nat)
    ensures Upto(n + 1) == Upto(n) + {n}
  {
  }

  /** One more element scanned. */
  lemma SurvivorsNext<El>(els: seq<El>, live: set<nat>, i: nat)
    requires i < |els|
    ensures i in live ==> Survivors(els[..i + 1], live) == Survivors(els[..i], live) + [els[i]]
    ensures i !in live ==> Survivors(els[..i + 1], live) == Survivors(els[..i], live)
  {
    assert els[..i + 1][..i] == els[..i];
  }

  lemma {:induction false} SurvivorsPrefix<El>(els: seq<El>, live: set<nat>, i: nat)
    requires i <= |els|
    ensures |Survivors(els[..i], live)| <= |Survivors(els, live)|
    decreases |els|
  {
    if i < |els| {
      SurvivorsPrefix(els[..|els| - 1], live, i);
      assert els[..|els| - 1][..i] == els[..i];
    } else {
      assert els[..i] == els;
    }
  }

  /** The rebuilt table is well formed and has room for another element. */
  lemma RebuiltOk<El>(o: Ops<El>, d: State<El>)
    requires Ok(o, d)
    ensures Ok(o, Rebuilt(d)) && !MustRebuild(Rebuilt(d))
  {
    SurvivorsCount(d.els, d.live);
    SurvivorsDistinct(o, d.els, d.live);
  }

  /** One step of the copying loop of a rebuild. */
  lemma CopyStep<El>(o: Ops<El>, els: seq<El>, live: set<nat>, i: nat)
    requires i < |els| && (forall j :: j in live ==> j < |els|) && Distinct(o, els, live)
    ensures
      var l := Survivors(els[..i], live);
      var m := Survivors(els[..i + 1], live);
      if i in live then
        && m == l + [els[i]] && Upto(|m|) == Upto(|l|) + {|l|}
        && |l| < |Survivors(els, live)| && |l| <= i
        && Absent(o, l, Upto(|l|), els[i])
      else m == l
  {
    hide Survivors, Upto, Absent, Distinct;
    SurvivorsNext(els, live, i);
    if i in live {
      SurvivorsAbsent(o, els, live, i);
      SurvivorsPrefix(els, live, i + 1);
      UptoNext(|Survivors(els[..i], live)|);
    }
  }

  /** The live element equal to a key is unique, so any search that finds one finds `Position`. */
  lemma PositionUnique<El(!new)>(o: Ops<El>, els: seq<El>, live: set<nat>, key: El, i: nat)
    requires Lawful(o) && (forall j :: j in live ==> j < |els|) && Distinct(o, els, live)
    requires i in live && Eq(o, els[i], key)
    ensures Position(o, els, live, key, 0) == i
  {
    var j := Position(o, els, live, key, 0);
    if j != i {
      EqSym(o, els[i], key);
      EqTrans(o, els[j], key, els[i]);
    }
  }

  lemma PositionAbsent<El>(o: Ops<El>, els: seq<El>, live: set<nat>, key: El)
    requires Absent(o, els, live, key)
    ensures Position(o, els, live, key, 0) == |els|
  {
  }

  // ---- The list ----

  /** What a caller does: look up, delete, insert (writing the element only when it is new), or insert
      and always write through the returned pointer. */
  datatype Op<El> = FindOp(key: El) | DeleteOp(key: El) | InsertOp(key: El, e: El) | ReplaceOp(key: El, e: El)

  /** The caller writes only elements equal to the key it asked for. */
  predicate OpOk<El>(o: Ops<El>, op: Op<El>) {
    op.InsertOp? || op.ReplaceOp? ==> Eq(o, op.key, op.e)
  }

  function ActionOf<El>(op: Op<El>): Action {
    if op.FindOp? then Find else if op.DeleteOp? then Delete else Insert
  }

  /** What the caller sees: nothing equal to the key, the element that was there, or that it was deleted. */
  datatype Reply<El> = Miss | Hit(e: El) | Gone

  function ReplyOf<El>(els: seq<El>, op: Op<El>, found: bool, res: nat): Reply<El> {
    if !found || res >= |els| then Miss else if op.DeleteOp? then Gone else Hit(els[res])
  }

  /** The write that follows `perform`. */
  function Stored<El>(d: State<El>, op: Op<El>, found: bool, res: nat): State<El> {
    if res < |d.els| && (op.ReplaceOp? || (op.InsertOp? && !found)) then d.(els := d.els[res := op.e]) else d
  }

  /** One operation of the caller on a table. */
  function Apply<El>(o: Ops<El>, d: State<El>, op: Op<El>): (State<El>, Reply<El>) {
    var (p, found, res) := Performed(o, d, op.key, ActionOf(op));
    (Stored(p, op, found, res), ReplyOf(p.els, op, found, res))
  }

  /** Position of an element equal to the key in a list, or its length. */
  function ListPosition<El>(o: Ops<El>, l: seq<El>, key: El): (i: nat)
    ensures i <= |l|
  {
    if l == [] then 0 else if Eq(o, l[0], key) then 0 else 1 + ListPosition(o, l[1..], key)
  }

  /** The same operation on an insertion-ordered list. */
  function ListApply<El>(o: Ops<El>, l: seq<El>, op: Op<El>): (seq<El>, Reply<El>) {
    var i := ListPosition(o, l, op.key);
    var reply := if i == |l| then Miss else if op.DeleteOp? then Gone else Hit(l[i]);
    match op
    case FindOp(_) => (l, reply)
    case DeleteOp(_) => (if i < |l| then l[..i] + l[i + 1..] else l, reply)
    case InsertOp(_, e) => (if i < |l| then l else l + [e], reply)
    case ReplaceOp(_, e) => (if i < |l| then l[i := e] else l + [e], reply)
  }

  function List<El>(d: State<El>): seq<El> { Survivors(d.els, d.live) }

  /** All operations of a caller in turn, on the table and on the list. */
  function Run<El>(o: Ops<El>, d: State<El>, ops: seq<Op<El>>): (State<El>, seq<Reply<El>>)
    decreases |ops|
  {
    if ops == [] then (d, []) else
      var (d1, r) := Apply(o, d, ops[0]);
      var (d2, rs) := Run(o, d1, ops[1..]);
      (d2, [r] + rs)
  }

  function ListRun<El>(o: Ops<El>, l: seq<El>, ops: seq<Op<El>>): (seq<El>, seq<Reply<El>>)
    decreases |ops|
  {
    if ops == [] then (l, []) else
      var (l1, r) := ListApply(o, l, ops[0]);
      var (l2, rs) := ListRun(o, l1, ops[1..]);
      (l2, [r] + rs)
  }

  /** A run is extended at its end. */
  lemma {:induction false} RunNext<El>(o: Ops<El>, d: State<El>, ops: seq<Op<El>>, n: nat)
    requires n < |ops|
    ensures
      var (d1, rs) := Run(o, d, ops[..n]);
      var (d2, r) := Apply(o, d1, ops[n]);
      Run(o, d, ops[..n + 1]) == (d2, rs + [r])
    decreases n
  {
    hide Apply;
    if n == 0 {
      assert ops[..1][1..] == [] && ops[..0] == [];
      var r := Apply(o, d, ops[0]).1;
      assert [r] + [] == [] + [r];
    } else {
      var (d1, r1) := Apply(o, d, ops[0]);
      RunNext(o, d1, ops[1..], n - 1);
      assert ops[..n][1..] == ops[1..][..n - 1] && ops[..n + 1][1..] == ops[1..][..n];
      var (d2, rs) := Run(o, d1, ops[1..][..n - 1]);
      var r2 := Apply(o, d2, ops[n]).1;
      assert [r1] + (rs + [r2]) == [r1] + rs + [r2];
    }
  }

  /** At every insertion of the run the element array has fewer than `limit` entries. */
  predicate Fits<El>(o: Ops<El>, d: State<El>, ops: seq<Op<El>>, limit: nat) {
    forall n :: 0 <= n < |ops| && ActionOf(ops[n]) == Insert ==> |Run(o, d, ops[..n]).0.els| < limit
  }

  // ---- Why the table is the list ----

  lemma {:induction false} ListPositionIs<El>(o: Ops<El>, l: seq<El>, key: El, k: nat)
    requires k <= |l| && (k < |l| ==> Eq(o, l[k], key))
    requires forall j :: 0 <= j < k ==> !Eq(o, l[j], key)
    ensures ListPosition(o, l, key) == k
  {
    if k > 0 { ListPositionIs(o, l[1..], key, k - 1); }
  }

  /** The position in the table and the position in the list name the same element. */
  lemma PositionInList<El>(o: Ops<El>, els: seq<El>, live: set<nat>, key: El)
    ensures var i := Position(o, els, live, key, 0);
      ListPosition(o, Survivors(els, live), key) == |Survivors(els[..i], live)|
  {
    var i := Position(o, els, live, key, 0);
    var l := Survivors(els, live);
    var k := |Survivors(els[..i], live)|;
    if i < |els| { SurvivorAt(els, live, i); } else { assert els[..i] == els; }
    forall j | 0 <= j < k ensures !Eq(o, l[j], key) {
      var m := SurvivorFrom(els, live, j);
      if m > i { SurvivorsMonotone(els, live, i, m); }
    }
    ListPositionIs(o, l, key, k);
  }

  lemma DropFromConcat<El>(a: seq<El>, t: seq<El>, k: nat)
    requires k < |a|
    ensures (a + t)[..k] + (a + t)[k + 1..] == (a[..k] + a[k + 1..]) + t
  {
  }

  lemma {:induction false} SurvivorsDelete<El>(els: seq<El>, live: set<nat>, i: nat)
    requires i < |els| && i in live
    ensures var l, k := Survivors(els, live), |Survivors(els[..i], live)|;
      k < |l| && Survivors(els, live - {i}) == l[..k] + l[k + 1..]
  {
    var n := |els| - 1;
    SurvivorAt(els, live, i);
    var k := |Survivors(els[..i], live)|;
    var a := Survivors(els[..n], live);
    if i < n {
      assert els[..n][..i] == els[..i];
      SurvivorsDelete(els[..n], live, i);
      DropFromConcat(a, if n in live then [els[n]] else [], k);
    } else {
      SurvivorsIgnore(els[..n], live, n);
      assert (a + [els[n]])[..k] == a && (a + [els[n]])[k + 1..] == [];
    }
  }

  lemma {:induction false} SurvivorsUpdate<El>(els: seq<El>, live: set<nat>, i: nat, e: El)
    requires i < |els| && i in live
    ensures var l, k := Survivors(els, live), |Survivors(els[..i], live)|;
      k < |l| && Survivors(els[i := e], live) == l[k := e]
  {
    var n := |els| - 1;
    SurvivorAt(els, live, i);
    if i < n {
      SurvivorsUpdate(els[..n], live, i, e);
      assert els[..n][..i] == els[..i];
      assert els[i := e][..n] == els[..n][i := e];
    } else {
      assert els[i := e][..n] == els[..n];
    }
  }

  lemma SurvivorsAppend<El>(els: seq<El>, live: set<nat>, e: El)
    ensures Survivors(els + [e], live + {|els|}) == Survivors(els, live) + [e]
  {
    assert (els + [e])[..|els|] == els;
    SurvivorsIgnore(els, live, |els|);
  }

  lemma {:induction false} SurvivorsAll<El>(els: seq<El>, live: set<nat>)
    requires forall i :: 0 <= i < |els| ==> i in live
    ensures Survivors(els, live) == els
  {
    if els != [] { SurvivorsAll(els[..|els| - 1], live); }
  }

  /** A rebuild does not change the list. */
  lemma RebuiltList<El>(d: State<El>)
    ensures List(Rebuilt(d)) == List(d)
  {
    SurvivorsAll(Survivors(d.els, d.live), Upto(|Survivors(d.els, d.live)|));
  }

  /** `do_1` followed by the caller's write is the list operation. */
  lemma ActedIsList<El>(o: Ops<El>, d: State<El>, op: Op<El>)
    requires forall i :: i in d.live ==> i < |d.els|
    ensures
      var (p, found, res) := Acted(o, d, op.key, ActionOf(op));
      (List(Stored(p, op, found, res)), ReplyOf(p.els, op, found, res)) == ListApply(o, List(d), op)
  {
    hide Position, ListPosition, Survivors;
    PositionInList(o, d.els, d.live, op.key);
    var i := Position(o, d.els, d.live, op.key, 0);
    if i < |d.els| {
      SurvivorAt(d.els, d.live, i);
      if op.DeleteOp? { SurvivorsDelete(d.els, d.live, i); }
      if op.ReplaceOp? { SurvivorsUpdate(d.els, d.live, i, op.e); }
    } else {
      assert d.els[..i] == d.els;
      if op.InsertOp? || op.ReplaceOp? {
        SurvivorsAppend(d.els, d.live, op.e);
        assert (d.els + [op.key])[i := op.e] == d.els + [op.e];
      }
    }
  }

  lemma ActedOk<El(!new)>(o: Ops<El>, d: State<El>, key: El, action: Action)
    requires Lawful(o) && Ok(o, d) && (action == Insert ==> !MustRebuild(d))
    ensures Ok(o, Acted(o, d, key, action).0)
  {
    var i := Position(o, d.els, d.live, key, 0);
    if i == |d.els| && action == Insert {
      AppendDistinct(o, d.els, d.live, key);
    }
  }

  lemma AppendDistinct<El(!new)>(o: Ops<El>, els: seq<El>, live: set<nat>, key: El)
    requires Lawful(o) && (forall i :: i in live ==> i < |els|) && Distinct(o, els, live) && Absent(o, els, live, key)
    ensures Distinct(o, els + [key], live + {|els|})
  {
    var more := els + [key];
    forall i, j | i in live + {|els|} && j in live + {|els|} && i != j ensures !Eq(o, more[i], more[j]) {
      if i == |els| && Eq(o, more[i], more[j]) { EqSym(o, more[i], more[j]); }
    }
  }

  lemma StoredOk<El(!new)>(o: Ops<El>, d: State<El>, op: Op<El>, found: bool, res: nat)
    requires Lawful(o) && Ok(o, d) && OpOk(o, op)
    requires res < |d.els| ==> Eq(o, d.els[res], op.key)
    ensures Ok(o, Stored(d, op, found, res))
  {
    var e := Stored(d, op, found, res);
    if e != d {
      EqTrans(o, d.els[res], op.key, op.e);
      forall i, j | i in d.live && j in d.live && i != j ensures !Eq(o, e.els[i], e.els[j]) {
        EqSame(o, d.els[res], op.e, d.els[i]);
        EqSame(o, d.els[res], op.e, d.els[j]);
      }
    }
  }

  /** One operation keeps the table well formed and does to it what it does to the list. */
  lemma ApplyIsList<El(!new)>(o: Ops<El>, d: State<El>, op: Op<El>)
    requires Lawful(o) && Ok(o, d) && OpOk(o, op)
    ensures Ok(o, Apply(o, d, op).0)
    ensures var (d', r) := Apply(o, d, op); (List(d'), r) == ListApply(o, List(d), op)
  {
    hide Position, ListPosition, Survivors, Rebuilt, Distinct;
    var action := ActionOf(op);
    RebuiltOk(o, d);
    RebuiltList(d);
    var p := Prepared(d, action);
    ActedIsList(o, p, op);
    ActedOk(o, p, op.key, action);
    ResIsEqual(o, p, op.key, action);
    var (a, found, res) := Acted(o, p, op.key, action);
    StoredOk(o, a, op, found, res);
  }

  lemma ResIsEqual<El(!new)>(o: Ops<El>, d: State<El>, key: El, action: Action)
    requires Lawful(o)
    ensures var (a, found, res) := Acted(o, d, key, action); res < |a.els| ==> Eq(o, a.els[res], key)
  {
    EqRefl(o, key);
  }

  /** Every run of a table, from any reachable state and across any number of rebuilds, gives the
      replies of the list and ends with the list's elements in the list's order. */
  lemma {:induction false} RunIsList<El(!new)>(o: Ops<El>, d: State<El>, ops: seq<Op<El>>)
    requires Lawful(o) && Ok(o, d) && forall i :: 0 <= i < |ops| ==> OpOk(o, ops[i])
    ensures Ok(o, Run(o, d, ops).0)
    ensures var (d', rs) := Run(o, d, ops); (List(d'), rs) == ListRun(o, List(d), ops)
    decreases |ops|
  {
    hide Apply, ListApply, Ok;
    if ops != [] {
      ApplyIsList(o, d, ops[0]);
      RunIsList(o, Apply(o, d, ops[0]).0, ops[1..]);
    }
  }

  // ---- What rebuilding costs ----

  /** How many element-array entries the rebuilds of a run scan, and how many new elements it inserts. */
  function Scanned<El>(o: Ops<El>, d: State<El>, ops: seq<Op<El>>): nat
    decreases |ops|
  {
    if ops == [] then 0 else
      (if ActionOf(ops[0]) == Insert && MustRebuild(d) then |d.els| else 0)
      + Scanned(o, Apply(o, d, ops[0]).0, ops[1..])
  }

  function Inserted<El>(o: Ops<El>, d: State<El>, ops: seq<Op<El>>): nat
    decreases |ops|
  {
    if ops == [] then 0 else
      (if ActionOf(ops[0]) == Insert && Apply(o, d, ops[0]).1 == Miss then 1 else 0)
      + Inserted(o, Apply(o, d, ops[0]).0, ops[1..])
  }

  /** After a rebuild at least a quarter of the slots must be filled before the next one. */
  lemma RebuiltRoom<El>(o: Ops<El>, d: State<El>)
    requires Ok(o, d)
    ensures var r := Rebuilt(d); |r.els| + 8 * r.groups / 4 <= 8 * r.groups / 2 - 1
  {
    SurvivorsCount(d.els, d.live);
  }

  /** Scanning already paid for by the insertions since the last rebuild. */
  function Credit<El>(d: State<El>): nat {
    if 2 * |d.els| >= 4 * d.groups - 1 then 2 * |d.els| - (4 * d.groups - 1) else 0
  }

  lemma StepIsPaid<El(!new)>(o: Ops<El>, d: State<El>, op: Op<El>)
    requires Lawful(o) && Ok(o, d) && OpOk(o, op)
    ensures
      var (d', r) := Apply(o, d, op);
      var insert := ActionOf(op) == Insert;
      (if insert && MustRebuild(d) then |d.els| else 0) + Credit(d')
        <= (if insert && r == Miss then 2 else 0) + Credit(d)
  {
    hide Position, Survivors, Distinct;
    RebuiltRoom(o, d);
  }

  /** Over any run, rebuilds scan at most two entries for every new element, beyond what the elements
      already in the table have paid for. */
  lemma {:induction false} RebuildsAreAmortised<El(!new)>(o: Ops<El>, d: State<El>, ops: seq<Op<El>>)
    requires Lawful(o) && Ok(o, d) && forall i :: 0 <= i < |ops| ==> OpOk(o, ops[i])
    ensures Scanned(o, d, ops) <= 2 * Inserted(o, d, ops) + Credit(d)
    ensures d.els == [] ==> Scanned(o, d, ops) <= 2 * Inserted(o, d, ops)
    decreases |ops|
  {
    hide Apply, ListApply, Ok, Credit, MustRebuild;
    CreditOfEmpty(o, d);
    if ops != [] {
      ApplyIsList(o, d, ops[0]);
      StepIsPaid(o, d, ops[0]);
      RebuildsAreAmortised(o, Apply(o, d, ops[0]).0, ops[1..]);
    }
  }

  lemma CreditOfEmpty<El>(o: Ops<El>, d: State<El>)
    requires Ok(o, d)
    ensures d.els == [] ==> Credit(d) == 0
  {
  }
}
