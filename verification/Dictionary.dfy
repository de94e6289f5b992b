/** What a caller learns from a table by its replies alone: both tables are the same dictionary. */
module Dictionary {
  import opened BitMath
  import D = Dense
  import opened Directory
  import opened Extendible
  import opened IxExact
  import opened IxRuns
  import opened Keys
  import opened Probe
  import opened SplitExact

  /** The reply to a lookup of `k` after operation `op`, whose reply is `reply`, from the reply before it. */
  ghost predicate Tells<El>(
    o: Ops<El>, op: D.Op<El>, reply: D.Reply<El>, k: El, before: D.Reply<El>, after: D.Reply<El>)
  {
    if !Eq(o, k, op.key) then after == before else
      match op
      case FindOp(_) => reply == before && after == before
      case DeleteOp(_) => after == D.Miss && reply == (if before == D.Miss then D.Miss else D.Gone)
      case InsertOp(_, e) => reply == before && after == (if before == D.Miss then D.Hit(e) else before)
      case ReplaceOp(_, e) => reply == before && after == D.Hit(e)
  }

  // ---- Sets ----

  /** No two elements are equal. */
  ghost predicate Apart<El(!new)>(o: Ops<El>, c: set<El>) {
    forall a, b :: a in c && b in c && a != b ==> !Eq(o, a, b)
  }

  ghost function Lookup<El>(o: Ops<El>, c: set<El>, k: El): D.Reply<El> {
    SetApply(o, c, D.FindOp(k)).1
  }

  /** The element that a lookup finds. */
  lemma Finds<El(!new)>(o: Ops<El>, c: set<El>, k: El, e: El)
    requires Lawful(o) && Apart(o, c) && e in c && Eq(o, e, k)
    ensures Present(o, c, k) && The(o, c, k) == e && Lookup(o, c, k) == D.Hit(e)
  {
    hide Lawful;
    var t := The(o, c, k);
    EqSym(o, e, k);
    EqTrans(o, t, k, e);
  }

  lemma Misses<El>(o: Ops<El>, c: set<El>, k: El)
    requires forall e :: e in c ==> !Eq(o, e, k)
    ensures !Present(o, c, k) && Lookup(o, c, k) == D.Miss
  {
  }

  /** A lookup finds the same in a set that has the same elements equal to the key. */
  lemma LookupSame<El(!new)>(o: Ops<El>, c: set<El>, d: set<El>, k: El)
    requires Lawful(o) && Apart(o, c) && Apart(o, d)
    requires forall e :: Eq(o, e, k) ==> (e in c <==> e in d)
    ensures Lookup(o, c, k) == Lookup(o, d, k)
  {
    hide Lawful, Apart, Lookup;
    if e :| e in c && Eq(o, e, k) {
      Finds(o, c, k, e);
      Finds(o, d, k, e);
    } else {
      Misses(o, c, k);
      Misses(o, d, k);
    }
  }

  /** An operation keeps the elements different from each other. */
  lemma StaysApart<El(!new)>(o: Ops<El>, c: set<El>, op: D.Op<El>)
    requires Lawful(o) && Apart(o, c) && D.OpOk(o, op)
    ensures Apart(o, SetApply(o, c, op).0)
  {
    hide Lawful;
    var d := SetApply(o, c, op).0;
    forall a, b | a in d && b in d && a != b ensures !Eq(o, a, b) {
      if op.InsertOp? || op.ReplaceOp? {
        if a == op.e && a !in c { NewIsApart(o, c, op, b); }
        if b == op.e && b !in c { NewIsApart(o, c, op, a); }
      }
    }
  }

  lemma NewIsApart<El(!new)>(o: Ops<El>, c: set<El>, op: D.Op<El>, b: El)
    requires Lawful(o) && Apart(o, c) && D.OpOk(o, op) && (op.InsertOp? || op.ReplaceOp?)
    requires b in SetApply(o, c, op).0 && b in c && op.e !in c && op.e in SetApply(o, c, op).0
    ensures !Eq(o, op.e, b) && !Eq(o, b, op.e)
  {
    hide Lawful;
    EqSame(o, op.key, op.e, b);
    if Eq(o, b, op.key) { Finds(o, c, op.key, b); }
    if Eq(o, op.key, b) { EqSym(o, op.key, b); Finds(o, c, op.key, b); }
  }

  /** The laws of a dictionary hold of the set. */
  lemma SetTells<El(!new)>(o: Ops<El>, c: set<El>, op: D.Op<El>, k: El)
    requires Lawful(o) && Apart(o, c) && D.OpOk(o, op)
    ensures var (d, reply) := SetApply(o, c, op);
      Apart(o, d) && Tells(o, op, reply, k, Lookup(o, c, k), Lookup(o, d, k))
  {
    StaysApart(o, c, op);
    if !Eq(o, k, op.key) {
      OtherKeys(o, c, op, k);
    } else {
      SameKey(o, c, op, k);
    }
  }

  lemma OtherKeys<El(!new)>(o: Ops<El>, c: set<El>, op: D.Op<El>, k: El)
    requires Lawful(o) && Apart(o, c) && D.OpOk(o, op) && Apart(o, SetApply(o, c, op).0) && !Eq(o, k, op.key)
    ensures Lookup(o, SetApply(o, c, op).0, k) == Lookup(o, c, k)
  {
    hide Lawful, Apart, Lookup;
    var d := SetApply(o, c, op).0;
    forall e | Eq(o, e, k) ensures e in c <==> e in d {
      EqSym(o, e, k);
      if Eq(o, e, op.key) { EqTrans(o, k, e, op.key); }
      if (op.InsertOp? || op.ReplaceOp?) && e == op.e { EqSym(o, op.key, op.e); }
    }
    LookupSame(o, c, d, k);
  }

  lemma SameKey<El(!new)>(o: Ops<El>, c: set<El>, op: D.Op<El>, k: El)
    requires Lawful(o) && Apart(o, c) && D.OpOk(o, op) && Apart(o, SetApply(o, c, op).0) && Eq(o, k, op.key)
    ensures var (d, reply) := SetApply(o, c, op); Tells(o, op, reply, k, Lookup(o, c, k), Lookup(o, d, k))
  {
    hide Lawful, Apart, Lookup;
    var d := SetApply(o, c, op).0;
    EqSym(o, k, op.key);
    if Present(o, c, op.key) {
      var t := The(o, c, op.key);
      EqTrans(o, t, op.key, k);
      Finds(o, c, k, t);
      if op.DeleteOp? { OnlyOne(o, c, k, t); Misses(o, d, k); }
      if op.FindOp? || op.InsertOp? { Finds(o, d, k, t); }
    } else {
      forall e | e in c ensures !Eq(o, e, k) { if Eq(o, e, k) { EqTrans(o, e, k, op.key); } }
      Misses(o, c, k);
      if op.FindOp? || op.DeleteOp? { Misses(o, d, k); }
    }
    if op.ReplaceOp? || (op.InsertOp? && !Present(o, c, op.key)) {
      EqSym(o, op.key, op.e);
      EqTrans(o, op.e, op.key, k);
      Finds(o, d, k, op.e);
    }
  }

  lemma OnlyOne<El(!new)>(o: Ops<El>, c: set<El>, k: El, t: El)
    requires Lawful(o) && Apart(o, c) && t in c && Eq(o, t, k)
    ensures forall e :: e in c - {t} ==> !Eq(o, e, k)
  {
    hide Lawful;
    forall e | e in c - {t} ensures !Eq(o, e, k) {
      if Eq(o, e, k) { EqSym(o, t, k); EqTrans(o, e, k, t); }
    }
  }

  // ---- Lists ----

  lemma {:induction false} PositionIs<El>(o: Ops<El>, l: seq<El>, k: El)
    ensures var i := D.ListPosition(o, l, k);
      (i < |l| ==> Eq(o, l[i], k)) && (i == |l| ==> forall j :: 0 <= j < |l| ==> !Eq(o, l[j], k))
  {
    if l != [] { PositionIs(o, l[1..], k); }
  }

  lemma ListApart<El(!new)>(o: Ops<El>, l: seq<El>)
    requires Lawful(o) && Distinct(o, l, D.Upto(|l|))
    ensures Apart(o, SeqSet(l)) && forall i, j :: 0 <= i < j < |l| ==> l[i] != l[j]
  {
    hide Lawful;
    forall i, j | 0 <= i < j < |l| ensures l[i] != l[j] {
      EqRefl(o, l[i]);
      assert i in D.Upto(|l|) && j in D.Upto(|l|);
    }
    forall a, b | a in SeqSet(l) && b in SeqSet(l) && a != b ensures !Eq(o, a, b) {
      var i :| 0 <= i < |l| && l[i] == a;
      var j :| 0 <= j < |l| && l[j] == b;
      assert i in D.Upto(|l|) && j in D.Upto(|l|);
    }
  }

  lemma SetOfChanged<El>(l: seq<El>, i: nat, e: El)
    requires forall a, b :: 0 <= a < b < |l| ==> l[a] != l[b]
    ensures SeqSet(l + [e]) == SeqSet(l) + {e}
    ensures i < |l| ==> SeqSet(l[..i] + l[i + 1..]) == SeqSet(l) - {l[i]}
    ensures i < |l| ==> SeqSet(l[i := e]) == SeqSet(l) - {l[i]} + {e}
  {
    AddedTo(l, e);
    if i < |l| {
      Without(l, i);
      var (a, b) := (l[..i], l[i + 1..]);
      assert l[i := e] == a + [e] + b;
      JoinedSet(a + [e], b);
      JoinedSet(a, b);
      AddedTo(a, e);
    }
  }

  lemma AddedTo<El>(l: seq<El>, e: El)
    ensures SeqSet(l + [e]) == SeqSet(l) + {e}
  {
    JoinedSet(l, [e]);
    assert [e][0] == e;
  }

  lemma InSeqSet<El>(l: seq<El>, e: El)
    ensures e in SeqSet(l) <==> e in l
  {
    if e in l {
      var i :| 0 <= i < |l| && l[i] == e;
    }
  }

  lemma JoinedSet<El>(a: seq<El>, b: seq<El>)
    ensures SeqSet(a + b) == SeqSet(a) + SeqSet(b)
  {
    hide SeqSet;
    var (u, v) := (SeqSet(a + b), SeqSet(a) + SeqSet(b));
    forall e | e in u || e in v ensures e in u && e in v {
      InSeqSet(a + b, e);
      InSeqSet(a, e);
      InSeqSet(b, e);
    }
  }

  lemma Without<El>(l: seq<El>, i: nat)
    requires i < |l| && forall a, b :: 0 <= a < b < |l| ==> l[a] != l[b]
    ensures SeqSet(l[..i] + l[i + 1..]) == SeqSet(l) - {l[i]}
  {
    var (a, b) := (l[..i], l[i + 1..]);
    assert l == a + [l[i]] + b;
    JoinedSet(a + [l[i]], b);
    JoinedSet(a, b);
    AddedTo(a, l[i]);
    assert l[i] !in a && l[i] !in b;
  }

  /** A list of different elements does what the set of them does. */
  lemma ListIsSet<El(!new)>(o: Ops<El>, l: seq<El>, op: D.Op<El>)
    requires Lawful(o) && Distinct(o, l, D.Upto(|l|))
    ensures var (m, reply) := D.ListApply(o, l, op); (SeqSet(m), reply) == SetApply(o, SeqSet(l), op)
  {
    hide Lawful, D.ListPosition, Distinct, D.Upto, Apart;
    var (c, i) := (SeqSet(l), D.ListPosition(o, l, op.key));
    PositionIs(o, l, op.key);
    ListApart(o, l);
    if i < |l| { Finds(o, c, op.key, l[i]); } else { Misses(o, c, op.key); }
    if op.InsertOp? || op.ReplaceOp? { SetOfChanged(l, i, op.e); } else { SetOfChanged(l, i, op.key); }
  }

  /** So does ihtab: it is the dictionary, and the set of its elements is the one that ixhtab would hold. */
  lemma DenseIsSet<El(!new)>(o: Ops<El>, d: D.State<El>, op: D.Op<El>)
    requires Lawful(o) && D.Ok(o, d) && D.OpOk(o, op)
    ensures var (e, reply) := D.Apply(o, d, op);
      D.Ok(o, e) && (SeqSet(D.List(e)), reply) == SetApply(o, SeqSet(D.List(d)), op)
    ensures Apart(o, SeqSet(D.List(d)))
  {
    hide Lawful, D.Apply, D.ListApply, SetApply, SeqSet, Apart, D.Survivors;
    D.ApplyIsList(o, d, op);
    D.SurvivorsDistinct(o, d.els, d.live);
    ListIsSet(o, D.List(d), op);
    ListApart(o, D.List(d));
  }

  /** The laws of a dictionary hold of ihtab. */
  lemma DenseTells<El(!new)>(o: Ops<El>, d: D.State<El>, op: D.Op<El>, k: El)
    requires Lawful(o) && D.Ok(o, d) && D.OpOk(o, op)
    ensures
      var (e, reply) := D.Apply(o, d, op);
      Tells(o, op, reply, k, D.Apply(o, d, D.FindOp(k)).1, D.Apply(o, e, D.FindOp(k)).1)
  {
    hide Lawful, D.Apply, SetApply, SeqSet, Apart, D.List, D.Ok, Tells;
    var e := D.Apply(o, d, op).0;
    DenseIsSet(o, d, op);
    DenseIsSet(o, d, D.FindOp(k));
    DenseIsSet(o, e, D.FindOp(k));
    SetTells(o, SeqSet(D.List(d)), op, k);
  }

  /** Every run of ihtab gives the replies of the set, and so those of ixhtab as long as that is a set. */
  lemma {:induction false} DenseRunIsSet<El(!new)>(o: Ops<El>, d: D.State<El>, ops: seq<D.Op<El>>)
    requires Lawful(o) && D.Ok(o, d) && forall i :: 0 <= i < |ops| ==> D.OpOk(o, ops[i])
    ensures var (e, rs) := D.Run(o, d, ops); (SeqSet(D.List(e)), rs) == SetRun(o, SeqSet(D.List(d)), ops)
    decreases |ops|
  {
    hide Lawful, D.Apply, SetApply, SeqSet, D.List, D.Ok;
    if ops != [] {
      DenseIsSet(o, d, ops[0]);
      DenseRunIsSet(o, D.Apply(o, d, ops[0]).0, ops[1..]);
    }
  }

  // ---- ixhtab ----

  lemma SoundApart<El(!new)>(o: Ops<El>, s: State<El>)
    requires Lawful(o) && Sound(o, s)
    ensures Apart(o, Contents(s.bins))
  {
    hide Lawful, Sound, BinSet, Contents, Low, Pow2;
    var c := Contents(s.bins);
    forall a, b | a in c && b in c && a != b ensures !Eq(o, a, b) {
      var i := FromContents(s.bins, a);
      var j := FromContents(s.bins, b);
      if Eq(o, a, b) { SameBin(o, s, a, b, i, j); }
    }
  }

  /** Two elements of a sound table are not equal. */
  lemma SameBin<El(!new)>(o: Ops<El>, s: State<El>, a: El, b: El, i: nat, j: nat)
    requires Lawful(o) && Sound(o, s) && i < |s.bins| && j < |s.bins|
    requires a in BinSet(s.bins[i]) && b in BinSet(s.bins[j]) && Eq(o, a, b)
    ensures a == b
  {
    hide Lawful, Sound, Contents, Low, Pow2;
    EqRefl(o, b);
    OtherBin(o, s, b, i, a);
    OtherBin(o, s, b, j, b);
    SoundBin(o, s, i);
  }

  /** The laws of a dictionary hold of ixhtab: of every operation on a sound table that splits no bin or whose
      split is harmless. */
  lemma IxTells<El(!new)>(o: Ops<El>, s: State<El>, op: D.Op<El>, rounds: nat, k: El)
    requires Lawful(o) && Sound(o, s) && D.OpOk(o, op) && Ready(o, s, op.key, D.ActionOf(op), rounds)
    requires Splits(o, s, op.key, D.ActionOf(op)) ==> Harmless(o, s, Route(s, Hash(o, op.key)))
    ensures
      var (r, reply) := Apply(o, s, op, rounds);
      && Ready(o, s, k, Find, 0) && Ready(o, r, k, Find, 0)
      && Tells(o, op, reply, k, Apply(o, s, D.FindOp(k), 0).1, Apply(o, r, D.FindOp(k), 0).1)
  {
    hide Lawful, Sound, Apply, SetApply, Contents, Harmless, Ready, Tells, Apart, Low, Pow2;
    SetIffHarmless(o, s, op, rounds);
    var r := Apply(o, s, op, rounds).0;
    ApplyWithoutSplit(o, s, D.FindOp(k), 0);
    ApplyWithoutSplit(o, r, D.FindOp(k), 0);
    SoundApart(o, s);
    SetTells(o, Contents(s.bins), op, k);
  }
}
