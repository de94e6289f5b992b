/** The open-addressing index over a dense element sequence, as a value: what a slot may hold, the
    probe-path invariant, and why a walk that stops at a group with an EMPTY slot has seen every
    element that could match.  All three tables are proved against this theory. */
module Probe {
  import opened Keys

  /** A slot never used, a slot whose element was deleted, or a slot that names element `ix`. */
  datatype Slot = Empty | Tomb(tag: nat) | Live(tag: nat, ix: nat)

  /** `at` names the slot of every live element. */
  datatype Index<El> = Index(slots: seq<Slot>, els: seq<El>, at: map<nat, nat>)

  /** The seven-bit fingerprint: the top bits of a 64-bit hash. */
  function H7(h: nat): (t: nat)
    ensures t < 128
  {
    h / 0x200_0000_0000_0000 % 128
  }

  /** The tag is made of the seven top bits of a 64-bit hash. */
  lemma TagIsTop(h: nat)
    requires h < 0x1_0000_0000_0000_0000
    ensures h == H7(h) * 0x200_0000_0000_0000 + h % 0x200_0000_0000_0000
  {
  }

  function Home(h: nat, groups: nat): (g: nat)
    requires groups > 0
    ensures g < groups
  {
    h / 8 % groups
  }

  /** Eight hashes in a row share a home: the number of their octet, modulo the number of groups. */
  lemma HomeOf(q: nat, r: nat, groups: nat)
    requires groups > 0 && r < 8
    ensures Home(8 * q + r, groups) == q % groups
  {
    assert (8 * q + r) / 8 == q;
  }

  /** Steps of the cyclic walk from `home` to group `q`. */
  function Dist(home: nat, q: nat, groups: nat): (d: nat)
    requires home < groups && q < groups
    ensures d < groups
  {
    if q >= home then q - home else q + groups - home
  }

  predicate Shape(slots: seq<Slot>) {
    |slots| > 0 && |slots| % 8 == 0
  }

  /** Group `g` has no EMPTY slot, so a walk goes past it. */
  predicate Full(slots: seq<Slot>, g: nat)
    requires 8 * g + 8 <= |slots|
  {
    forall s :: 8 * g <= s < 8 * g + 8 ==> slots[s] != Empty
  }

  /** The walk from `home` reaches group `q`. */
  predicate Path(slots: seq<Slot>, home: nat, q: nat)
    requires Shape(slots) && home < |slots| / 8 && q < |slots| / 8
  {
    forall g :: 0 <= g < |slots| / 8 && Dist(home, g, |slots| / 8) < Dist(home, q, |slots| / 8) ==> Full(slots, g)
  }

  predicate SlotOk<El>(o: Ops<El>, x: Index<El>, s: nat)
    requires Shape(x.slots) && s < |x.slots|
  {
    x.slots[s].Live? ==>
      var i := x.slots[s].ix;
      && i < |x.els| && i in x.at && x.at[i] == s
      && x.slots[s].tag == H7(Hash(o, x.els[i]))
      && Path(x.slots, Home(Hash(o, x.els[i]), |x.slots| / 8), s / 8)
  }

  predicate Named<El>(x: Index<El>, i: nat)
    requires i in x.at
  {
    x.at[i] < |x.slots| && x.slots[x.at[i]].Live? && x.slots[x.at[i]].ix == i
  }

  predicate Distinct<El>(o: Ops<El>, els: seq<El>, live: set<nat>)
    requires forall i :: i in live ==> i < |els|
  {
    forall i, j :: i in live && j in live && i != j ==> !Eq(o, els[i], els[j])
  }

  /** How many slots are not EMPTY. */
  function Used(slots: seq<Slot>): (n: nat) {
    if slots == [] then 0 else Used(slots[..|slots| - 1]) + if slots[|slots| - 1].Empty? then 0 else 1
  }

  predicate Slots<El>(o: Ops<El>, x: Index<El>) {
    && Shape(x.slots)
    && (forall s :: 0 <= s < |x.slots| ==> SlotOk(o, x, s))
    && (forall i :: i in x.at ==> i < |x.els| && Named(x, i))
  }

  /** The index invariant. */
  predicate Inv<El>(o: Ops<El>, x: Index<El>) {
    && Slots(o, x)
    && Distinct(o, x.els, x.at.Keys)
    && Used(x.slots) <= |x.els|
  }

  // ---- Counting ----

  lemma {:induction false} UsedUpdate(slots: seq<Slot>, s: nat, v: Slot)
    requires s < |slots| && !v.Empty?
    ensures Used(slots[s := v]) == Used(slots) + if slots[s].Empty? then 1 else 0
  {
    var n := |slots| - 1;
    var u := slots[s := v];
    if s < n {
      UsedUpdate(slots[..n], s, v);
      assert u[..n] == slots[..n][s := v];
    } else {
      assert u[..n] == slots[..n];
    }
  }

  lemma {:induction false} UsedAll(slots: seq<Slot>)
    requires forall s :: 0 <= s < |slots| ==> !slots[s].Empty?
    ensures Used(slots) == |slots|
  {
    if slots != [] { UsedAll(slots[..|slots| - 1]); }
  }

  lemma {:induction false} UsedNone(slots: seq<Slot>)
    requires forall s :: 0 <= s < |slots| ==> slots[s].Empty?
    ensures Used(slots) == 0
  {
    if slots != [] { UsedNone(slots[..|slots| - 1]); }
  }

  /** An index that is not full has a group where every walk stops. */
  lemma SomeGroupStops(slots: seq<Slot>)
    requires Shape(slots) && Used(slots) < |slots|
    ensures exists g :: 0 <= g < |slots| / 8 && !Full(slots, g)
  {
    if forall s :: 0 <= s < |slots| ==> !slots[s].Empty? {
      UsedAll(slots);
    } else {
      var s :| 0 <= s < |slots| && slots[s].Empty?;
      assert !Full(slots, s / 8);
    }
  }

  // ---- Searching ----

  /** No live slot of group `g` names an element equal to `key`. */
  predicate NoMatch<El>(o: Ops<El>, x: Index<El>, key: El, g: nat)
    requires 8 * g + 8 <= |x.slots|
  {
    forall s :: 8 * g <= s < 8 * g + 8 && x.slots[s].Live? && x.slots[s].ix < |x.els| ==>
      !Eq(o, x.els[x.slots[s].ix], key)
  }

  predicate Absent<El>(o: Ops<El>, els: seq<El>, live: set<nat>, key: El) {
    forall i :: i in live && i < |els| ==> !Eq(o, els[i], key)
  }

  /** An element equal to the key lies no further along the walk than a group where the walk stops. */
  lemma MatchIsNear<El(!new)>(o: Ops<El>, x: Index<El>, key: El, q: nat, i: nat)
    requires Lawful(o) && Slots(o, x) && q < |x.slots| / 8 && !Full(x.slots, q)
    requires i in x.at && Eq(o, x.els[i], key)
    ensures x.at[i] < |x.slots|
    ensures
      var groups := |x.slots| / 8;
      var home := Home(Hash(o, key), groups);
      Dist(home, x.at[i] / 8, groups) <= Dist(home, q, groups)
  {
    hide Home, H7;
    EqSym(o, x.els[i], key);
    assert Named(x, i) && SlotOk(o, x, x.at[i]);
  }

  /** A walk that found nothing up to group `q`, where it stops, has proved the key absent. */
  lemma WalkProvesAbsent<El(!new)>(o: Ops<El>, x: Index<El>, key: El, q: nat)
    requires Lawful(o) && Slots(o, x) && q < |x.slots| / 8 && !Full(x.slots, q)
    requires
      var groups := |x.slots| / 8;
      var home := Home(Hash(o, key), groups);
      forall g :: 0 <= g < groups && Dist(home, g, groups) <= Dist(home, q, groups) ==> NoMatch(o, x, key, g)
    ensures Absent(o, x.els, x.at.Keys, key)
  {
    hide Home, H7, Full, Path;
    forall i | i in x.at.Keys && i < |x.els| ensures !Eq(o, x.els[i], key) {
      assert Named(x, i);
      if Eq(o, x.els[i], key) { MatchIsNear(o, x, key, q, i); }
    }
  }

  /** A walk for `key` that has passed every group before `g`. */
  predicate Walked<El>(o: Ops<El>, x: Index<El>, key: El, g: nat) {
    && Shape(x.slots) && g < |x.slots| / 8
    && var groups := |x.slots| / 8;
       var home := Home(Hash(o, key), groups);
       forall q :: 0 <= q < groups && Dist(home, q, groups) < Dist(home, g, groups) ==>
         Full(x.slots, q) && NoMatch(o, x, key, q)
  }

  /** How far along its walk group `g` is. */
  function Steps<El>(o: Ops<El>, x: Index<El>, key: El, g: nat): (d: nat)
    requires Shape(x.slots) && g < |x.slots| / 8
  {
    Dist(Home(Hash(o, key), |x.slots| / 8), g, |x.slots| / 8)
  }

  lemma WalkStarts<El>(o: Ops<El>, x: Index<El>, key: El)
    requires Shape(x.slots)
    ensures Walked(o, x, key, Home(Hash(o, key), |x.slots| / 8))
  {
    hide Home;
  }

  lemma WalkPath<El>(o: Ops<El>, x: Index<El>, key: El, g: nat)
    requires Walked(o, x, key, g)
    ensures Path(x.slots, Home(Hash(o, key), |x.slots| / 8), g)
  {
    hide Home, Full, NoMatch;
  }

  /** A full group is passed, and the walk comes closer to a group where it stops: every probe ends. */
  lemma WalkStep<El>(o: Ops<El>, x: Index<El>, key: El, g: nat)
    requires Walked(o, x, key, g) && Full(x.slots, g) && NoMatch(o, x, key, g)
    requires Used(x.slots) < |x.slots|
    ensures
      var next := if g + 1 == |x.slots| / 8 then 0 else g + 1;
      Walked(o, x, key, next) && Steps(o, x, key, next) == Steps(o, x, key, g) + 1 < |x.slots| / 8
  {
    hide Home, Full, NoMatch;
    SomeGroupStops(x.slots);
    var stop :| 0 <= stop < |x.slots| / 8 && !Full(x.slots, stop);
    assert Steps(o, x, key, g) < Steps(o, x, key, stop);
  }

  lemma WalkStops<El(!new)>(o: Ops<El>, x: Index<El>, key: El, g: nat)
    requires Lawful(o) && Slots(o, x) && Walked(o, x, key, g) && !Full(x.slots, g) && NoMatch(o, x, key, g)
    ensures Absent(o, x.els, x.at.Keys, key)
  {
    hide Home, Full, NoMatch;
    WalkProvesAbsent(o, x, key, g);
  }

  // ---- Changing ----

  /** Element `key` appended to the sequence and named by slot `s`. */
  function Place<El>(x: Index<El>, s: nat, tag: nat, key: El): (y: Index<El>)
    requires s < |x.slots|
  {
    Index(x.slots[s := Live(tag, |x.els|)], x.els + [key], x.at[|x.els| := s])
  }

  /** Slot `s` turned into a tombstone. */
  function Erase<El>(x: Index<El>, s: nat, tag: nat): (y: Index<El>)
    requires s < |x.slots| && x.slots[s].Live?
  {
    Index(x.slots[s := Tomb(tag)], x.els, x.at - {x.slots[s].ix})
  }

  /** Filling slots never cuts a path. */
  lemma PathKept(slots: seq<Slot>, s: nat, v: Slot, home: nat, q: nat)
    requires Shape(slots) && s < |slots| && !v.Empty? && home < |slots| / 8 && q < |slots| / 8
    requires Path(slots, home, q)
    ensures Path(slots[s := v], home, q)
  {
    var n := slots[s := v];
    forall g | 0 <= g < |slots| / 8 && Dist(home, g, |slots| / 8) < Dist(home, q, |slots| / 8)
      ensures Full(n, g)
    {
      assert Full(slots, g);
    }
  }

  lemma PlaceSlotOk<El>(o: Ops<El>, x: Index<El>, s: nat, key: El, r: nat)
    requires Slots(o, x) && s < |x.slots| && !x.slots[s].Live? && r < |x.slots|
    requires Path(x.slots, Home(Hash(o, key), |x.slots| / 8), s / 8)
    ensures SlotOk(o, Place(x, s, H7(Hash(o, key)), key), r)
  {
    hide Home, H7, Path;
    var y := Place(x, s, H7(Hash(o, key)), key);
    var v := Live(H7(Hash(o, key)), |x.els|);
    if r == s {
      PathKept(x.slots, s, v, Home(Hash(o, key), |x.slots| / 8), s / 8);
    } else if x.slots[r].Live? {
      assert SlotOk(o, x, r);
      var i := x.slots[r].ix;
      PathKept(x.slots, s, v, Home(Hash(o, x.els[i]), |x.slots| / 8), r / 8);
    }
  }

  /** Writing a new element into a free slot on its own path keeps the invariant: into an EMPTY slot of
      the group where the walk stopped, or into any tombstone passed on the way. */
  lemma PlaceKeeps<El(!new)>(o: Ops<El>, x: Index<El>, s: nat, key: El)
    requires Lawful(o) && Inv(o, x) && s < |x.slots| && !x.slots[s].Live?
    requires Path(x.slots, Home(Hash(o, key), |x.slots| / 8), s / 8)
    requires Absent(o, x.els, x.at.Keys, key)
    ensures Inv(o, Place(x, s, H7(Hash(o, key)), key))
    ensures Used(Place(x, s, H7(Hash(o, key)), key).slots) == Used(x.slots) + if x.slots[s].Empty? then 1 else 0
  {
    hide Home, H7, Path, SlotOk;
    var y := Place(x, s, H7(Hash(o, key)), key);
    forall r | 0 <= r < |y.slots| ensures SlotOk(o, y, r) { PlaceSlotOk(o, x, s, key, r); }
    forall i | i in y.at ensures i < |y.els| && Named(y, i) {
      if i != |x.els| { assert Named(x, i); }
    }
    UsedUpdate(x.slots, s, y.slots[s]);
    PlaceDistinct(o, x, key);
    assert y.at.Keys == x.at.Keys + {|x.els|};
  }

  lemma PlaceDistinct<El(!new)>(o: Ops<El>, x: Index<El>, key: El)
    requires Lawful(o) && (forall i :: i in x.at ==> i < |x.els|) && Distinct(o, x.els, x.at.Keys)
    requires Absent(o, x.els, x.at.Keys, key)
    ensures Distinct(o, x.els + [key], x.at.Keys + {|x.els|})
  {
    var els := x.els + [key];
    forall i, j | i in x.at.Keys + {|x.els|} && j in x.at.Keys + {|x.els|} && i != j
      ensures !Eq(o, els[i], els[j])
    {
      if i == |x.els| && Eq(o, els[i], els[j]) { EqSym(o, els[i], els[j]); }
    }
  }

  lemma EraseKeeps<El(!new)>(o: Ops<El>, x: Index<El>, s: nat, tag: nat)
    requires Inv(o, x) && s < |x.slots| && x.slots[s].Live?
    ensures Inv(o, Erase(x, s, tag))
    ensures Used(Erase(x, s, tag).slots) == Used(x.slots)
    ensures Erase(x, s, tag).at.Keys == x.at.Keys - {x.slots[s].ix}
  {
    hide Home, H7, Path;
    var y := Erase(x, s, tag);
    assert SlotOk(o, x, s);
    forall r | 0 <= r < |y.slots| ensures SlotOk(o, y, r) {
      if r != s && x.slots[r].Live? {
        assert SlotOk(o, x, r);
        PathKept(x.slots, s, Tomb(tag), Home(Hash(o, x.els[x.slots[r].ix]), |x.slots| / 8), r / 8);
      }
    }
    forall i | i in y.at ensures i < |y.els| && Named(y, i) { assert Named(x, i); }
    UsedUpdate(x.slots, s, Tomb(tag));
  }

  /** Overwriting an element by an equal one keeps the invariant. */
  lemma RewriteKeeps<El(!new)>(o: Ops<El>, x: Index<El>, i: nat, e: El)
    requires Lawful(o) && Inv(o, x) && i < |x.els| && Eq(o, x.els[i], e)
    ensures Inv(o, x.(els := x.els[i := e]))
  {
    hide Home, H7, Path;
    var y := x.(els := x.els[i := e]);
    EqSym(o, x.els[i], e);
    forall s | 0 <= s < |y.slots| ensures SlotOk(o, y, s) { assert SlotOk(o, x, s); }
    forall j | j in y.at ensures j < |y.els| && Named(y, j) { assert Named(x, j); }
    forall j, k | j in y.at.Keys && k in y.at.Keys && j != k ensures !Eq(o, y.els[j], y.els[k]) {
      EqSame(o, x.els[i], e, x.els[j]);
      EqSame(o, x.els[i], e, x.els[k]);
    }
  }

  /** An index without elements. */
  lemma EmptyInv<El>(o: Ops<El>, slots: seq<Slot>)
    requires Shape(slots) && forall s :: 0 <= s < |slots| ==> slots[s].Empty?
    ensures Inv(o, Index(slots, [], map[]))
    ensures Used(slots) == 0
  {
    UsedNone(slots);
  }
}
