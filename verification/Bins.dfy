/** One bin: the arrays behind an ihtab, or behind one bin of an ixhtab, and the operation `do_1` that
    finds, inserts or deletes one element. */
module Bins {
  import opened BitMath
  import Bitmap
  import D = Dense
  import opened Keys
  import opened Probe
  import Swar

  /** How deletions are marked: by the largest index (ihtab-v0) or by a tag (ihtab and ixhtab). */
  datatype Version = Original | Current

  function EmptyTag(v: Version): nat { if v.Original? then Swar.EMPTY_V0 else Swar.EMPTY }

  predicate TagOk(v: Version, tag: nat) { if v.Original? then tag <= Swar.EMPTY_V0 else Swar.IsTag(tag) }

  function SlotOf(v: Version, width: nat, tag: nat, index: nat): Slot {
    if tag == EmptyTag(v) then Empty
    else if (if v.Original? then index == width - 1 else tag == Swar.DELETED) then Tomb(tag)
    else Live(tag, index)
  }

  /** The cast to the index type. */
  function Truncate(n: nat, width: nat): (r: nat)
    requires width > 0
    ensures n < width ==> r == n
  {
    n % width
  }

  function AllEmpty(n: nat): (s: seq<Slot>)
    ensures |s| == n && forall i :: 0 <= i < n ==> s[i] == Empty
  {
    seq(n, _ => Empty)
  }

  /** Tag bytes for `groups` groups, all EMPTY. */
  method EmptyTags(v: Version, groups: nat) returns (tags: array<nat>)
    ensures fresh(tags) && tags.Length == 8 * groups
    ensures forall s :: 0 <= s < tags.Length ==> tags[s] == EmptyTag(v)
  {
    tags := new nat[8 * groups];
    for i := 0 to tags.Length
      invariant forall s :: 0 <= s < i ==> tags[s] == EmptyTag(v)
    {
      tags[i] := EmptyTag(v);
    }
  }

  /** `realloc` of an element array to at least its size. */
  method Resized<El(0)>(a: array<El>, n: nat) returns (b: array<El>)
    requires a.Length <= n
    ensures fresh(b) && b.Length == n && forall j :: 0 <= j < a.Length ==> b[j] == a[j]
  {
    b := new El[n];
    for i := 0 to a.Length
      invariant forall j :: 0 <= j < i ==> b[j] == a[j]
    {
      b[i] := a[i];
    }
  }

  lemma EmptySlot(v: Version, width: nat)
    ensures TagOk(v, EmptyTag(v)) && forall i :: SlotOf(v, width, EmptyTag(v), i) == Empty
  {
  }

  class Bin<El(0,!new)> {
    const o: Ops<El>
    const version: Version
    const platform: Swar.Platform
    const width: nat // how many values a slot index has: 2^32 in ihtab, 2^16 in ixhtab
    var els: array<El>
    var bound: nat
    var deleted: array<nat>
    var tags: array<nat>
    var indexes: array<nat>
    var mask: nat
    ghost var ix: Index<El>
    ghost var Repr: set<object>

    /** The arrays have the right sizes and do not overlap. */
    ghost predicate Layout()
      reads this, Repr
    {
      && Repr == {this, els, deleted, tags, indexes}
      && els as object != deleted && els as object != tags && els as object != indexes
      && deleted != tags && deleted != indexes && tags != indexes
      && width > 0 && IsPow2(mask + 1)
      && tags.Length == indexes.Length == 8 * (mask + 1)
      && els.Length == 4 * (mask + 1)
      && deleted.Length == (els.Length + 7) / 8
      && bound <= els.Length
    }

    /** The tag bytes and indexes are what the ghost index says. */
    ghost predicate Agrees()
      requires Layout()
      reads this, Repr
    {
      && |ix.slots| == tags.Length
      && |ix.els| == bound
      && (forall s :: 0 <= s < tags.Length ==>
        TagOk(version, tags[s]) && ix.slots[s] == SlotOf(version, width, tags[s], indexes[s]))
    }

    /** The representation invariant, except for the element array and the bitmap. */
    ghost predicate Core()
      reads this, Repr
    {
      && Layout()
      && Agrees()
      && Lawful(o)
      && Inv(o, ix)
      && (version.Current? ==> Used(ix.slots) == bound)
    }

    /** How many elements the indexes can name. */
    function Limit(): nat {
      if version.Original? && width > 0 then width - 1 else width
    }

    lemma Sizes()
      requires Core()
      ensures |ix.els| == bound <= els.Length == 4 * (mask + 1)
      ensures |ix.slots| == 8 * (mask + 1) && IsPow2(mask + 1)
      ensures Repr == {this, els, deleted, tags, indexes} && Lawful(o) && width > 0
    {
    }

    /** The first `n` elements have been written. */
    ghost predicate Written(n: nat)
      reads this, els
    {
      n <= bound <= els.Length && n <= |ix.els| && els[..n] == ix.els[..n]
    }

    /** The bitmap marks exactly the elements that are no longer live. */
    ghost predicate BitmapOk()
      reads this, deleted
    {
      && els.Length <= 8 * deleted.Length
      && forall i :: 0 <= i < els.Length ==> Bitmap.Dead(deleted, i) == (i < bound && i !in ix.at)
    }

    /** The eight tag bytes of group `g`. */
    method LoadGroup(g: nat) returns (t: seq<nat>)
      requires Layout() && Agrees() && g <= mask
      ensures Swar.IsGroup(t) && t == tags[8 * g..8 * g + 8]
      ensures forall k :: 0 <= k < 8 ==>
        TagOk(version, t[k]) && ix.slots[8 * g + k] == SlotOf(version, width, t[k], indexes[8 * g + k])
    {
      t := tags[8 * g..8 * g + 8];
      assert forall k :: 0 <= k < 8 ==> t[k] == tags[8 * g + k];
    }

    /** A deleted slot that a walk for the key takes note of: its tag is selected. */
    ghost predicate Reuse(key: El, s: int)
      reads this, tags
    {
      version.Original? && Reusable(platform, ix.slots, tags[..], H7(Hash(o, key)), s)
    }

    /** `first` is the first such slot of group `g`, or -1. */
    ghost predicate FirstIn(key: El, g: nat, first: int)
      reads this, tags
    {
      if first == -1 then forall j :: 8 * g <= j < 8 * g + 8 ==> !Reuse(key, j)
      else 8 * g <= first < 8 * g + 8 && Reuse(key, first) && forall j :: 8 * g <= j < first ==> !Reuse(key, j)
    }

    /** The selected slots of group `g`, tried in turn: the first whose element equals the key, or 8.  If there
        is none, the original version has noted the first deleted slot, unless it had noted one (-1 is none). */
    method ScanGroup(g: nat, key: El, first0: int) returns (k: nat, first: int)
      requires Core() && Written(bound) && g <= mask
      ensures k <= 8
      ensures k == 8 ==> NoMatch(o, ix, key, g)
      ensures k < 8 ==> ix.slots[8 * g + k].Live? && ix.slots[8 * g + k].ix < bound
                        && Eq(o, ix.els[ix.slots[8 * g + k].ix], key)
      ensures k == 8 ==> if first0 != -1 then first == first0 else FirstIn(key, g, first)
    {
      hide Inv, H7, IsPow2, NoMatch, Swar.Selected, Lawful, Passed, Used, FirstTomb, Written;
      var h7 := H7(Hash(o, key));
      var t := LoadGroup(g);
      var c := Swar.Candidates(platform, t, h7);
      first := first0;
      ghost var q := 0;
      NoTombYet(version, ix.slots, g, c);
      for n := 0 to |c|
        invariant forall m :: 0 <= m < n ==> Passed(o, ix, key, 8 * g + c[m])
        invariant first0 != -1 ==> first == first0
        invariant first0 == -1 ==> FirstTomb(version, ix.slots, g, c, n, q, first)
      {
        k := c[n];
        assert k in c;
        Swar.SelectedIsOrdinary(platform, t, h7, k);
        var dead, same := TryCandidate(g, k, key);
        if same {
          return;
        }
        if first0 == -1 { NextTomb(version, ix.slots, g, c, n, q, first); }
        if dead && first == -1 {
          first, q := 8 * g + k, n;
        }
      }
      k := 8;
      PassedAll(key, g, t, c);
      if first0 == -1 { FirstNoted(version, platform, ix.slots, tags[..], g, t, h7, c, q, first); }
    }

    /** One selected slot: deleted, or of an element equal to the key. */
    method TryCandidate(g: nat, k: nat, key: El) returns (dead: bool, same: bool)
      requires Core() && Written(bound) && g <= mask && k < 8 && tags[8 * g + k] < 0x80
      ensures dead == (version.Original? && ix.slots[8 * g + k].Tomb?)
      ensures if same then ix.slots[8 * g + k].Live? && ix.slots[8 * g + k].ix < bound
                           && Eq(o, ix.els[ix.slots[8 * g + k].ix], key)
              else Passed(o, ix, key, 8 * g + k)
    {
      hide Home, H7, Path, Used, Distinct, SlotOk, Named, IsPow2, Lawful;
      var i := indexes[8 * g + k];
      dead, same := version.Original? && i == width - 1, false;
      if !dead {
        LiveIsNamed(o, ix, 8 * g + k);
        same := Eq(o, els[i], key);
      }
    }

    lemma PassedAll(key: El, g: nat, t: seq<nat>, c: seq<nat>)
      requires Core() && g <= mask && Swar.IsGroup(t) && t == tags[8 * g..8 * g + 8]
      requires forall k :: 0 <= k < 8 && Swar.Selected(platform, t, H7(Hash(o, key)), k) ==> k in c
      requires forall m :: 0 <= m < |c| ==> Passed(o, ix, key, 8 * g + c[m])
      ensures NoMatch(o, ix, key, g)
    {
      hide H7, Used, IsPow2, NoMatch, Swar.Selected, Lawful, Passed, SlotOk, Named, Distinct;
      UnselectedDiffer(o, ix, key, g, platform, t, c);
    }

    /** What the walk has noted when it comes to group `g`: the first slot that can be reused, in the order of the
        walk, or -1 if there is none before `g`. */
    ghost predicate Noted(key: El, g: nat, first: int)
      reads this, tags
    {
      && Shape(ix.slots) && g < |ix.slots| / 8
      && if first == -1 then forall r :: Reuse(key, r) ==> Steps(o, ix, key, r / 8) >= Steps(o, ix, key, g)
         else Earliest(key, first) && Path(ix.slots, Home(Hash(o, key), |ix.slots| / 8), first / 8)
    }

    /** No slot that can be reused comes before `s` in the order of the walk. */
    ghost predicate Earliest(key: El, s: int)
      reads this, tags
    {
      && Shape(ix.slots) && Reuse(key, s)
      && forall r :: Reuse(key, r) ==>
           Steps(o, ix, key, r / 8) >= Steps(o, ix, key, s / 8) && (r / 8 == s / 8 ==> r >= s)
    }

    /** What has been noted after group `g`. */
    lemma NotedAfter(key: El, g: nat, first0: int, first: int)
      requires Noted(key, g, first0) && Path(ix.slots, Home(Hash(o, key), |ix.slots| / 8), g)
      requires if first0 != -1 then first == first0 else FirstIn(key, g, first)
      ensures if first == -1 then forall r :: Reuse(key, r) ==> Steps(o, ix, key, r / 8) > Steps(o, ix, key, g)
              else Earliest(key, first) && Path(ix.slots, Home(Hash(o, key), |ix.slots| / 8), first / 8)
    {
      hide Home, H7, Path, Swar.Selected, Swar.IsGroup;
      if first0 == -1 {
        forall r | Reuse(key, r) && Steps(o, ix, key, r / 8) == Steps(o, ix, key, g) ensures r / 8 == g {}
      }
    }

    /** The slot for a new element: the first deleted slot that can be reused, or, if the walk has passed none, the
        first EMPTY slot of the group where it stops. */
    ghost predicate Chosen(key: El, s: nat)
      reads this, tags
    {
      && Shape(ix.slots) && s < |ix.slots|
      && if ix.slots[s].Tomb? then Earliest(key, s)
         else ix.slots[s] == Empty && (forall j :: s / 8 * 8 <= j < s ==> ix.slots[j] != Empty)
              && forall r :: Reuse(key, r) ==> Steps(o, ix, key, r / 8) > Steps(o, ix, key, s / 8)
    }

    /** The probe loop: the slot of an equal element, or else the slot for a new one. */
    method Search(key: El) returns (found: bool, s: nat)
      requires Core() && Written(bound)
      ensures s < |ix.slots|
      ensures found ==> ix.slots[s].Live? && ix.slots[s].ix in ix.at && ix.slots[s].ix < bound
                        && Eq(o, ix.els[ix.slots[s].ix], key)
      ensures !found ==> Chosen(key, s) && Path(ix.slots, Home(Hash(o, key), |ix.slots| / 8), s / 8)
      ensures !found ==> Absent(o, ix.els, ix.at.Keys, key)
    {
      hide Full, NoMatch, Home, H7, Distinct, Path, Walked, And, Used, SlotOk, Named, IsPow2, Lawful, Absent,
           Reusable, Steps, Earliest, FirstIn, Noted, Chosen, Reuse;
      HomeIsMasked(Hash(o, key), mask);
      WalkStarts(o, ix, key);
      var g, first := And(Hash(o, key) / 8, mask), -1;
      NotedStart(key);
      while true
        invariant 0 <= g <= mask && Walked(o, ix, key, g) && Noted(key, g, first)
        decreases mask + 1 - Steps(o, ix, key, g)
      {
        WalkPath(o, ix, key, g);
        ghost var first0 := first;
        var k;
        k, first := ScanGroup(g, key, first);
        if k < 8 {
          LiveIsNamed(o, ix, 8 * g + k);
          return true, 8 * g + k;
        }
        NotedAfter(key, g, first0, first);
        k := FirstEmptyOf(g);
        if k < 8 {
          WalkStops(o, ix, key, g);
          ChosenSlot(key, g, k, first);
          return false, if first != -1 then first else 8 * g + k;
        }
        WalkStep(o, ix, key, g);
        AndSuccessor(g, mask);
        g := And(g + 1, mask);
        NotedNext(key, g, first);
      }
    }

    lemma NotedStart(key: El)
      requires Shape(ix.slots)
      ensures Noted(key, Home(Hash(o, key), |ix.slots| / 8), -1)
    {
      hide Home, Path, Reusable, H7;
    }

    lemma NotedNext(key: El, g: nat, first: int)
      requires Shape(ix.slots) && g < |ix.slots| / 8
      requires if first == -1 then forall r :: Reuse(key, r) ==> Steps(o, ix, key, r / 8) >= Steps(o, ix, key, g)
               else Earliest(key, first) && Path(ix.slots, Home(Hash(o, key), |ix.slots| / 8), first / 8)
      ensures Noted(key, g, first)
    {
      hide Home, Path, Reusable, H7, Steps;
    }

    lemma ChosenSlot(key: El, g: nat, k: nat, first: int)
      requires Shape(ix.slots) && g < |ix.slots| / 8 && Path(ix.slots, Home(Hash(o, key), |ix.slots| / 8), g)
      requires if first == -1 then forall r :: Reuse(key, r) ==> Steps(o, ix, key, r / 8) > Steps(o, ix, key, g)
               else Earliest(key, first) && Path(ix.slots, Home(Hash(o, key), |ix.slots| / 8), first / 8)
      requires k < 8 && ix.slots[8 * g + k] == Empty && forall j :: 8 * g <= j < 8 * g + k ==> ix.slots[j] != Empty
      ensures
        var s := if first != -1 then first else 8 * g + k;
        0 <= s < |ix.slots| && Chosen(key, s) && Path(ix.slots, Home(Hash(o, key), |ix.slots| / 8), s / 8)
    {
      hide Home, Path, H7, Steps, Swar.Selected;
      assert (8 * g + k) / 8 == g;
    }

    lemma ChosenIsFree(key: El, s: nat)
      requires Chosen(key, s)
      ensures s < |ix.slots| && !ix.slots[s].Live? && (version.Current? ==> ix.slots[s] == Empty)
    {
      hide Home, Path, H7, Steps, Swar.Selected;
    }

    /** A new bin: `groups` groups of EMPTY tags and room for half as many elements as slots. */
    constructor (o: Ops<El>, version: Version, platform: Swar.Platform, width: nat, groups: nat)
      requires Lawful(o) && IsPow2(groups) && width > 0
      ensures Core() && Written(bound) && BitmapOk() && fresh(Repr)
      ensures this.o == o && this.version == version && this.platform == platform && this.width == width
      ensures mask == groups - 1
      ensures ix.els == [] && ix.at == map[]
    {
      assert groups > 0;
      hide IsPow2, Inv, Used, AllEmpty, Lawful, Bitmap.Dead, SlotOf, TagOk;
      this.o, this.version, this.platform, this.width := o, version, platform, width;
      var e := new El[4 * groups];
      var d := Bitmap.Create((4 * groups + 7) / 8);
      var t := EmptyTags(version, groups);
      var n := new nat[8 * groups];
      els, deleted, tags, indexes := e, d, t, n;
      bound := 0;
      mask := groups - 1;
      ix := Index(AllEmpty(8 * groups), [], map[]);
      Repr := {this, e, d, t, n};
      new;
      EmptyInv(o, ix.slots);
      EmptySlot(version, width);
      assert Agrees();
    }

    /** The new element's tag and index go into slot `s`; the element itself is written by `Store`. */
    method Add(s: nat, key: El)
      requires Core() && s < |ix.slots| && !ix.slots[s].Live? && (version.Current? ==> ix.slots[s] == Empty)
      requires bound < els.Length && bound < Limit()
      requires Path(ix.slots, Home(Hash(o, key), |ix.slots| / 8), s / 8)
      requires Absent(o, ix.els, ix.at.Keys, key)
      modifies this`bound, this`ix, tags, indexes
      ensures Core() && ix == old(Place(ix, s, H7(Hash(o, key)), key))
    {
      hide Inv, Path, Absent, Home, Used, IsPow2, Truncate, H7;
      PlaceKeeps(o, ix, s, key);
      tags[s] := H7(Hash(o, key));
      indexes[s] := Truncate(bound, width);
      bound := bound + 1;
      ix := Place(ix, s, H7(Hash(o, key)), key);
    }

    /** The tag of a deleted slot. */
    function DeletedTag(tag: nat): nat {
      if version.Original? then tag else Swar.DELETED
    }

    method Remove(s: nat)
      requires Core() && s < |ix.slots| && ix.slots[s].Live?
      requires ix.slots[s].ix < els.Length
      modifies this`ix, tags, indexes, deleted
      ensures Core() && ix == old(Erase(ix, s, DeletedTag(tags[s])))
      ensures forall j :: 0 <= j < els.Length ==>
        Bitmap.Dead(deleted, j) == (j == old(ix.slots[s].ix) || old(Bitmap.Dead(deleted, j)))
    {
      hide Inv, Used;
      EraseKeeps(o, ix, s, DeletedTag(tags[s]));
      Bitmap.Mark(deleted, indexes[s]);
      ix := Erase(ix, s, DeletedTag(tags[s]));
      if version.Original? {
        indexes[s] := width - 1;
      } else {
        tags[s] := Swar.DELETED;
      }
    }

    /** No array has been reallocated. */
    twostate predicate Kept()
      reads this
    {
      && Repr == old(Repr) && mask == old(mask)
      && els == old(els) && deleted == old(deleted) && tags == old(tags) && indexes == old(indexes)
    }

    /** What `do_1` does to the elements and to the set of live ones. */
    ghost predicate Effect(before: Index<El>, key: El, action: Action, found: bool, res: nat)
      reads this
    {
      && (found <==> !Absent(o, before.els, before.at.Keys, key))
      && (found ==> res in before.at && res < |before.els| && Eq(o, before.els[res], key))
      && (!found ==> res == |before.els|)
      && ix.els == (if !found && action == Insert then before.els + [key] else before.els)
      && ix.at.Keys == (if !found && action == Insert then before.at.Keys + {res}
                        else if found && action == Delete then before.at.Keys - {res}
                        else before.at.Keys)
    }

    /** `do_1`: find, delete or insert `key`.  `res` is the element's position; after an insertion the
        caller must write the element there. */
    method Do1(key: El, action: Action) returns (found: bool, res: nat)
      requires Core() && Written(bound)
      requires action == Insert ==> bound < els.Length && bound < Limit()
      modifies Repr
      ensures Kept() && Core() && Written(old(bound)) && els[..] == old(els[..])
      ensures Effect(old(ix), key, action, found, res)
      ensures forall j :: 0 <= j < els.Length ==>
        Bitmap.Dead(deleted, j) == (old(Bitmap.Dead(deleted, j)) || (found && action == Delete && j == res))
      ensures old(BitmapOk()) ==> BitmapOk()
    {
      hide Inv, Path, Home, Used, IsPow2, H7, Absent, Bitmap.Dead, Lawful, Chosen;
      var s;
      found, s := Search(key);
      if found {
        res := indexes[s];
        MatchIsPresent(o, ix, key, res);
        if action == Delete {
          EraseKeys(o, ix, s, DeletedTag(tags[s]));
          Remove(s);
        }
      } else {
        res := bound;
        if action == Insert {
          ChosenIsFree(key, s);
          Add(s, key);
        }
      }
    }

    /** The caller's write through the returned pointer: an element equal to the one stored there. */
    method Store(i: nat, e: El)
      requires Core() && i < bound && Eq(o, ix.els[i], e)
      modifies Repr
      ensures Kept() && Core() && bound == old(bound) && ix == old(ix).(els := old(ix.els)[i := e])
      ensures els[..] == old(els[..])[i := e]
      ensures forall j :: 0 <= j < els.Length ==> Bitmap.Dead(deleted, j) == old(Bitmap.Dead(deleted, j))
      ensures old(BitmapOk()) ==> BitmapOk()
      ensures old(Written(bound)) || (i == bound - 1 && old(Written(bound - 1))) ==> Written(bound)
    {
      hide Inv, Used, IsPow2;
      RewriteKeeps(o, ix, i, e);
      els[i] := e;
      ix := ix.(els := ix.els[i := e]);
    }

    /** Entry `i` of the element array: whether it is live, and the element. */
    method Entry(i: nat) returns (live: bool, e: El)
      requires Core() && Written(bound) && BitmapOk() && i < bound
      ensures live == (i in ix.at) && e == ix.els[i]
    {
      hide Inv, Used, IsPow2, Bitmap.Dead, Lawful;
      var dead := Bitmap.Test(deleted, i);
      live := !dead;
      e := els[i];
      assert els[..bound][i] == els[i];
    }

    /** An insertion of a new element followed by the write, as all rebuilding loops do it. */
    method Append(e: El)
      requires Core() && Written(bound)
      requires bound < els.Length && bound < Limit() && Absent(o, ix.els, ix.at.Keys, e)
      modifies Repr
      ensures Kept() && Core() && Written(bound)
      ensures bound == old(bound) + 1
      ensures ix.els == old(ix.els) + [e] && ix.at.Keys == old(ix.at.Keys) + {old(bound)}
      ensures els[..] == old(els[..])[old(bound) := e]
      ensures forall j :: 0 <= j < els.Length ==> Bitmap.Dead(deleted, j) == old(Bitmap.Dead(deleted, j))
      ensures old(BitmapOk()) ==> BitmapOk()
    {
      hide Inv, Used, IsPow2, Absent, Bitmap.Dead, Lawful;
      EqRefl(o, e);
      var found, r := Do1(e, Insert);
      Store(r, e);
    }

    /** All tags EMPTY again; the element array and the bitmap are left as they are. */
    method Reset()
      requires Core()
      modifies Repr
      ensures Kept() && Core() && bound == 0 && ix.els == [] && ix.at == map[]
      ensures forall j :: 0 <= j < els.Length ==> els[j] == old(els[j])
      ensures forall j :: 0 <= j < els.Length ==> Bitmap.Dead(deleted, j) == old(Bitmap.Dead(deleted, j))
    {
      hide Inv, Used, IsPow2, Lawful, SlotOf, TagOk, AllEmpty;
      for s := 0 to tags.Length
        invariant Kept() && Repr == {this, els, deleted, tags, indexes}
        invariant mask == old(mask) && indexes[..] == old(indexes[..])
        invariant forall j :: 0 <= j < els.Length ==> els[j] == old(els[j])
        invariant forall j :: 0 <= j < deleted.Length ==> deleted[j] == old(deleted[j])
        invariant forall r :: 0 <= r < s ==> tags[r] == EmptyTag(version)
      {
        tags[s] := EmptyTag(version);
      }
      bound := 0;
      ix := Index(AllEmpty(tags.Length), [], map[]);
      EmptyInv(o, ix.slots);
      EmptySlot(version, width);
    }

    /** Larger arrays: the elements are copied, the tags are EMPTY and the new bitmap is clear.  The old
        bitmap is returned. */
    method Realloc(groups: nat) returns (was: array<nat>)
      requires Core() && IsPow2(groups) && groups > mask
      modifies this
      ensures Core() && BitmapOk() && bound == 0 && ix.els == [] && ix.at == map[] && mask == groups - 1
      ensures was == old(deleted) && fresh(Repr - {this})
      ensures old(els.Length) <= els.Length && forall j :: 0 <= j < old(els.Length) ==> els[j] == old(els[j])
    {
      hide Inv, Used, IsPow2, Lawful, Core, BitmapOk, Bitmap.Dead;
      Sizes();
      was := deleted;
      var e := Resized(els, 4 * groups);
      var d := Bitmap.Create((4 * groups + 7) / 8);
      var t := EmptyTags(version, groups);
      var n := new nat[8 * groups];
      Install(e, d, t, n);
    }

    /** New arrays for an empty bin. */
    method Install(e: array<El>, d: array<nat>, t: array<nat>, n: array<nat>)
      requires Lawful(o) && width > 0 && t.Length > 0 && t.Length % 8 == 0 && IsPow2(t.Length / 8)
      requires n.Length == t.Length && e.Length == t.Length / 2 && d.Length == (e.Length + 7) / 8
      requires e as object != d && e as object != t && e as object != n && d != t && d != n && t != n
      requires (forall s :: 0 <= s < t.Length ==> t[s] == EmptyTag(version))
      requires forall j :: 0 <= j < 8 * d.Length ==> !Bitmap.Dead(d, j)
      modifies this
      ensures Core() && BitmapOk() && bound == 0 && ix.els == [] && ix.at == map[] && mask == t.Length / 8 - 1
      ensures els == e && deleted == d && Repr == {this, e, d, t, n}
    {
      hide Inv, Used, IsPow2, Lawful, SlotOf, TagOk, AllEmpty, Bitmap.Dead;
      els, deleted, tags, indexes := e, d, t, n;
      mask := t.Length / 8 - 1;
      bound := 0;
      ix := Index(AllEmpty(t.Length), [], map[]);
      Repr := {this, e, d, t, n};
      EmptyInv(o, ix.slots);
      EmptySlot(version, width);
    }

    /** One step of `Compact`. */
    method CompactEntry(was: array<nat>, i: nat, ghost e0: seq<El>, ghost live: set<nat>)
      requires Compacting(was, i, e0, live) && i < |e0| && |e0| <= Limit() && was !in Repr
      requires |D.Survivors(e0, live)| <= els.Length
      modifies Repr
      ensures Kept() && Compacting(was, i + 1, e0, live)
    {
      hide Inv, Used, IsPow2, Lawful, Absent, D.Survivors, D.Upto, Distinct, BitmapOk, Bitmap.Dead, Agrees, Written;
      Sizes();
      D.CopyStep(o, e0, live, i);
      var dead := Bitmap.Test(was, i);
      if !dead {
        Append(els[i]);
      }
    }

    /** The bin while its own elements are moved down in place: `i` entries have been read. */
    ghost predicate Compacting(was: array<nat>, i: nat, e0: seq<El>, live: set<nat>)
      reads this, Repr, was
    {
      && Core() && Written(bound) && BitmapOk()
      && i <= |e0| <= els.Length && |e0| <= 8 * was.Length
      && (forall j :: i <= j < |e0| ==> els[j] == e0[j])
      && (forall j :: 0 <= j < |e0| ==> Bitmap.Dead(was, j) == (j !in live))
      && (forall j :: j in live ==> j < |e0|) && Distinct(o, e0, live)
      && ix.els == D.Survivors(e0[..i], live) && ix.at.Keys == D.Upto(|ix.els|)
    }

    /** The bin rebuilt in place: its live elements moved to the front, in arrays of `groups` groups. */
    method Compact(groups: nat)
      requires Core() && Written(bound) && BitmapOk() && IsPow2(groups) && groups > mask && bound <= Limit()
      modifies Repr
      ensures Core() && Written(bound) && BitmapOk() && mask == groups - 1 && fresh(Repr - old(Repr))
      ensures ix.els == D.Survivors(old(ix.els), old(ix.at.Keys)) && ix.at.Keys == D.Upto(|ix.els|)
    {
      hide Core, Written, BitmapOk, IsPow2, D.Survivors, Compacting;
      Sizes();
      ghost var e0, live := ix.els, ix.at.Keys;
      var n := bound;
      var was := StartCompact(groups);
      for i := 0 to n
        invariant Compacting(was, i, e0, live)
        invariant was !in Repr && mask == groups - 1 && fresh(Repr - old(Repr)) && els.Length == 4 * groups
      {
        CompactEntry(was, i, e0, live);
      }
      assert e0[..n] == e0;
      Compacted(was, e0, live);
    }

    lemma Compacted(was: array<nat>, e0: seq<El>, live: set<nat>)
      requires Compacting(was, |e0|, e0, live)
      ensures Core() && Written(bound) && BitmapOk()
      ensures ix.els == D.Survivors(e0, live) && ix.at.Keys == D.Upto(|ix.els|)
    {
      assert e0[..|e0|] == e0;
    }

    method StartCompact(groups: nat) returns (was: array<nat>)
      requires Core() && Written(bound) && BitmapOk() && IsPow2(groups) && groups > mask
      modifies this
      ensures Compacting(was, 0, old(ix.els), old(ix.at.Keys))
      ensures was !in Repr && mask == groups - 1 && fresh(Repr - {this}) && els.Length == 4 * groups
      ensures old(bound) == |old(ix.els)| <= els.Length
    {
      hide Core, Written, BitmapOk, IsPow2, D.Survivors, D.Upto, Bitmap.Dead, Distinct;
      Sizes();
      CoreLive();
      Read();
      D.SurvivorsNone(ix.els, ix.at.Keys, 0, 0);
      D.UptoNone();
      was := Realloc(groups);
      Sizes();
      NoneWritten();
    }

    /** What the element array and the bitmap hold. */
    lemma Read()
      requires Core() && Written(bound) && BitmapOk()
      ensures bound <= |ix.els| && bound <= els.Length <= 8 * deleted.Length
      ensures forall j :: 0 <= j < bound ==> els[j] == ix.els[j]
      ensures forall j :: 0 <= j < bound ==> Bitmap.Dead(deleted, j) == (j !in ix.at)
    {
      hide Inv, Used, IsPow2, Lawful, Bitmap.Dead;
      forall j | 0 <= j < bound ensures els[j] == ix.els[j] { assert els[..bound][j] == els[j]; }
    }

    lemma NoneWritten()
      requires bound == 0
      ensures Written(bound)
    {
      assert els[..0] == ix.els[..0];
    }

    lemma CoreLive()
      requires Core()
      ensures (forall j :: j in ix.at.Keys ==> j < |ix.els|) && Distinct(o, ix.els, ix.at.Keys)
    {
    }

    method FirstEmptyOf(g: nat) returns (k: nat)
      requires Core() && g <= mask
      ensures k <= 8
      ensures k < 8 ==> ix.slots[8 * g + k] == Empty && !Full(ix.slots, g)
      ensures forall j :: 8 * g <= j < 8 * g + k ==> ix.slots[j] != Empty
      ensures k == 8 ==> Full(ix.slots, g)
    {
      hide Inv, Used;
      var t := LoadGroup(g);
      if version.Original? {
        k := Swar.FirstEmptyV0(platform, t);
      } else {
        k := Swar.FirstEmpty(platform, t);
      }
      forall s | 8 * g <= s < 8 * g + k ensures ix.slots[s] != Empty { assert t[s - 8 * g] != EmptyTag(version); }
    }
  }

  /** Slot `s` is deleted and its tag is selected for `h7`. */
  predicate Reusable(p: Swar.Platform, slots: seq<Slot>, tags: seq<nat>, h7: nat, s: int) {
    && 0 <= s < |slots| == |tags| && s / 8 * 8 + 8 <= |tags| && slots[s].Tomb?
    && var t := tags[s / 8 * 8..s / 8 * 8 + 8]; Swar.IsGroup(t) && Swar.Selected(p, t, h7, s % 8)
  }

  /** Among the first `n` candidates, `first` is the first deleted slot, that of candidate `q`, or -1. */
  ghost predicate FirstTomb(v: Version, slots: seq<Slot>, g: nat, c: seq<nat>, n: nat, q: nat, first: int) {
    && 8 * g + 8 <= |slots| && n <= |c| && (forall m :: 0 <= m < n ==> c[m] < 8)
    && if first == -1 then forall m :: 0 <= m < n ==> !(v.Original? && slots[8 * g + c[m]].Tomb?)
       else v.Original? && q < n && first == 8 * g + c[q] && slots[first].Tomb?
            && forall m :: 0 <= m < q ==> !slots[8 * g + c[m]].Tomb?
  }

  lemma NoTombYet(v: Version, slots: seq<Slot>, g: nat, c: seq<nat>)
    requires 8 * g + 8 <= |slots|
    ensures FirstTomb(v, slots, g, c, 0, 0, -1)
  {
  }

  /** One more candidate. */
  lemma NextTomb(v: Version, slots: seq<Slot>, g: nat, c: seq<nat>, n: nat, q: nat, first: int)
    requires FirstTomb(v, slots, g, c, n, q, first) && n < |c| && c[n] < 8
    ensures
      if v.Original? && slots[8 * g + c[n]].Tomb? && first == -1 then FirstTomb(v, slots, g, c, n + 1, n, 8 * g + c[n])
      else FirstTomb(v, slots, g, c, n + 1, q, first)
  {
  }

  lemma FirstNoted(v: Version, p: Swar.Platform, slots: seq<Slot>, tags: seq<nat>, g: nat, t: seq<nat>, h7: nat,
                   c: seq<nat>, q: nat, first: int)
    requires |slots| == |tags| && 8 * g + 8 <= |tags| && t == tags[8 * g..8 * g + 8] && Swar.IsGroup(t)
    requires forall i, j :: 0 <= i < j < |c| ==> c[i] < c[j]
    requires forall k :: k in c <==> k < 8 && Swar.Selected(p, t, h7, k)
    requires FirstTomb(v, slots, g, c, |c|, q, first)
    ensures if first == -1 then forall j :: 8 * g <= j < 8 * g + 8 ==> !(v.Original? && Reusable(p, slots, tags, h7, j))
            else 8 * g <= first < 8 * g + 8 && v.Original? && Reusable(p, slots, tags, h7, first)
                 && forall j :: 8 * g <= j < first ==> !Reusable(p, slots, tags, h7, j)
  {
    hide Swar.Selected;
    forall j | 8 * g <= j < 8 * g + 8 && Reusable(p, slots, tags, h7, j) ensures j - 8 * g in c {
      assert j / 8 == g && j % 8 == j - 8 * g;
    }
    if first != -1 {
      assert c[q] in c;
      assert first / 8 == g && first % 8 == c[q];
    }
  }

  lemma HomeIsMasked(h: nat, mask: nat)
    requires IsPow2(mask + 1)
    ensures And(h / 8, mask) == Home(h, mask + 1)
  {
    AndMask(h / 8, mask);
  }

  lemma MatchIsPresent<El>(o: Ops<El>, x: Index<El>, key: El, i: nat)
    requires i in x.at && i < |x.els| && Eq(o, x.els[i], key)
    ensures !Absent(o, x.els, x.at.Keys, key)
  {
  }

  lemma EraseKeys<El>(o: Ops<El>, x: Index<El>, s: nat, tag: nat)
    requires s < |x.slots| && x.slots[s].Live?
    ensures Erase(x, s, tag).at.Keys == x.at.Keys - {x.slots[s].ix}
  {
  }

  lemma LiveIsNamed<El>(o: Ops<El>, x: Index<El>, s: nat)
    requires Slots(o, x) && s < |x.slots| && x.slots[s].Live?
    ensures x.slots[s].ix in x.at && x.at[x.slots[s].ix] == s && x.slots[s].ix < |x.els|
  {
    assert SlotOk(o, x, s);
  }

  /** A live slot whose element is not equal to the key. */
  predicate Passed<El>(o: Ops<El>, x: Index<El>, key: El, s: nat) {
    s < |x.slots| && (x.slots[s].Live? && x.slots[s].ix < |x.els| ==> !Eq(o, x.els[x.slots[s].ix], key))
  }

  /** Looking only at the selected slots is enough: an element equal to the key has the key's
      fingerprint, and every slot with that fingerprint is selected. */
  lemma UnselectedDiffer<El(!new)>(o: Ops<El>, x: Index<El>, key: El, g: nat, p: Swar.Platform, t: seq<nat>,
                                   c: seq<nat>)
    requires Lawful(o) && Slots(o, x) && g < |x.slots| / 8 && Swar.IsGroup(t)
    requires forall k :: 0 <= k < 8 && x.slots[8 * g + k].Live? ==> x.slots[8 * g + k].tag == t[k]
    requires forall k :: 0 <= k < 8 && Swar.Selected(p, t, H7(Hash(o, key)), k) ==> k in c
    requires forall m :: 0 <= m < |c| ==> Passed(o, x, key, 8 * g + c[m])
    ensures NoMatch(o, x, key, g)
  {
    hide Home, H7, Path;
    forall s | 8 * g <= s < 8 * g + 8 && x.slots[s].Live? && x.slots[s].ix < |x.els|
      ensures !Eq(o, x.els[x.slots[s].ix], key)
    {
      var k := s - 8 * g;
      assert SlotOk(o, x, s) && x.slots[8 * g + k].Live?;
      if !Swar.Selected(p, t, H7(Hash(o, key)), k) && Eq(o, x.els[x.slots[s].ix], key) {
        EqSym(o, x.els[x.slots[s].ix], key);
      }
    }
  }
}
