/** The element type's hash function and equality, as the user of a table supplies them. */
module Keys {

  /** What a caller asks of a table. */
  datatype Action = Find | Delete | Insert

  /** `zeroIsOne` says that hash 0 is read as 1, as ixhtab does. */
  datatype Ops<!El> = Ops(hash: El -> nat, eq: (El, El) -> bool, zeroIsOne: bool)

  function Hash<El>(o: Ops<El>, e: El): nat {
    if o.zeroIsOne && o.hash(e) == 0 then 1 else o.hash(e)
  }

  predicate Eq<El>(o: Ops<El>, a: El, b: El) { o.eq(a, b) }

  // Names that stand in the triggers of `Lawful`, so that its clauses are used only when asked for.
  predicate Single<El>(a: El) { true }
  predicate Pair<El>(a: El, b: El) { true }
  predicate Triple<El>(a: El, b: El, c: El) { true }

  /** Equality is an equivalence and equal elements have equal hashes. */
  ghost predicate Lawful<El(!new)>(o: Ops<El>) {
    && (forall a: El {:trigger Single(a)} :: Eq(o, a, a))
    && (forall a: El, b: El {:trigger Pair(a, b)} :: Eq(o, a, b) ==> Eq(o, b, a) && Hash(o, a) == Hash(o, b))
    && (forall a: El, b: El, c: El {:trigger Triple(a, b, c)} :: Eq(o, a, b) && Eq(o, b, c) ==> Eq(o, a, c))
  }

  lemma EqRefl<El(!new)>(o: Ops<El>, a: El)
    requires Lawful(o)
    ensures Eq(o, a, a)
  {
    assert Single(a);
  }

  lemma EqSym<El(!new)>(o: Ops<El>, a: El, b: El)
    requires Lawful(o) && Eq(o, a, b)
    ensures Eq(o, b, a) && Hash(o, a) == Hash(o, b)
  {
    assert Pair(a, b);
  }

  lemma EqTrans<El(!new)>(o: Ops<El>, a: El, b: El, c: El)
    requires Lawful(o) && Eq(o, a, b) && Eq(o, b, c)
    ensures Eq(o, a, c)
  {
    assert Triple(a, b, c);
  }

  /** Equal elements are equal to the same others. */
  lemma EqSame<El(!new)>(o: Ops<El>, a: El, b: El, c: El)
    requires Lawful(o) && Eq(o, a, b)
    ensures Eq(o, a, c) <==> Eq(o, b, c)
    ensures Eq(o, c, a) <==> Eq(o, c, b)
  {
    EqSym(o, a, b);
    if Eq(o, a, c) { EqTrans(o, b, a, c); }
    if Eq(o, b, c) { EqTrans(o, a, b, c); }
    if Eq(o, c, a) { EqTrans(o, c, a, b); }
    if Eq(o, c, b) { EqTrans(o, c, b, a); }
  }

  /** The same keys with hash 0 read as 1. */
  function NonZero<El>(o: Ops<El>): Ops<El> { o.(zeroIsOne := true) }

  lemma NonZeroLawful<El(!new)>(o: Ops<El>)
    requires Lawful(o)
    ensures Lawful(NonZero(o))
  {
    var z := NonZero(o);
    forall a: El ensures Eq(z, a, a) { EqRefl(o, a); }
    forall a: El, b: El | Eq(z, a, b)
      ensures Eq(z, b, a) && Hash(z, a) == Hash(z, b) { EqSym(o, a, b); }
    forall a: El, b: El, c: El | Eq(z, a, b) && Eq(z, b, c)
      ensures Eq(z, a, c) { EqTrans(o, a, b, c); }
  }
}
