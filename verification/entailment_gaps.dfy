/** Rules that the documentation of the reasoner names and the code does not apply: rdfs5,
    rdfs11 (reasoning/rdfs.go, reasoning/entailment.go) and eq-rep-p
    (reasoning/owlrl_equality.go). For each, an input on which the result lacks a triple, and
    which inputs lack none. */
module EntailmentGaps {
  import opened Closures
  import opened UnionFinds
  import OwlEngine

  // ---------------------------------------------------------------------------
  // rdfs5 and rdfs11
  // ---------------------------------------------------------------------------

  /** rdfs5 for `p` rdfs:subPropertyOf and rdfs11 for `p` rdfs:subClassOf, in section 9.2.1 of
      RDF 1.1 Semantics. */
  ghost predicate TransitiveOn(p: Iri, g: set<Triple>) {
    forall a, b :: a in g && b in g && a.p == p && b.p == p && a.o == b.s ==> Triple(a.s, p, b.o) in g
  }

  /** Nothing but itself is stated to be a subproperty of `p`. */
  ghost predicate NoSubproperties(p: Iri, g: set<Triple>) {
    forall t :: t in g && t.p == RdfsSubPropertyOf && t.o == Ref(p) ==> t.s == t.o
  }

  function Chain(p: Iri): set<Triple> {
    {Triple(Blank("a"), p, Blank("b")), Triple(Blank("b"), p, Blank("c"))}
  }

  lemma ChainIsClosed(p: Iri)
    requires p == RdfsSubClassOf || p == RdfsSubPropertyOf
    ensures Closed(Rdfs, Chain(p))
  {
  }

  /** A chain of two subclasses or subproperties is its own closure and lacks their
      composition. */
  lemma ChainIsNotComposed(p: Iri)
    requires p == RdfsSubClassOf || p == RdfsSubPropertyOf
    ensures IsClosure(Rdfs, Chain(p), Chain(p)) && !TransitiveOn(p, Chain(p))
  {
    ChainIsClosed(p);
    var a, b := Triple(Blank("a"), p, Blank("b")), Triple(Blank("b"), p, Blank("c"));
    assert "a"[0] != "b"[0] && "a"[0] != "c"[0] && "b"[0] != "c"[0];
    assert a in Chain(p) && b in Chain(p) && Triple(a.s, p, b.o) !in Chain(p);
  }

  /** The closure without the schema triples that are not in the input. */
  ghost function OldSchema(p: Iri, g: set<Triple>, k: set<Triple>): set<Triple> {
    set t | t in k && ((t.p != p && t.p != RdfsSubPropertyOf) || t in g)
  }

  /** No rule adds a triple of `p` when nothing is a subproperty of it. */
  lemma NoNewTriples(p: Iri, g: set<Triple>, k: set<Triple>)
    requires IsClosure(Rdfs, g, k) && p != RdfType && NoSubproperties(p, g) && NoSubproperties(RdfsSubPropertyOf, g)
    ensures forall t :: t in k && t.p == p ==> t in g
  {
    var part := OldSchema(p, g, k);
    forall a, b, c, t | a in part && b in part && c in part && Rdfs(a, b, c, t) ensures t in part {
      assert t in k;
      if a.p == RdfsSubPropertyOf && a.s == Ref(b.p) && a.o.Ref? && t == Triple(b.s, a.o.iri, b.o) {
        assert a in g;
        if t.p == p || t.p == RdfsSubPropertyOf {
          assert t == b;
        }
      }
    }
    assert Closed(Rdfs, part) && g <= part;
  }

  /** Where rdfs:subClassOf (or rdfs:subPropertyOf) has no subproperties, the hierarchy comes out
      as it was written. */
  lemma HierarchyAsWritten(p: Iri, g: set<Triple>, k: set<Triple>)
    requires IsClosure(Rdfs, g, k) && (p == RdfsSubClassOf || p == RdfsSubPropertyOf)
    requires NoSubproperties(p, g) && NoSubproperties(RdfsSubPropertyOf, g)
    ensures TransitiveOn(p, k) <==> TransitiveOn(p, g)
  {
    NoNewTriples(p, g, k);
    assert g <= k;
  }

  /** rdfs7 alone: what is stated with a property is stated with the ones above it. */
  predicate Raises(a: Triple, b: Triple, c: Triple, t: Triple) {
    a.p == RdfsSubPropertyOf && a.s == Ref(b.p) && a.o.Ref? && t == Triple(b.s, a.o.iri, b.o)
  }

  /** rdf:type is not made a subproperty of anything else. */
  ghost predicate TypeIsTop(g: set<Triple>) {
    forall t :: t in g && t.p == RdfsSubPropertyOf && t.s == Ref(RdfType) && t.o.Ref? ==> t.o == t.s
  }

  /** The other rules add types only. */
  lemma OnlyTypesMore(g: set<Triple>, h: set<Triple>, k: set<Triple>)
    requires IsClosure(Rdfs, g, k) && IsClosure(Raises, g, h) && TypeIsTop(h)
    ensures h <= k && forall t :: t in k && t.p != RdfType ==> t in h
  {
    assert Closed(Raises, k);
    var part := set t | t in k && (t.p == RdfType || t in h);
    forall a, b, c, t | a in part && b in part && c in part && Rdfs(a, b, c, t) ensures t in part {
      assert t in k;
      if Raises(a, b, c, t) && t.p != RdfType {
        assert a in h && b in h && Raises(a, b, b, t);
      }
    }
    assert Closed(Rdfs, part) && g <= part;
  }

  /** With rdfs7 alone applied to the input, whatever subproperties it states, a caller sees
      whether the result will be closed under rdfs11 (or rdfs5): exactly when that is. */
  lemma HierarchyClosedIff(p: Iri, g: set<Triple>, h: set<Triple>, k: set<Triple>)
    requires IsClosure(Rdfs, g, k) && IsClosure(Raises, g, h) && TypeIsTop(h)
    requires p == RdfsSubClassOf || p == RdfsSubPropertyOf
    ensures TransitiveOn(p, k) <==> TransitiveOn(p, h)
  {
    OnlyTypesMore(g, h, k);
  }

  // ---------------------------------------------------------------------------
  // eq-rep-p
  // ---------------------------------------------------------------------------

  /** Closed under eq-rep-p of section 4.3 of OWL 2 Profiles: predicates may be replaced by
      equal IRIs. */
  ghost predicate PredicatesReplaced(g: set<Triple>) {
    forall p, q, b :: Triple(Ref(p), OwlSameAs, Ref(q)) in g && b in g && b.p == p ==> Triple(b.s, q, b.o) in g
  }

  /** The vocabulary that makes a triple an axiom. */
  predicate IsAxiom(t: Triple) {
    t.p in {RdfsDomain, RdfsRange, RdfsSubClassOf, RdfsSubPropertyOf, OwlInverseOf, OwlEquivalentProperty, OwlEquivalentClass} ||
    (t.p == RdfType && IsAxiomClass(t.o))
  }

  predicate IsAxiomClass(t: Term) {
    t in {Ref(OwlSymmetricProperty), Ref(OwlTransitiveProperty), Ref(OwlInverseFunctionalProperty)}
  }

  /** Facts and sameAs only: no axioms, literals are not subjects, and the vocabulary itself is
      not equated with anything. */
  ghost predicate FactsOnly(g: set<Triple>) {
    forall t :: t in g ==> IsFact(t)
  }

  predicate IsFact(t: Triple) {
    !IsAxiom(t) && IsSubject(t.s) && (t.p == OwlSameAs ==> !IsReserved(t.s) && !IsReserved(t.o))
  }

  predicate IsReserved(t: Term) {
    IsAxiomClass(t) || t == Ref(OwlSameAs)
  }

  ghost predicate Equal(g: set<Triple>, x: Term, y: Term) {
    Equivalent(OwlEngine.SameAsPairs(g), x, y)
  }

  /** The fact of `g` that a triple is a spelling of. */
  ghost predicate Spells(g: set<Triple>, t: Triple) {
    if t.p == OwlSameAs then Equal(g, t.s, t.o) else exists u :: u in g && SameFact(g, u, t)
  }

  ghost predicate SameFact(g: set<Triple>, u: Triple, t: Triple) {
    u.p == t.p && Equal(g, u.s, t.s) && Equal(g, u.o, t.o)
  }

  /** Every fact with a predicate equal to another IRI is also stated, up to equals, with that
      one. */
  ghost predicate PredicatesAgree(g: set<Triple>) {
    forall p, q, u :: u in g && u.p == p && p != OwlSameAs && p != q && Equal(g, Ref(p), Ref(q)) ==> StatedWith(g, u, q)
  }

  ghost predicate StatedWith(g: set<Triple>, u: Triple, q: Iri) {
    exists v :: v in g && v.p == q && Equal(g, v.s, u.s) && Equal(g, v.o, u.o)
  }

  ghost predicate AllSpell(g: set<Triple>, k: set<Triple>) {
    forall t :: t in k ==> Spells(g, t)
  }

  lemma SpelledFrom(g: set<Triple>, k: set<Triple>, t: Triple) returns (u: Triple)
    requires AllSpell(g, k) && t in k && t.p != OwlSameAs
    ensures u in g && SameFact(g, u, t)
  {
    assert Spells(g, t);
    u :| u in g && SameFact(g, u, t);
  }

  lemma SpelledEqual(g: set<Triple>, k: set<Triple>, x: Term, y: Term)
    requires AllSpell(g, k) && Triple(x, OwlSameAs, y) in k
    ensures Equal(g, x, y)
  {
    assert Spells(g, Triple(x, OwlSameAs, y));
  }

  /** A term that no sameAs triple mentions equals only itself. */
  lemma AloneIsAlone(g: set<Triple>, x: Term, y: Term)
    requires Equal(g, x, y) && forall t :: t in g && t.p == OwlSameAs ==> t.s != x && t.o != x
    ensures x == y
  {
    var w :| IsChain(OwlEngine.SameAsPairs(g), w) && w[0] == x && w[|w| - 1] == y;
    assert |w| > 1 ==> Linked(OwlEngine.SameAsPairs(g), w[0], w[1]);
  }

  lemma EqualTwice(g: set<Triple>, x: Term, y: Term, z: Term)
    requires Equal(g, x, y) && Equal(g, y, z)
    ensures Equal(g, x, z) && Equal(g, z, x)
  {
    EquivalentTrans(OwlEngine.SameAsPairs(g), x, y, z);
    EquivalentSym(OwlEngine.SameAsPairs(g), x, z);
  }

  lemma EqualBack(g: set<Triple>, x: Term, y: Term)
    requires Equal(g, x, y)
    ensures Equal(g, y, x)
  {
    EquivalentSym(OwlEngine.SameAsPairs(g), x, y);
  }

  lemma EqualSelf(g: set<Triple>, x: Term)
    ensures Equal(g, x, x)
  {
    EquivalentRefl(OwlEngine.SameAsPairs(g), x);
  }

  /** No spelling of a fact is an axiom. */
  lemma SpellingsAreNoAxioms(g: set<Triple>, t: Triple)
    requires FactsOnly(g) && Spells(g, t)
    ensures !IsAxiom(t)
  {
    if t.p != OwlSameAs {
      var u :| u in g && SameFact(g, u, t);
      if IsAxiomClass(t.o) {
        EqualBack(g, u.o, t.o);
        AloneIsAlone(g, t.o, u.o);
      }
    }
  }

  /** Replacing one end of a spelling by an equal term gives a spelling. */
  lemma RespelledSubject(g: set<Triple>, b: Triple, s: Term)
    requires Spells(g, b) && Equal(g, b.s, s)
    ensures Spells(g, Triple(s, b.p, b.o))
  {
    var t := Triple(s, b.p, b.o);
    if b.p == OwlSameAs {
      EqualBack(g, b.s, s);
      EqualTwice(g, s, b.s, b.o);
    } else {
      var u :| u in g && SameFact(g, u, b);
      EqualTwice(g, u.s, b.s, s);
      assert SameFact(g, u, t);
    }
  }

  lemma RespelledObject(g: set<Triple>, b: Triple, o: Term)
    requires Spells(g, b) && Equal(g, b.o, o)
    ensures Spells(g, Triple(b.s, b.p, o))
  {
    var t := Triple(b.s, b.p, o);
    if b.p == OwlSameAs {
      EqualTwice(g, b.s, b.o, o);
    } else {
      var u :| u in g && SameFact(g, u, b);
      EqualTwice(g, u.o, b.o, o);
      assert SameFact(g, u, t);
    }
  }

  lemma EqualityRespells(g: set<Triple>, a: Triple, b: Triple, c: Triple, t: Triple)
    requires Spells(g, a) && Spells(g, b) && OwlEquality(a, b, c, t)
    ensures Spells(g, t)
  {
    EqualBack(g, a.s, a.o);
    if t == Triple(a.o, OwlSameAs, a.s) {
    } else if b.s == a.s && t == Triple(a.o, b.p, b.o) {
      RespelledSubject(g, b, a.o);
    } else if b.s == a.o && t == Triple(a.s, b.p, b.o) {
      RespelledSubject(g, b, a.s);
    } else if b.o == a.s && t == Triple(b.s, b.p, a.o) {
      RespelledObject(g, b, a.o);
    } else {
      RespelledObject(g, b, a.s);
    }
  }

  lemma AxiomsNeedAxioms(a: Triple, b: Triple, c: Triple, t: Triple)
    requires Rdfs(a, b, c, t) || OwlAxioms(a, b, c, t)
    ensures IsAxiom(a)
  {
  }

  lemma InputSpells(g: set<Triple>, t: Triple)
    requires t in g
    ensures Spells(g, t)
  {
    if t.p == OwlSameAs {
      assert (t.s, t.o) in OwlEngine.SameAsPairs(g);
      EquivalentLink(OwlEngine.SameAsPairs(g), t.s, t.o);
    } else {
      EqualSelf(g, t.s);
      EqualSelf(g, t.o);
      assert SameFact(g, t, t);
    }
  }

  /** From facts and sameAs alone the result holds nothing but spellings of the facts. */
  lemma ClosureSpells(g: set<Triple>, k: set<Triple>)
    requires IsClosure(RdfsAndOwl, g, k) && FactsOnly(g)
    ensures AllSpell(g, k)
  {
    var part := set t | t in k && Spells(g, t);
    forall a, b, c, t | a in part && b in part && c in part && RdfsAndOwl(a, b, c, t) ensures t in part {
      assert t in k;
      SpellingsAreNoAxioms(g, a);
      if Rdfs(a, b, c, t) || OwlAxioms(a, b, c, t) {
        AxiomsNeedAxioms(a, b, c, t);
      } else {
        EqualityRespells(g, a, b, c, t);
      }
    }
    forall t | t in g ensures t in part {
      InputSpells(g, t);
    }
    assert Closed(RdfsAndOwl, part) && g <= part;
  }

  lemma ForcedInClosure(g: set<Triple>, k: set<Triple>, r: Triple)
    requires IsClosure(RdfsAndOwl, g, k) && OwlEngine.Forced(g, r)
    ensures r in k
  {
    ClosedByFewer(Owl, RdfsAndOwl, k);
  }

  lemma RulesKeepSubjects(a: Triple, b: Triple, c: Triple, t: Triple)
    requires RdfsAndOwl(a, b, c, t) && IsSubject(a.s) && IsSubject(b.s) && IsSubject(c.s)
    ensures IsSubject(t.s)
  {
  }

  lemma SubjectsStay(g: set<Triple>, k: set<Triple>)
    requires IsClosure(RdfsAndOwl, g, k) && FactsOnly(g)
    ensures forall t :: t in k ==> IsSubject(t.s)
  {
    var part := set t | t in k && IsSubject(t.s);
    forall a, b, c, t | a in part && b in part && c in part && RdfsAndOwl(a, b, c, t) ensures t in part {
      RulesKeepSubjects(a, b, c, t);
      assert t in k;
    }
    assert Closed(RdfsAndOwl, part) && g <= part;
  }

  /** All spellings with a subject in front are in the result. */
  lemma SpellingInClosure(g: set<Triple>, k: set<Triple>, u: Triple, t: Triple)
    requires IsClosure(RdfsAndOwl, g, k) && u in g && SameFact(g, u, t) && IsSubject(t.s)
    ensures t in k
  {
    EqualBack(g, u.s, t.s);
    EqualBack(g, u.o, t.o);
    OwlEngine.EqualSubject(g, u, t.s);
    OwlEngine.EqualObject(g, Triple(t.s, u.p, u.o), t.o);
    ForcedInClosure(g, k, t);
  }

  lemma SameAsInClosure(g: set<Triple>, k: set<Triple>, p: Iri, q: Iri)
    requires IsClosure(RdfsAndOwl, g, k) && Equal(g, Ref(p), Ref(q)) && p != q
    ensures Triple(Ref(p), OwlSameAs, Ref(q)) in k
  {
    OwlEngine.EqualForced(g, Ref(p), Ref(q));
    ForcedInClosure(g, k, Triple(Ref(p), OwlSameAs, Ref(q)));
  }

  /** On facts and sameAs, the result is closed under eq-rep-p if and only if every fact whose
      predicate equals another IRI was also stated with that one. */
  lemma PredicatesReplacedIff(g: set<Triple>, k: set<Triple>)
    requires IsClosure(RdfsAndOwl, g, k) && FactsOnly(g)
    ensures PredicatesReplaced(k) <==> PredicatesAgree(g)
  {
    ClosureSpells(g, k);
    SubjectsStay(g, k);
    if PredicatesReplaced(k) {
      forall p, q, u | u in g && u.p == p && p != OwlSameAs && p != q && Equal(g, Ref(p), Ref(q)) ensures StatedWith(g, u, q) {
        ReplacedIsStated(g, k, u, q);
      }
    }
    if PredicatesAgree(g) {
      forall p, q, b | Triple(Ref(p), OwlSameAs, Ref(q)) in k && b in k && b.p == p ensures Triple(b.s, q, b.o) in k {
        StatedIsReplaced(g, k, b, q);
      }
    }
  }

  lemma ReplacedIsStated(g: set<Triple>, k: set<Triple>, u: Triple, q: Iri)
    requires IsClosure(RdfsAndOwl, g, k) && FactsOnly(g) && PredicatesReplaced(k) && AllSpell(g, k)
    requires u in g && u.p != q && Equal(g, Ref(u.p), Ref(q))
    ensures StatedWith(g, u, q)
  {
    SameAsInClosure(g, k, u.p, q);
    NotSameAs(g, u.p, q);
    var t := Triple(u.s, q, u.o);
    var v := SpelledFrom(g, k, t);
    assert v in g && v.p == q && Equal(g, v.s, u.s) && Equal(g, v.o, u.o);
  }

  /** owl:sameAs itself equals nothing else. */
  lemma NotSameAs(g: set<Triple>, p: Iri, q: Iri)
    requires FactsOnly(g) && Equal(g, Ref(p), Ref(q)) && p != q
    ensures p != OwlSameAs && q != OwlSameAs
  {
    if p == OwlSameAs {
      AloneIsAlone(g, Ref(p), Ref(q));
    }
    if q == OwlSameAs {
      EqualBack(g, Ref(p), Ref(q));
      AloneIsAlone(g, Ref(q), Ref(p));
    }
  }

  lemma StatedIsReplaced(g: set<Triple>, k: set<Triple>, b: Triple, q: Iri)
    requires IsClosure(RdfsAndOwl, g, k) && FactsOnly(g) && PredicatesAgree(g) && AllSpell(g, k)
    requires b in k && IsSubject(b.s) && Triple(Ref(b.p), OwlSameAs, Ref(q)) in k
    ensures Triple(b.s, q, b.o) in k
  {
    SpelledEqual(g, k, Ref(b.p), Ref(q));
    if b.p == q {
      assert Triple(b.s, q, b.o) == b;
    } else {
      NotSameAs(g, b.p, q);
      var u := SpelledFrom(g, k, b);
      assert StatedWith(g, u, q);
      var v := StatedOther(g, u, q, b);
      SpellingInClosure(g, k, v, Triple(b.s, q, b.o));
    }
  }

  lemma StatedOther(g: set<Triple>, u: Triple, q: Iri, b: Triple) returns (v: Triple)
    requires StatedWith(g, u, q) && SameFact(g, u, b)
    ensures v in g && SameFact(g, v, Triple(b.s, q, b.o))
  {
    v :| v in g && v.p == q && Equal(g, v.s, u.s) && Equal(g, v.o, u.o);
    EqualTwice(g, v.s, u.s, b.s);
    EqualTwice(g, v.o, u.o, b.o);
  }

  // ---------------------------------------------------------------------------
  // An input that eq-rep-p would change
  // ---------------------------------------------------------------------------

  function Renamed(p: Iri, q: Iri): set<Triple> {
    {Triple(Ref(p), OwlSameAs, Ref(q)), Triple(Blank("x"), p, Blank("y"))}
  }

  /** Two equal predicates and one fact: the result does not state it with the other predicate. */
  lemma RenamedFactIsMissing(p: Iri, q: Iri, k: set<Triple>)
    requires p == Named("p") && q == Named("q") && IsClosure(RdfsAndOwl, Renamed(p, q), k)
    ensures !PredicatesReplaced(k)
  {
    var g := Renamed(p, q);
    assert "p"[0] != "q"[0];
    assert FactsOnly(g);
    var u := Triple(Blank("x"), p, Blank("y"));
    InputSpells(g, Triple(Ref(p), OwlSameAs, Ref(q)));
    assert Equal(g, Ref(p), Ref(q)) && u in g && !StatedWith(g, u, q);
    PredicatesReplacedIff(g, k);
  }
}
