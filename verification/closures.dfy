/** RDF terms and graphs as the reasoner sees them, the entailment rules it implements,
    and least closures under them. Terms are identified by value, as TermKey does. */
module Closures {
  import opened Common

  /** IRIs. The vocabulary the rules mention has its own constructors. */
  datatype Iri =
    | RdfType | RdfsDomain | RdfsRange | RdfsSubClassOf | RdfsSubPropertyOf
    | OwlSameAs | OwlInverseOf | OwlEquivalentProperty | OwlEquivalentClass
    | OwlSymmetricProperty | OwlTransitiveProperty | OwlInverseFunctionalProperty
    | Named(text: string)

  datatype Term =
    | Ref(iri: Iri)
    | Blank(id: string)
    | Literal(lexical: string, datatypeIri: string, language: string)
    | Quoted(subj: Term, pred: Iri, obj: Term)

  datatype Triple = Triple(s: Term, p: Iri, o: Term)

  /** Whether a term may stand in subject position. */
  predicate IsSubject(t: Term) {
    !t.Literal?
  }

  predicate IsRef(t: Term) {
    t.Ref?
  }

  /** A rule set: which triple three premises (not necessarily distinct) entail. */
  type Rules = (Triple, Triple, Triple, Triple) -> bool

  /** rdfs2, rdfs3, rdfs7 and rdfs9 of section 9.2.1 of RDF 1.1 Semantics: `a` is the
      schema triple, `b` the triple it is applied to. */
  predicate Rdfs(a: Triple, b: Triple, c: Triple, t: Triple) {
    || (a.p == RdfsDomain && a.s == Ref(b.p) && IsSubject(a.o) && t == Triple(b.s, RdfType, a.o))
    || (a.p == RdfsRange && a.s == Ref(b.p) && IsSubject(a.o) && IsSubject(b.o) && t == Triple(b.o, RdfType, a.o))
    || (a.p == RdfsSubPropertyOf && a.s == Ref(b.p) && a.o.Ref? && t == Triple(b.s, a.o.iri, b.o))
    || (a.p == RdfsSubClassOf && b.p == RdfType && a.s == b.o && IsSubject(a.o) && t == Triple(b.s, RdfType, a.o))
  }

  /** Property and class axioms of section 4.3 of OWL 2 Profiles: prp-symp, prp-inv1/2,
      prp-eqp1/2, cax-eqc1/2, prp-trp and prp-ifp (for distinct subjects). */
  predicate OwlAxioms(a: Triple, b: Triple, c: Triple, t: Triple) {
    || (a == Triple(Ref(b.p), RdfType, Ref(OwlSymmetricProperty)) && IsSubject(b.o) && t == Triple(b.o, b.p, b.s))
    || (a.p == OwlInverseOf && a.s.Ref? && a.o.Ref? && a.s == Ref(b.p) && IsSubject(b.o) && t == Triple(b.o, a.o.iri, b.s))
    || (a.p == OwlInverseOf && a.s.Ref? && a.o.Ref? && a.o == Ref(b.p) && IsSubject(b.o) && t == Triple(b.o, a.s.iri, b.s))
    || (a.p == OwlEquivalentProperty && a.s.Ref? && a.o.Ref? && a.s == Ref(b.p) && t == Triple(b.s, a.o.iri, b.o))
    || (a.p == OwlEquivalentProperty && a.s.Ref? && a.o.Ref? && a.o == Ref(b.p) && t == Triple(b.s, a.s.iri, b.o))
    || (a.p == OwlEquivalentClass && IsSubject(a.o) && b.p == RdfType && b.o == a.s && t == Triple(b.s, RdfType, a.o))
    || (a.p == OwlEquivalentClass && IsSubject(a.o) && b.p == RdfType && b.o == a.o && t == Triple(b.s, RdfType, a.s))
    || (a == Triple(Ref(b.p), RdfType, Ref(OwlTransitiveProperty)) && c.p == b.p && c.s == b.o && t == Triple(b.s, b.p, c.o))
    || (a == Triple(Ref(b.p), RdfType, Ref(OwlInverseFunctionalProperty)) && c.p == b.p && c.o == b.o && b.s != c.s
        && t == Triple(b.s, OwlSameAs, c.s))
  }

  /** Equality of section 4.3 of OWL 2 Profiles: eq-sym, eq-trans, and substitution of
      subject and object in both directions. Reading a sameAs triple backwards in the
      substitutions is what eq-sym gives for a literal, which cannot be a subject. */
  predicate OwlEquality(a: Triple, b: Triple, c: Triple, t: Triple) {
    a.p == OwlSameAs &&
    ( || (IsSubject(a.o) && t == Triple(a.o, OwlSameAs, a.s))
      || (b.p == OwlSameAs && b.s == a.o && t == Triple(a.s, OwlSameAs, b.o))
      || (b.s == a.s && IsSubject(a.o) && t == Triple(a.o, b.p, b.o))
      || (b.s == a.o && IsSubject(a.s) && t == Triple(a.s, b.p, b.o))
      || (b.o == a.s && t == Triple(b.s, b.p, a.o))
      || (b.o == a.o && t == Triple(b.s, b.p, a.s)))
  }

  predicate Owl(a: Triple, b: Triple, c: Triple, t: Triple) {
    OwlAxioms(a, b, c, t) || OwlEquality(a, b, c, t)
  }

  predicate RdfsAndOwl(a: Triple, b: Triple, c: Triple, t: Triple) {
    Rdfs(a, b, c, t) || Owl(a, b, c, t)
  }

  // ---------------------------------------------------------------------------
  // Closures
  // ---------------------------------------------------------------------------

  ghost predicate Closed(rules: Rules, g: set<Triple>) {
    forall a, b, c, t :: a in g && b in g && c in g && rules(a, b, c, t) ==> t in g
  }

  /** `g` holds the input and only what the rules entail from it. */
  ghost predicate Entailed(rules: Rules, input: set<Triple>, g: set<Triple>) {
    input <= g && forall k :: input <= k && Closed(rules, k) ==> g <= k
  }

  ghost predicate IsClosure(rules: Rules, input: set<Triple>, g: set<Triple>) {
    Entailed(rules, input, g) && Closed(rules, g)
  }

  lemma EntailedTrans(rules: Rules, a: set<Triple>, b: set<Triple>, c: set<Triple>)
    requires Entailed(rules, a, b) && Entailed(rules, b, c)
    ensures Entailed(rules, a, c)
  {
  }

  lemma EntailedByMore(few: Rules, many: Rules, input: set<Triple>, g: set<Triple>)
    requires Entailed(few, input, g)
    requires forall a, b, c, t :: few(a, b, c, t) ==> many(a, b, c, t)
    ensures Entailed(many, input, g)
  {
    forall k | input <= k && Closed(many, k) ensures g <= k {
      assert Closed(few, k);
    }
  }

  // ---------------------------------------------------------------------------
  // The finite universe the rules stay in
  // ---------------------------------------------------------------------------

  ghost function Nodes(g: set<Triple>): set<Term> {
    (set t | t in g :: t.s) + (set t | t in g :: t.o)
  }

  ghost function Predicates(g: set<Triple>): set<Iri> {
    (set t | t in g :: t.p) + (set n | n in Nodes(g) && n.Ref? :: n.iri) + {RdfType, OwlSameAs}
  }

  /** Every triple over the nodes and predicates of `g`. */
  ghost function Universe(g: set<Triple>): set<Triple> {
    set s, p, o | s in Nodes(g) && p in Predicates(g) && o in Nodes(g) :: Triple(s, p, o)
  }

  ghost predicate Over(nodes: set<Term>, preds: set<Iri>, t: Triple) {
    t.s in nodes && t.p in preds && t.o in nodes
  }

  ghost predicate NamesItsNodes(nodes: set<Term>, preds: set<Iri>) {
    RdfType in preds && OwlSameAs in preds && forall i :: Ref(i) in nodes ==> i in preds
  }

  lemma UniverseMembers(g: set<Triple>)
    ensures forall t :: t in Universe(g) <==> Over(Nodes(g), Predicates(g), t)
    ensures NamesItsNodes(Nodes(g), Predicates(g))
  {
    forall t | Over(Nodes(g), Predicates(g), t) ensures t in Universe(g) {
      assert t == Triple(t.s, t.p, t.o);
    }
    forall i | Ref(i) in Nodes(g) ensures i in Predicates(g) {
      assert Ref(i).Ref? && Ref(i).iri == i;
    }
  }

  lemma RulesStayOver(nodes: set<Term>, preds: set<Iri>, a: Triple, b: Triple, c: Triple, t: Triple)
    requires NamesItsNodes(nodes, preds) && Over(nodes, preds, a) && Over(nodes, preds, b) && Over(nodes, preds, c)
    requires RdfsAndOwl(a, b, c, t)
    ensures Over(nodes, preds, t)
  {
    if a.o.Ref? {
      assert a.o == Ref(a.o.iri);
    }
    if a.s.Ref? {
      assert a.s == Ref(a.s.iri);
    }
  }

  lemma UniverseIsClosed(g: set<Triple>)
    ensures g <= Universe(g)
    ensures Closed(RdfsAndOwl, Universe(g)) && Closed(Rdfs, Universe(g)) && Closed(Owl, Universe(g))
  {
    UniverseMembers(g);
    forall a, b, c, t | a in Universe(g) && b in Universe(g) && c in Universe(g) && RdfsAndOwl(a, b, c, t)
      ensures t in Universe(g)
    {
      RulesStayOver(Nodes(g), Predicates(g), a, b, c, t);
    }
    assert forall a, b, c, t :: Rdfs(a, b, c, t) ==> RdfsAndOwl(a, b, c, t);
    assert forall a, b, c, t :: Owl(a, b, c, t) ==> RdfsAndOwl(a, b, c, t);
    ClosedByFewer(Rdfs, RdfsAndOwl, Universe(g));
    ClosedByFewer(Owl, RdfsAndOwl, Universe(g));
  }

  lemma ClosedByFewer(few: Rules, many: Rules, g: set<Triple>)
    requires Closed(many, g)
    requires forall a, b, c, t :: few(a, b, c, t) ==> many(a, b, c, t)
    ensures Closed(few, g)
  {
  }

  /** Entailed graphs are bounded, which is why the closures terminate. */
  lemma EntailedIsBounded(rules: Rules, input: set<Triple>, g: set<Triple>)
    requires Entailed(rules, input, g) && Closed(rules, Universe(input))
    ensures |g| <= |Universe(input)|
  {
    UniverseIsClosed(input);
    SubsetSize(g, Universe(input));
  }
}
