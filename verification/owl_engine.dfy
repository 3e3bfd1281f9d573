/** The OWL 2 RL engine for symmetric, transitive and inverse functional properties,
    inverseOf, equivalentProperty, equivalentClass and sameAs (reasoning/owlrl.go,
    owlrl_property.go, owlrl_equality.go). */
module OwlEngine {
  import opened Common
  import opened Closures
  import opened GraphAccess
  import opened Graphs
  import opened UnionFinds

  /** The schema indexes of `buildSchemaIndexes`. */
  datatype Axioms = Axioms(symmetric: set<Term>, transitive: set<Term>, invFunctional: set<Term>,
                           inverseOf: Index, equivProp: Index, equivClass: Index)

  ghost predicate Marks(s: set<Term>, g: set<Triple>, class_: Iri) {
    forall k :: k in s <==> Triple(k, RdfType, Ref(class_)) in g
  }

  /** An axiom indexed from both of its sides. */
  ghost predicate IndexesBothWays(m: Index, g: set<Triple>, p: Iri, keepS: Term -> bool, keepO: Term -> bool) {
    forall k, v :: InIndex(m, k, v) <==>
      (Triple(k, p, v) in g && keepS(k) && keepO(v)) || (Triple(v, p, k) in g && keepS(v) && keepO(k))
  }

  predicate Any(t: Term) {
    true
  }

  ghost predicate UpToDate(e: Axioms, g: set<Triple>) {
    Marks(e.symmetric, g, OwlSymmetricProperty) && Marks(e.transitive, g, OwlTransitiveProperty) &&
    Marks(e.invFunctional, g, OwlInverseFunctionalProperty) &&
    IndexesBothWays(e.inverseOf, g, OwlInverseOf, IsRef, IsRef) &&
    IndexesBothWays(e.equivProp, g, OwlEquivalentProperty, IsRef, IsRef) &&
    IndexesBothWays(e.equivClass, g, OwlEquivalentClass, Any, IsSubject)
  }

  ghost function SameAsPairs(g: set<Triple>): set<(Term, Term)> {
    set t | t in g && t.p == OwlSameAs :: (t.s, t.o)
  }

  predicate IsSchemaTriple(t: Triple) {
    match t.p
    case RdfType => t.o in {Ref(OwlSymmetricProperty), Ref(OwlTransitiveProperty), Ref(OwlInverseFunctionalProperty)}
    case OwlInverseOf => true
    case OwlEquivalentProperty => true
    case OwlEquivalentClass => true
    case OwlSameAs => true
    case _ => false
  }

  lemma StillUpToDate(e: Axioms, g: set<Triple>, g': set<Triple>)
    requires UpToDate(e, g) && g <= g' && forall t :: t in g' && t !in g ==> !IsSchemaTriple(t)
    ensures UpToDate(e, g') && SameAsPairs(g') == SameAsPairs(g)
  {
    SameMarks(e.symmetric, g, g', OwlSymmetricProperty);
    SameMarks(e.transitive, g, g', OwlTransitiveProperty);
    SameMarks(e.invFunctional, g, g', OwlInverseFunctionalProperty);
    SameBothWays(e.inverseOf, g, g', OwlInverseOf, IsRef, IsRef);
    SameBothWays(e.equivProp, g, g', OwlEquivalentProperty, IsRef, IsRef);
    SameBothWays(e.equivClass, g, g', OwlEquivalentClass, Any, IsSubject);
  }

  lemma SameMarks(s: set<Term>, g: set<Triple>, g': set<Triple>, class_: Iri)
    requires Marks(s, g, class_) && g <= g'
    requires forall t :: t in g' && t !in g ==> !(t.p == RdfType && t.o == Ref(class_))
    ensures Marks(s, g', class_)
  {
    forall k ensures k in s <==> Triple(k, RdfType, Ref(class_)) in g' {
      assert k in s <==> Triple(k, RdfType, Ref(class_)) in g;
    }
  }

  lemma SameBothWays(m: Index, g: set<Triple>, g': set<Triple>, p: Iri, keepS: Term -> bool, keepO: Term -> bool)
    requires IndexesBothWays(m, g, p, keepS, keepO) && g <= g' && forall t :: t in g' && t !in g ==> t.p != p
    ensures IndexesBothWays(m, g', p, keepS, keepO)
  {
    assert forall k, v :: Triple(k, p, v) in g' <==> Triple(k, p, v) in g;
  }

  // ---------------------------------------------------------------------------
  // What the rules force
  // ---------------------------------------------------------------------------

  /** `r` is in every graph that holds `g` and is closed under the rules. */
  ghost predicate Forced(g: set<Triple>, r: Triple) {
    forall k :: g <= k && Closed(Owl, k) ==> r in k
  }

  ghost predicate AllForced(g: set<Triple>, known: set<Triple>) {
    forall r :: r in known ==> Forced(g, r)
  }

  lemma ForcedByAxiom(g: set<Triple>, a: Triple, b: Triple, c: Triple, r: Triple)
    requires Forced(g, a) && Forced(g, b) && Forced(g, c) && Owl(a, b, c, r)
    ensures Forced(g, r)
  {
  }

  lemma MembersAreForced(g: set<Triple>)
    ensures AllForced(g, g)
  {
  }

  /** One triple with the property and class axioms. */
  ghost predicate Emits(e: Axioms, t: Triple, r: Triple) {
    || (Ref(t.p) in e.symmetric && IsSubject(t.o) && r == Triple(t.o, t.p, t.s))
    || (InIndex(e.inverseOf, Ref(t.p), Ref(r.p)) && IsSubject(t.o) && r == Triple(t.o, r.p, t.s))
    || (InIndex(e.equivProp, Ref(t.p), Ref(r.p)) && r == Triple(t.s, r.p, t.o))
    || (t.p == RdfType && InIndex(e.equivClass, t.o, r.o) && r == Triple(t.s, RdfType, r.o))
  }

  lemma EmitsIsForced(e: Axioms, g: set<Triple>, t: Triple, r: Triple)
    requires UpToDate(e, g) && t in g && Emits(e, t, r)
    ensures Forced(g, r)
  {
    if Ref(t.p) in e.symmetric && IsSubject(t.o) && r == Triple(t.o, t.p, t.s) {
      ForcedByAxiom(g, Triple(Ref(t.p), RdfType, Ref(OwlSymmetricProperty)), t, t, r);
    } else if InIndex(e.inverseOf, Ref(t.p), Ref(r.p)) && IsSubject(t.o) && r == Triple(t.o, r.p, t.s) {
      ForcedEitherWay(g, t, r, OwlInverseOf, Ref(t.p), Ref(r.p));
    } else if InIndex(e.equivProp, Ref(t.p), Ref(r.p)) && r == Triple(t.s, r.p, t.o) {
      ForcedEitherWay(g, t, r, OwlEquivalentProperty, Ref(t.p), Ref(r.p));
    } else {
      ForcedEitherWay(g, t, r, OwlEquivalentClass, t.o, r.o);
    }
  }

  lemma ForcedEitherWay(g: set<Triple>, t: Triple, r: Triple, p: Iri, x: Term, y: Term)
    requires t in g
    requires || (Triple(x, p, y) in g && Owl(Triple(x, p, y), t, t, r))
             || (Triple(y, p, x) in g && Owl(Triple(y, p, x), t, t, r))
    ensures Forced(g, r)
  {
    if Triple(x, p, y) in g && Owl(Triple(x, p, y), t, t, r) {
      ForcedByAxiom(g, Triple(x, p, y), t, t, r);
    } else {
      ForcedByAxiom(g, Triple(y, p, x), t, t, r);
    }
  }

  // ---------------------------------------------------------------------------
  // Equality
  // ---------------------------------------------------------------------------

  /** A chain of sameAs triples, read in either direction, forces the sameAs triple between
      its ends. A literal may only start a chain it is the stated subject of. */
  lemma {:induction false} SameAsChain(g: set<Triple>, w: seq<Term>)
    requires IsChain(SameAsPairs(g), w) && |w| >= 2
    requires IsSubject(w[0]) || (w[0], w[1]) in SameAsPairs(g)
    ensures Forced(g, Triple(w[0], OwlSameAs, w[|w| - 1]))
  {
    var n := |w| - 1;
    assert Linked(SameAsPairs(g), w[n - 1], w[n]);
    var fwd, bwd := Triple(w[n - 1], OwlSameAs, w[n]), Triple(w[n], OwlSameAs, w[n - 1]);
    assert fwd in g || bwd in g;
    if n == 1 {
      if fwd !in g {
        ForcedByAxiom(g, bwd, bwd, bwd, fwd);
      }
    } else {
      var init := w[..n];
      forall i | 0 <= i < |init| - 1 ensures Linked(SameAsPairs(g), init[i], init[i + 1]) {
        assert Linked(SameAsPairs(g), w[i], w[i + 1]);
      }
      SameAsChain(g, init);
      var sofar := Triple(w[0], OwlSameAs, w[n - 1]);
      if fwd in g {
        ForcedByAxiom(g, sofar, fwd, fwd, Triple(w[0], OwlSameAs, w[n]));
      } else {
        ForcedByAxiom(g, bwd, sofar, sofar, Triple(w[0], OwlSameAs, w[n]));
      }
    }
  }

  ghost predicate SameClass(root: map<Term, Term>, x: Term, y: Term) {
    x in root && y in root && root[x] == root[y]
  }

  /** Equal terms are sameAs each other. */
  lemma EqualForced(g: set<Triple>, x: Term, y: Term)
    requires Equivalent(SameAsPairs(g), x, y) && x != y && IsSubject(x)
    ensures Forced(g, Triple(x, OwlSameAs, y))
  {
    var w :| IsChain(SameAsPairs(g), w) && w[0] == x && w[|w| - 1] == y;
    SameAsChain(g, w);
  }

  /** A subject may be replaced by an equal one. */
  lemma EqualSubject(g: set<Triple>, t: Triple, s': Term)
    requires Forced(g, t) && Equivalent(SameAsPairs(g), s', t.s) && (s' == t.s || IsSubject(s'))
    ensures Forced(g, Triple(s', t.p, t.o))
  {
    if s' != t.s {
      EqualForced(g, s', t.s);
      ForcedByAxiom(g, Triple(s', OwlSameAs, t.s), t, t, Triple(s', t.p, t.o));
    }
  }

  /** An object may be replaced by an equal one, literals included. */
  lemma EqualObject(g: set<Triple>, t: Triple, o': Term)
    requires Forced(g, t) && Equivalent(SameAsPairs(g), o', t.o)
    ensures Forced(g, Triple(t.s, t.p, o'))
  {
    var o, r := t.o, Triple(t.s, t.p, o');
    if o' == o {
      assert r == t;
    } else if IsSubject(o') {
      EqualForced(g, o', o);
      ForcedByAxiom(g, Triple(o', OwlSameAs, o), t, t, r);
    } else if IsSubject(o) {
      EquivalentSym(SameAsPairs(g), o', o);
      EqualForced(g, o, o');
      ForcedByAxiom(g, Triple(o, OwlSameAs, o'), t, t, r);
    } else {
      LiteralReplaced(g, t, o');
    }
  }

  lemma LiteralReplaced(g: set<Triple>, t: Triple, o': Term)
    requires Forced(g, t) && Equivalent(SameAsPairs(g), o', t.o) && o' != t.o
    ensures Forced(g, Triple(t.s, t.p, o'))
  {
    var o, r := t.o, Triple(t.s, t.p, o');
    var w :| IsChain(SameAsPairs(g), w) && w[0] == o' && w[|w| - 1] == o;
    assert Linked(SameAsPairs(g), w[0], w[1]);
    if (w[0], w[1]) in SameAsPairs(g) {
      SameAsChain(g, w);
      ForcedByAxiom(g, Triple(o', OwlSameAs, o), t, t, r);
    } else {
      BackwardLink(g, t, w);
    }
  }

  /** Terms that may replace a subject or an object. */
  ghost predicate ForSubject(root: map<Term, Term>, s: Term, s': Term) {
    s' == s || (SameClass(root, s, s') && IsSubject(s'))
  }

  ghost predicate ForObject(root: map<Term, Term>, o: Term, o': Term) {
    o' == o || SameClass(root, o, o')
  }

  /** One class of the union-find is one class of equal terms. */
  lemma SameClassIsEqual(g: set<Triple>, root: map<Term, Term>, x: Term, y: Term)
    requires Represents(root, SameAsPairs(g)) && (x == y || SameClass(root, x, y))
    ensures Equivalent(SameAsPairs(g), x, y)
  {
    if x == y {
      EquivalentRefl(SameAsPairs(g), x);
    }
  }

  /** A chain whose first link is stated backwards, walked from its second node. */
  lemma BackwardLink(g: set<Triple>, t: Triple, w: seq<Term>)
    requires Forced(g, t)
    requires IsChain(SameAsPairs(g), w) && |w| >= 2 && w[|w| - 1] == t.o && (w[1], w[0]) in SameAsPairs(g)
    ensures Forced(g, Triple(t.s, t.p, w[0]))
  {
    var bwd := Triple(w[1], OwlSameAs, w[0]);
    var v := [w[1]] + w;
    forall i | 0 <= i < |v| - 1 ensures Linked(SameAsPairs(g), v[i], v[i + 1]) {
      if i > 0 {
        assert Linked(SameAsPairs(g), w[i - 1], w[i]);
      }
    }
    assert IsChain(SameAsPairs(g), v) && v[0] == w[1] && v[1] == w[0] && v[|v| - 1] == t.o;
    SameAsChain(g, v);
    var mid := Triple(t.s, t.p, w[1]);
    ForcedByAxiom(g, Triple(w[1], OwlSameAs, t.o), t, t, mid);
    ForcedByAxiom(g, bwd, mid, mid, Triple(t.s, t.p, w[0]));
  }

  /** Substituting equals on both sides of a triple is forced. */
  lemma SubstitutionForced(g: set<Triple>, root: map<Term, Term>, t: Triple, s': Term, o': Term)
    requires Represents(root, SameAsPairs(g)) && t in g && ForSubject(root, t.s, s') && ForObject(root, t.o, o')
    ensures Forced(g, Triple(s', t.p, o'))
  {
    SameClassIsEqual(g, root, s', t.s);
    EqualSubject(g, t, s');
    SameClassIsEqual(g, root, o', t.o);
    EqualObject(g, Triple(s', t.p, t.o), o');
  }

  // ---------------------------------------------------------------------------
  // A complete pass
  // ---------------------------------------------------------------------------

  ghost predicate AxiomsApplied(e: Axioms, t: Triple, known: set<Triple>) {
    forall r :: Emits(e, t, r) ==> r in known
  }

  ghost predicate EqualsSubstituted(root: map<Term, Term>, t: Triple, known: set<Triple>) {
    forall s', o' :: ForSubject(root, t.s, s') && ForObject(root, t.o, o') ==> Triple(s', t.p, o') in known
  }

  ghost predicate StepsComposed(e: Axioms, g: set<Triple>, t: Triple, known: set<Triple>) {
    Ref(t.p) in e.transitive ==> forall o :: Triple(t.o, t.p, o) in g ==> Triple(t.s, t.p, o) in known
  }

  ghost predicate Spoke(known: set<Triple>, hub: Term, x: Term) {
    hub == x || (Triple(hub, OwlSameAs, x) in known && Triple(x, OwlSameAs, hub) in known)
  }

  /** The subjects of one inverse functional value are all linked to one of them. */
  ghost predicate Gathered(g: set<Triple>, p: Iri, o: Term, known: set<Triple>) {
    exists hub :: IsHub(g, p, o, known, hub)
  }

  ghost predicate IsHub(g: set<Triple>, p: Iri, o: Term, known: set<Triple>, hub: Term) {
    forall x :: Triple(x, p, o) in g ==> Spoke(known, hub, x)
  }

  ghost predicate PassComplete(e: Axioms, root: map<Term, Term>, g: set<Triple>, known: set<Triple>) {
    && (forall t :: t in g ==> AxiomsApplied(e, t, known))
    && (forall t :: t in g ==> EqualsSubstituted(root, t, known))
    && (forall t :: t in g ==> StepsComposed(e, g, t, known))
    && (forall p, o :: Ref(p) in e.invFunctional ==> Gathered(g, p, o, known))
  }

  /** A complete pass that found nothing new leaves a graph closed under the rules. */
  lemma QuietPassIsClosed(e: Axioms, root: map<Term, Term>, g: set<Triple>)
    requires UpToDate(e, g) && Represents(root, SameAsPairs(g)) && PassComplete(e, root, g, g)
    ensures Closed(Owl, g)
  {
    forall a, b, c, t | a in g && b in g && c in g && Owl(a, b, c, t) ensures t in g {
      if OwlEquality(a, b, c, t) {
        QuietEquality(root, g, a, b, c, t);
      } else {
        QuietAxioms(e, root, g, a, b, c, t);
      }
    }
  }

  lemma SameAsIsSameClass(root: map<Term, Term>, g: set<Triple>, x: Term, y: Term)
    requires Represents(root, SameAsPairs(g)) && Triple(x, OwlSameAs, y) in g
    ensures SameClass(root, x, y)
  {
    assert (x, y) in SameAsPairs(g) by {
      assert Triple(x, OwlSameAs, y).p == OwlSameAs;
    }
    EquivalentLink(SameAsPairs(g), x, y);
  }

  lemma QuietEquality(root: map<Term, Term>, g: set<Triple>, a: Triple, b: Triple, c: Triple, t: Triple)
    requires Represents(root, SameAsPairs(g)) && a in g && b in g && OwlEquality(a, b, c, t)
    requires forall u :: u in g ==> EqualsSubstituted(root, u, g)
    ensures t in g
  {
    assert a == Triple(a.s, OwlSameAs, a.o);
    SameAsIsSameClass(root, g, a.s, a.o);
    assert EqualsSubstituted(root, a, g) && EqualsSubstituted(root, b, g);
    if b.p == OwlSameAs && b.s == a.o {
      assert b == Triple(b.s, OwlSameAs, b.o);
      SameAsIsSameClass(root, g, b.s, b.o);
      assert ForObject(root, a.o, b.o) && ForSubject(root, a.s, a.s);
    }
    assert ForSubject(root, b.s, b.s) && ForObject(root, b.o, b.o);
    assert SameClass(root, a.o, a.s);
  }

  lemma QuietAxioms(e: Axioms, root: map<Term, Term>, g: set<Triple>, a: Triple, b: Triple, c: Triple, t: Triple)
    requires UpToDate(e, g) && Represents(root, SameAsPairs(g)) && PassComplete(e, root, g, g)
    requires a in g && b in g && c in g && OwlAxioms(a, b, c, t)
    ensures t in g
  {
    assert a == Triple(a.s, a.p, a.o) && b == Triple(b.s, b.p, b.o) && c == Triple(c.s, c.p, c.o);
    assert AxiomsApplied(e, b, g) && StepsComposed(e, g, b, g);
    if a == Triple(Ref(b.p), RdfType, Ref(OwlInverseFunctionalProperty)) && c.p == b.p && c.o == b.o && b.s != c.s
       && t == Triple(b.s, OwlSameAs, c.s) {
      assert Gathered(g, b.p, b.o, g);
      var hub :| IsHub(g, b.p, b.o, g, hub);
      assert Spoke(g, hub, b.s) && Spoke(g, hub, c.s);
      if hub != b.s && hub != c.s {
        SameAsIsSameClass(root, g, hub, c.s);
        var u := Triple(b.s, OwlSameAs, hub);
        assert EqualsSubstituted(root, u, g);
        assert ForSubject(root, u.s, b.s) && ForObject(root, u.o, c.s);
      }
    } else if a.p == OwlInverseOf {
      assert InIndex(e.inverseOf, a.s, a.o) && InIndex(e.inverseOf, a.o, a.s);
      assert Emits(e, b, t);
    } else if a.p == OwlEquivalentProperty {
      assert InIndex(e.equivProp, a.s, a.o) && InIndex(e.equivProp, a.o, a.s);
      assert Emits(e, b, t);
    } else if a.p == OwlEquivalentClass {
      assert InIndex(e.equivClass, a.s, a.o) && InIndex(e.equivClass, a.o, a.s);
      assert Emits(e, b, t);
    } else if a.o == Ref(OwlSymmetricProperty) {
      assert Emits(e, b, t);
    }
  }

  // ---------------------------------------------------------------------------
  // The engine
  // ---------------------------------------------------------------------------

  class Engine {
    const g: Graph
    const stop: Stopper
    const less: (Term, Term) -> bool
    var ded: set<Triple>
    var newTriples: seq<Triple>
    var axioms: Axioms
    var uf: UnionFind<Term>

    constructor (g: Graph, stop: Stopper, less: (Term, Term) -> bool)
      ensures this.g == g && this.stop == stop && ded == {} && newTriples == [] && fresh(uf)
    {
      this.g, this.stop, this.less := g, stop, less;
      ded, newTriples := {}, [];
      axioms := Axioms({}, {}, {}, map[], map[], map[]);
      uf := new UnionFind<Term>(less);
    }

    /** The state of a pass: what it found is waiting to be written, and all of it is
        forced by the graph. */
    ghost predicate Passing()
      reads this, g
    {
      Pending(g.triples, ded, newTriples) && AllForced(g.triples, ded)
    }

    method Emit(r: Triple)
      requires Passing() && Forced(g.triples, r)
      modifies this`ded, this`newTriples, stop
      ensures Passing() && (old(stop.halted) ==> stop.halted) && old(ded) <= ded
      ensures !stop.halted ==> r in ded
    {
      var halt := stop.Poll();
      if !halt && r !in ded {
        ded := ded + {r};
        newTriples := newTriples + [r];
      }
    }

    method EmitAll(rs: seq<Triple>)
      requires Passing() && forall r :: r in rs ==> Forced(g.triples, r)
      modifies this`ded, this`newTriples, stop
      ensures Passing() && (old(stop.halted) ==> stop.halted) && old(ded) <= ded
      ensures !stop.halted ==> forall r :: r in rs ==> r in ded
    {
      for i := 0 to |rs|
        invariant Passing() && (old(stop.halted) ==> stop.halted) && old(ded) <= ded
        invariant !stop.halted ==> forall j :: 0 <= j < i ==> rs[j] in ded
      {
        Emit(rs[i]);
      }
    }

    /** prp-symp, prp-inv, prp-eqp and cax-eqc on one triple. */
    method ApplyAxiomsTo(t: Triple)
      requires Passing() && UpToDate(axioms, g.triples) && t in g.triples
      modifies this`ded, this`newTriples, stop
      ensures Passing() && (old(stop.halted) ==> stop.halted) && old(ded) <= ded
      ensures !stop.halted ==> AxiomsApplied(axioms, t, ded)
    {
      var key := Ref(t.p);
      forall r | Emits(axioms, t, r) ensures Forced(g.triples, r) {
        EmitsIsForced(axioms, g.triples, t, r);
      }
      if key in axioms.symmetric && IsSubject(t.o) {
        Emit(Triple(t.o, t.p, t.s));
      }
      if key in axioms.inverseOf && IsSubject(t.o) {
        EmitAll(Inverses(t, axioms.inverseOf[key]));
      }
      if key in axioms.equivProp {
        EmitAll(Renamed(t, axioms.equivProp[key]));
      }
      if t.p == RdfType && t.o in axioms.equivClass {
        EmitAll(Retyped(t, axioms.equivClass[t.o]));
      }
    }

    /** Equality: all pairs of every class, then substitution in every triple. */
    method ApplyEquality(all: seq<Triple>)
      requires Passing() && Elements(all) == g.triples
      requires uf.Valid() && uf.pairs == SameAsPairs(g.triples)
      modifies this`ded, this`newTriples, stop, uf`parent
      ensures Passing() && (old(stop.halted) ==> stop.halted) && old(ded) <= ded
      ensures uf.Valid()
      ensures !stop.halted ==> AllSubstituted(uf.root, all, |all|, ded)
    {
      var classes, memberOf := EqualityClasses();
      EmitClasses(classes);
      SubstituteInAll(all, memberOf);
    }

    method EqualityClasses() returns (classes: seq<seq<Term>>, memberOf: map<Term, seq<Term>>)
      requires uf.Valid()
      modifies uf`parent
      ensures uf.Valid() && ListsClasses(uf.root, classes) && HoldsClasses(memberOf, uf.root)
    {
      classes := uf.Classes();
      memberOf := MemberIndex(classes);
      MembersAreClasses(classes, memberOf, uf.root);
    }

    method SubstituteInAll(all: seq<Triple>, memberOf: map<Term, seq<Term>>)
      requires Passing() && Elements(all) == g.triples
      requires Represents(uf.root, SameAsPairs(g.triples)) && HoldsClasses(memberOf, uf.root)
      modifies this`ded, this`newTriples, stop
      ensures Passing() && (old(stop.halted) ==> stop.halted) && old(ded) <= ded
      ensures !stop.halted ==> AllSubstituted(uf.root, all, |all|, ded)
    {
      for i := 0 to |all|
        invariant Passing() && (old(stop.halted) ==> stop.halted) && old(ded) <= ded
        invariant !stop.halted ==> AllSubstituted(uf.root, all, i, ded)
      {
        assert all[i] in Elements(all);
        ghost var before := ded;
        SubstituteIn(all[i], memberOf);
        if !stop.halted {
          SubstitutedStays(uf.root, all, i, before, ded);
        }
      }
    }

    method EmitClasses(classes: seq<seq<Term>>)
      requires Passing() && Represents(uf.root, SameAsPairs(g.triples))
      requires ListsClasses(uf.root, classes)
      modifies this`ded, this`newTriples, stop
      ensures Passing() && (old(stop.halted) ==> stop.halted) && old(ded) <= ded
    {
      for c := 0 to |classes|
        invariant Passing() && (old(stop.halted) ==> stop.halted) && old(ded) <= ded
      {
        var rs := PairCandidates(classes[c]);
        forall r | r in rs ensures Forced(g.triples, r) {
          SameClassIsEqual(g.triples, uf.root, r.s, r.o);
          EqualForced(g.triples, r.s, r.o);
        }
        EmitAll(rs);
      }
    }

    method SubstituteIn(t: Triple, memberOf: map<Term, seq<Term>>)
      requires Passing() && t in g.triples
      requires Represents(uf.root, SameAsPairs(g.triples)) && HoldsClasses(memberOf, uf.root)
      modifies this`ded, this`newTriples, stop
      ensures Passing() && (old(stop.halted) ==> stop.halted) && old(ded) <= ded
      ensures !stop.halted ==> EqualsSubstituted(uf.root, t, ded)
    {
      var sEquivs := if t.s in memberOf then memberOf[t.s] else [];
      var oEquivs := if t.o in memberOf then memberOf[t.o] else [];
      var rs := SubstitutionCandidates(t, sEquivs, oEquivs);
      forall r | r in rs ensures Forced(g.triples, r) {
        SubstitutionForced(g.triples, uf.root, t, r.s, r.o);
      }
      EmitAll(rs);
      SubstitutionsCovered(uf.root, memberOf, t, rs, ded);
    }

    method ApplyAxioms(all: seq<Triple>)
      requires Passing() && Elements(all) == g.triples && UpToDate(axioms, g.triples)
      modifies this`ded, this`newTriples, stop
      ensures Passing() && (old(stop.halted) ==> stop.halted) && old(ded) <= ded
      ensures !stop.halted ==> AllApplied(axioms, all, |all|, ded)
    {
      for i := 0 to |all|
        invariant Passing() && (old(stop.halted) ==> stop.halted) && old(ded) <= ded
        invariant !stop.halted ==> AllApplied(axioms, all, i, ded)
      {
        assert all[i] in Elements(all);
        ghost var before := ded;
        ApplyAxiomsTo(all[i]);
        if !stop.halted {
          AppliedStays(axioms, all, i, before, ded);
        }
      }
    }

    method ApplyTransitive(all: seq<Triple>)
      requires Passing() && Elements(all) == g.triples && UpToDate(axioms, g.triples)
      modifies this`ded, this`newTriples, stop
      ensures Passing() && (old(stop.halted) ==> stop.halted) && old(ded) <= ded
      ensures !stop.halted ==> forall i :: 0 <= i < |all| ==> StepsComposed(axioms, g.triples, all[i], ded)
    {
      var edges := PropertyEdges(all, axioms.transitive);
      for i := 0 to |all|
        invariant Passing() && (old(stop.halted) ==> stop.halted) && old(ded) <= ded
        invariant !stop.halted ==> forall j :: 0 <= j < i ==> StepsComposed(axioms, g.triples, all[j], ded)
      {
        var t := all[i];
        assert t in Elements(all);
        if t.p in edges {
          var fwd := edges[t.p];
          forall k, v ensures InIndex(fwd, k, v) <==> Triple(k, t.p, v) in g.triples {
            assert Triple(k, t.p, v) in all <==> Triple(k, t.p, v) in Elements(all);
          }
          var rs := WalkCandidates(t, fwd);
          forall r | r in rs ensures Forced(g.triples, r) {
            var w :| IsPath(fwd, w) && w[0] == t.o && w[|w| - 1] == r.o;
            WalkForced(axioms, g.triples, t, fwd, w);
          }
          EmitAll(rs);
          WalkCovers(axioms, g.triples, t, fwd, rs, ded);
        }
      }
    }

    method ApplyInverseFunctional(all: seq<Triple>)
      requires Passing() && NoRepeats(all) && Elements(all) == g.triples && UpToDate(axioms, g.triples)
      modifies this`ded, this`newTriples, stop
      ensures Passing() && (old(stop.halted) ==> stop.halted) && old(ded) <= ded
      ensures !stop.halted ==> forall p, o :: Ref(p) in axioms.invFunctional ==> Gathered(g.triples, p, o, ded)
    {
      var groups := SubjectGroups(all, axioms.invFunctional);
      var rs := HubCandidates(groups);
      forall r | r in rs ensures Forced(g.triples, r) {
        HubForced(axioms, g.triples, all, groups, r);
      }
      EmitAll(rs);
      if !stop.halted {
        HubsCover(axioms, g.triples, all, groups, rs, ded);
      }
    }

    /** One pass: all rules see the same snapshot of the graph. */
    method ApplyRules()
      requires ded == g.triples && UpToDate(axioms, g.triples)
      requires uf.Valid() && uf.pairs == SameAsPairs(g.triples)
      modifies this`ded, this`newTriples, stop, uf`parent
      ensures Passing() && (old(stop.halted) ==> stop.halted) && uf.Valid()
      ensures !stop.halted ==> PassComplete(axioms, uf.root, g.triples, ded)
    {
      newTriples := [];
      MembersAreForced(g.triples);
      var all := ReadTriples(g, stop);
      var halt := stop.Poll();
      if halt {
        return;
      }
      ApplyEquality(all);
      if stop.halted {
        return;
      }
      ghost var afterEquality := ded;
      ApplyAxioms(all);
      ghost var afterAxioms := ded;
      ApplyTransitive(all);
      ghost var afterTransitive := ded;
      ApplyInverseFunctional(all);
      if !stop.halted {
        PassCovers(axioms, uf.root, g.triples, all, afterEquality, afterAxioms, afterTransitive, ded);
      }
    }

    method BuildSchemaIndexes()
      modifies this`axioms, this`uf, stop
      ensures (old(stop.halted) ==> stop.halted) && fresh(uf) && uf.Valid()
      ensures !stop.halted ==> UpToDate(axioms, g.triples) && uf.pairs == SameAsPairs(g.triples)
    {
      uf := new UnionFind<Term>(less);
      var symmetric := ScanMarks(g, stop, OwlSymmetricProperty);
      var transitive := ScanMarks(g, stop, OwlTransitiveProperty);
      var invFunctional := ScanMarks(g, stop, OwlInverseFunctionalProperty);
      var inverseOf := ScanBothWays(g, stop, OwlInverseOf, IsRef, IsRef);
      var equivProp := ScanBothWays(g, stop, OwlEquivalentProperty, IsRef, IsRef);
      var equivClass := ScanBothWays(g, stop, OwlEquivalentClass, Any, IsSubject);
      axioms := Axioms(symmetric, transitive, invFunctional, inverseOf, equivProp, equivClass);
      ScanSameAs(g, stop, uf);
    }

    ghost predicate Ready()
      reads this, g, stop, uf
    {
      !stop.halted && ded == g.triples && UpToDate(axioms, g.triples) && uf.Valid() && uf.pairs == SameAsPairs(g.triples)
    }

    /** One turn of the loop: a pass, then writing what it found. */
    method Turn() returns (added: nat, done: bool)
      requires Ready()
      modifies this, stop, g, uf
      ensures Entailed(Owl, old(g.triples), g.triples) && |g.triples| == |old(g.triples)| + added
      ensures fresh({uf} - {old(uf)})
      ensures !done ==> Ready() && added > 0
      ensures done && !stop.halted ==> Closed(Owl, g.triples)
    {
      added, done := 0, true;
      ghost var before := g.triples;
      ApplyRules();
      var halt := stop.Poll();
      if halt {
        return;
      }
      if newTriples == [] {
        assert ded == g.triples;
        QuietPassIsClosed(axioms, uf.root, g.triples);
        return;
      }
      ForcedIsEntailed(before, ded);
      added, done := Write();
    }

    /** Writes what a pass found, and rebuilds the indexes if any of it is schema. */
    method Write() returns (added: nat, done: bool)
      requires !stop.halted && Pending(g.triples, ded, newTriples) && newTriples != []
      requires UpToDate(axioms, g.triples) && uf.Valid() && uf.pairs == SameAsPairs(g.triples)
      modifies this`axioms, this`uf, stop, g
      ensures old(g.triples) <= g.triples <= ded && |g.triples| == |old(g.triples)| + added && fresh({uf} - {old(uf)})
      ensures !done ==> Ready() && added > 0
      ensures done ==> stop.halted
    {
      ghost var before := g.triples;
      done := true;
      added := AddAll(g, stop, newTriples);
      if stop.halted {
        return;
      }
      assert newTriples[..added] == newTriples;
      done := false;
      if exists i :: 0 <= i < |newTriples| && IsSchemaTriple(newTriples[i]) {
        BuildSchemaIndexes();
        done := stop.halted;
      } else {
        StillUpToDate(axioms, before, g.triples);
      }
    }

    /** The fixed-point loop; `Entailed`, `IsClosure` and the count read as for RDFS. The
        consistency check runs on the closed graph, which it reads through the stopper. */
    method Run<I>(check: set<Triple> -> I) returns (total: nat, inconsistencies: Option<I>)
      requires ded == {} && newTriples == []
      modifies this, stop, g, uf
      ensures old(stop.halted) ==> stop.halted
      ensures Entailed(Owl, old(g.triples), g.triples)
      ensures !stop.halted ==> IsClosure(Owl, old(g.triples), g.triples)
      ensures total == |g.triples| - |old(g.triples)|
      ensures !stop.halted ==> inconsistencies == Some(check(g.triples))
    {
      ghost var input := g.triples;
      UniverseIsClosed(input);
      var all := ReadTriples(g, stop);
      ded := set t | t in all;
      BuildSchemaIndexes();
      total := 0;
      var done := stop.halted;
      while !done
        invariant fresh(uf)
        invariant !done ==> Ready()
        invariant done && !stop.halted ==> Closed(Owl, g.triples)
        invariant Entailed(Owl, input, g.triples)
        invariant total == |g.triples| - |input|
        invariant old(stop.halted) ==> stop.halted
        decreases !done, |Universe(input)| - |g.triples|
      {
        ghost var before := g.triples;
        var added: nat;
        added, done := Turn();
        total := total + added;
        EntailedTrans(Owl, input, before, g.triples);
        EntailedIsBounded(Owl, input, g.triples);
      }
      if stop.halted {
        return total, None;
      }
      var seen := ReadTriples(g, stop);
      inconsistencies := Some(check(set t | t in seen));
      assert !stop.halted ==> (set t | t in seen) == g.triples;
    }
  }

  // ---------------------------------------------------------------------------
  // Candidates, in the order the rules derive them
  // ---------------------------------------------------------------------------

  function Inverses(t: Triple, props: seq<Term>): (rs: seq<Triple>)
    ensures forall r :: r in rs <==> Ref(r.p) in props && r == Triple(t.o, r.p, t.s)
  {
    if props == [] then []
    else (if props[0].Ref? then [Triple(t.o, props[0].iri, t.s)] else []) + Inverses(t, props[1..])
  }

  function Renamed(t: Triple, props: seq<Term>): (rs: seq<Triple>)
    ensures forall r :: r in rs <==> Ref(r.p) in props && r == Triple(t.s, r.p, t.o)
  {
    if props == [] then []
    else (if props[0].Ref? then [Triple(t.s, props[0].iri, t.o)] else []) + Renamed(t, props[1..])
  }

  function Retyped(t: Triple, classes: seq<Term>): (rs: seq<Triple>)
    ensures forall r :: r in rs <==> r.o in classes && r == Triple(t.s, RdfType, r.o)
  {
    if classes == [] then [] else [Triple(t.s, RdfType, classes[0])] + Retyped(t, classes[1..])
  }

  /** eq-sym and eq-trans within one class: both sameAs triples of every pair of subjects. */
  method PairCandidates(members: seq<Term>) returns (rs: seq<Triple>)
    requires Distinct(members)
    ensures forall r :: r in rs ==> r.s in members && r.o in members && r.s != r.o && IsSubject(r.s) && r == Triple(r.s, OwlSameAs, r.o)
    ensures forall x, y :: x in members && y in members && x != y && IsSubject(x) && IsSubject(y) ==> Triple(x, OwlSameAs, y) in rs
  {
    rs := [];
    for i := 0 to |members|
      invariant forall r :: r in rs ==> r.s in members && r.o in members && r.s != r.o && IsSubject(r.s) && r == Triple(r.s, OwlSameAs, r.o)
      invariant forall a, b :: 0 <= a < i && a < b < |members| ==> PairListed(members[a], members[b], rs)
    {
      for j := i + 1 to |members|
        invariant forall r :: r in rs ==> r.s in members && r.o in members && r.s != r.o && IsSubject(r.s) && r == Triple(r.s, OwlSameAs, r.o)
        invariant forall a, b :: 0 <= a < i && a < b < |members| ==> PairListed(members[a], members[b], rs)
        invariant forall b :: i < b < j ==> PairListed(members[i], members[b], rs)
      {
        if IsSubject(members[i]) && IsSubject(members[j]) {
          rs := rs + [Triple(members[i], OwlSameAs, members[j]), Triple(members[j], OwlSameAs, members[i])];
        }
      }
    }
    forall x, y | x in members && y in members && x != y && IsSubject(x) && IsSubject(y) ensures Triple(x, OwlSameAs, y) in rs {
      var a :| 0 <= a < |members| && members[a] == x;
      var b :| 0 <= b < |members| && members[b] == y;
      if a < b {
        assert PairListed(members[a], members[b], rs);
      } else {
        assert PairListed(members[b], members[a], rs);
      }
    }
  }

  ghost predicate PairListed(x: Term, y: Term, rs: seq<Triple>) {
    IsSubject(x) && IsSubject(y) ==> Triple(x, OwlSameAs, y) in rs && Triple(y, OwlSameAs, x) in rs
  }

  /** `t` with subject `s` and its object replaced by every other equivalent. */
  method ObjectCandidates(s: Term, t: Triple, equivs: seq<Term>) returns (rs: seq<Triple>)
    ensures forall r :: r in rs <==> r.o in equivs && r.o != t.o && r == Triple(s, t.p, r.o)
  {
    rs := [];
    for i := 0 to |equivs|
      invariant forall r :: r in rs <==> r.o in equivs[..i] && r.o != t.o && r == Triple(s, t.p, r.o)
    {
      assert equivs[..i + 1] == equivs[..i] + [equivs[i]];
      if equivs[i] != t.o {
        rs := rs + [Triple(s, t.p, equivs[i])];
      }
    }
    assert equivs[..|equivs|] == equivs;
  }

  predicate Replacement(t: Triple, equivs: seq<Term>, s: Term) {
    s in equivs && s != t.s && IsSubject(s)
  }

  /** eq-rep-s, eq-rep-o, and both at once, on one triple. */
  method SubstitutionCandidates(t: Triple, sEquivs: seq<Term>, oEquivs: seq<Term>) returns (rs: seq<Triple>)
    ensures forall r :: r in rs <==>
      r.p == t.p && r != t && (r.s == t.s || Replacement(t, sEquivs, r.s)) && (r.o == t.o || r.o in oEquivs)
  {
    rs := [];
    for i := 0 to |sEquivs|
      invariant forall r :: r in rs <==> Replacement(t, sEquivs[..i], r.s) && r == Triple(r.s, t.p, t.o)
    {
      assert sEquivs[..i + 1] == sEquivs[..i] + [sEquivs[i]];
      if sEquivs[i] != t.s && IsSubject(sEquivs[i]) {
        rs := rs + [Triple(sEquivs[i], t.p, t.o)];
      }
    }
    assert sEquivs[..|sEquivs|] == sEquivs;
    var objects := ObjectCandidates(t.s, t, oEquivs);
    rs := rs + objects;
    ghost var single := rs;
    for i := 0 to |sEquivs|
      invariant forall r :: r in rs <==>
        r in single || (Replacement(t, sEquivs[..i], r.s) && r.o in oEquivs && r.o != t.o && r == Triple(r.s, t.p, r.o))
    {
      assert sEquivs[..i + 1] == sEquivs[..i] + [sEquivs[i]];
      if sEquivs[i] != t.s && IsSubject(sEquivs[i]) {
        var more := ObjectCandidates(sEquivs[i], t, oEquivs);
        rs := rs + more;
      }
    }
    assert sEquivs[..|sEquivs|] == sEquivs;
  }

  /** Each member of a class of more than one, with the class it is in. */
  method MemberIndex(classes: seq<seq<Term>>) returns (memberOf: map<Term, seq<Term>>)
    requires Disjoint(classes)
    ensures forall k :: k in memberOf ==> k in memberOf[k] && memberOf[k] in classes
    ensures forall c, k :: 0 <= c < |classes| && k in classes[c] ==> k in memberOf && memberOf[k] == classes[c]
  {
    memberOf := map[];
    for c := 0 to |classes|
      invariant forall k :: k in memberOf ==> k in memberOf[k] && memberOf[k] in classes[..c]
      invariant forall d, k :: 0 <= d < c && k in classes[d] ==> k in memberOf && memberOf[k] == classes[d]
    {
      assert classes[..c + 1] == classes[..c] + [classes[c]];
      memberOf := IndexClass(memberOf, classes[c]);
    }
    assert classes[..|classes|] == classes;
  }

  method IndexClass(was: map<Term, seq<Term>>, members: seq<Term>) returns (memberOf: map<Term, seq<Term>>)
    ensures memberOf.Keys == was.Keys + (set k | k in members)
    ensures forall k :: k in memberOf ==> memberOf[k] == if k in members then members else was[k]
  {
    memberOf := was;
    for i := 0 to |members|
      invariant memberOf.Keys == was.Keys + (set k | k in members[..i])
      invariant forall k :: k in memberOf ==> memberOf[k] == if k in members[..i] then members else was[k]
    {
      assert members[..i + 1] == members[..i] + [members[i]];
      memberOf := memberOf[members[i] := members];
    }
    assert members[..|members|] == members;
  }

  /** The edges of every transitive property that occurs. */
  method PropertyEdges(all: seq<Triple>, transitive: set<Term>) returns (edges: map<Iri, Index>)
    ensures forall p :: p in edges ==> Ref(p) in transitive
    ensures forall t :: t in all && Ref(t.p) in transitive ==> t.p in edges
    ensures forall p, k, v :: p in edges ==> (InIndex(edges[p], k, v) <==> Triple(k, p, v) in all)
  {
    edges := map[];
    for i := 0 to |all|
      invariant forall p :: p in edges ==> Ref(p) in transitive
      invariant forall t :: t in all[..i] && Ref(t.p) in transitive ==> t.p in edges
      invariant forall p, k, v :: p in edges ==> (InIndex(edges[p], k, v) <==> Triple(k, p, v) in all[..i])
    {
      var t := all[i];
      assert all[..i + 1] == all[..i] + [t];
      if Ref(t.p) in transitive {
        var fwd := if t.p in edges then edges[t.p] else map[];
        assert t.p !in edges ==> forall k, v :: Triple(k, t.p, v) !in all[..i];
        edges := edges[t.p := fwd[t.s := (if t.s in fwd then fwd[t.s] else []) + [t.o]]];
      }
    }
    assert all[..|all|] == all;
  }

  /** Everything one or more edges away except the start itself, breadth first. */
  method Beyond(fwd: Index, start: Term) returns (reached: seq<Term>)
    ensures forall v :: v in reached <==> Reaches(fwd, start, v) && v != start
  {
    reached := [];
    var visited := {start};
    var queue := Successors(fwd, start);
    FirstReached(fwd, start);
    while queue != []
      invariant start in visited && forall v :: v in reached <==> v in visited && v != start
      invariant forall v :: v in queue || v in reached ==> Reaches(fwd, start, v) && v in Values(fwd)
      invariant forall u, v :: u in visited && InIndex(fwd, u, v) ==> v in visited || v in queue
      decreases |Values(fwd) - visited|, |queue|
    {
      var cur := queue[0];
      ghost var before := queue;
      assert forall v :: v in before ==> v == cur || v in before[1..];
      queue := queue[1..];
      if cur !in visited {
        var next := Successors(fwd, cur);
        NextReached(fwd, start, cur);
        FewerLeft(Values(fwd), visited, cur);
        visited := visited + {cur};
        reached := reached + [cur];
        queue := queue + next;
      }
    }
    forall v | Reaches(fwd, start, v) ensures v in visited {
      var w :| IsPath(fwd, w) && w[0] == start && w[|w| - 1] == v;
      PathStaysIn(fwd, visited, w);
    }
  }

  /** prp-trp from one triple. */
  method WalkCandidates(t: Triple, fwd: Index) returns (rs: seq<Triple>)
    ensures forall r :: r in rs <==> Reaches(fwd, t.o, r.o) && r.o != t.o && r == Triple(t.s, t.p, r.o)
  {
    var reached := Beyond(fwd, t.o);
    rs := seq(|reached|, i requires 0 <= i < |reached| => Triple(t.s, t.p, reached[i]));
    forall r: Triple | r.o in reached && r == Triple(t.s, t.p, r.o) ensures r in rs {
      var i :| 0 <= i < |reached| && reached[i] == r.o;
      assert rs[i] == r;
    }
  }

  type Value = (Iri, Term)

  ghost predicate GroupsSubjects(groups: map<Value, seq<Term>>, all: seq<Triple>, invFunctional: set<Term>) {
    (forall k :: k in groups ==> groups[k] != [] && Distinct(groups[k]) && Ref(k.0) in invFunctional) &&
    (forall k, x :: k in groups ==> (x in groups[k] <==> Triple(x, k.0, k.1) in all)) &&
    (forall t :: t in all && Ref(t.p) in invFunctional ==> (t.p, t.o) in groups)
  }

  /** The subjects of each value of an inverse functional property. */
  method SubjectGroups(all: seq<Triple>, invFunctional: set<Term>) returns (groups: map<Value, seq<Term>>)
    requires NoRepeats(all)
    ensures GroupsSubjects(groups, all, invFunctional)
  {
    groups := map[];
    for i := 0 to |all|
      invariant GroupsSubjects(groups, all[..i], invFunctional)
    {
      var t := all[i];
      GroupTriple(groups, all[..i], invFunctional, t);
      assert all[..i + 1] == all[..i] + [t];
      if Ref(t.p) in invFunctional {
        groups := AddSubject(groups, t);
      }
    }
    assert all[..|all|] == all;
  }

  function AddSubject(groups: map<Value, seq<Term>>, t: Triple): map<Value, seq<Term>> {
    groups[(t.p, t.o) := (if (t.p, t.o) in groups then groups[(t.p, t.o)] else []) + [t.s]]
  }

  lemma GroupTriple(groups: map<Value, seq<Term>>, done: seq<Triple>, invFunctional: set<Term>, t: Triple)
    requires GroupsSubjects(groups, done, invFunctional) && t !in done
    ensures GroupsSubjects(if Ref(t.p) in invFunctional then AddSubject(groups, t) else groups, done + [t], invFunctional)
  {
    if Ref(t.p) in invFunctional {
      var key, grown := (t.p, t.o), AddSubject(groups, t);
      assert t == Triple(t.s, t.p, t.o);
      if key in groups {
        assert t.s !in groups[key];
      }
      forall k, x | k in grown ensures x in grown[k] <==> Triple(x, k.0, k.1) in done + [t] {
        if k == key && key !in groups {
          assert Triple(x, k.0, k.1) !in done;
        }
      }
    }
  }

  /** prp-ifp: the first subject of each group, against each of the others. */
  method HubCandidates(groups: map<Value, seq<Term>>) returns (rs: seq<Triple>)
    requires forall k :: k in groups ==> groups[k] != [] && Distinct(groups[k])
    ensures forall r :: r in rs ==> FromGroup(groups, r)
    ensures forall k, x :: k in groups && x in groups[k] ==> SpokeListed(rs, groups[k][0], x)
  {
    rs := [];
    var todo := groups.Keys;
    while todo != {}
      invariant todo <= groups.Keys
      invariant forall r :: r in rs ==> FromGroup(groups, r)
      invariant forall k, x :: k in groups.Keys - todo && x in groups[k] ==> SpokeListed(rs, groups[k][0], x)
      decreases |todo|
    {
      var k :| k in todo;
      var subjs := groups[k];
      for i := 1 to |subjs|
        invariant forall r :: r in rs ==> FromGroup(groups, r)
        invariant forall k, x :: k in groups.Keys - todo && x in groups[k] ==> SpokeListed(rs, groups[k][0], x)
        invariant forall j :: 0 <= j < i ==> SpokeListed(rs, subjs[0], subjs[j])
      {
        var there, back := Triple(subjs[0], OwlSameAs, subjs[i]), Triple(subjs[i], OwlSameAs, subjs[0]);
        assert FromGroupAt(groups, k, there) && FromGroupAt(groups, k, back);
        rs := rs + [there, back];
      }
      todo := todo - {k};
    }
  }

  ghost predicate SpokeListed(rs: seq<Triple>, hub: Term, x: Term) {
    hub == x || (Triple(hub, OwlSameAs, x) in rs && Triple(x, OwlSameAs, hub) in rs)
  }

  ghost predicate FromGroupAt(groups: map<Value, seq<Term>>, k: Value, r: Triple) {
    k in groups && r.s in groups[k] && r.o in groups[k] && r.s != r.o && r.p == OwlSameAs
  }

  ghost predicate FromGroup(groups: map<Value, seq<Term>>, r: Triple) {
    exists k :: FromGroupAt(groups, k, r)
  }

  // ---------------------------------------------------------------------------
  // Scans
  // ---------------------------------------------------------------------------

  /** The subjects typed with one property class. */
  method ScanMarks(g: Graph, stop: Stopper, class_: Iri) returns (marked: set<Term>)
    modifies stop
    ensures old(stop.halted) ==> stop.halted
    ensures !stop.halted ==> Marks(marked, g.triples, class_)
  {
    marked := {};
    var all := ReadTriples(g, stop);
    for i := 0 to |all|
      invariant forall k :: k in marked <==> Triple(k, RdfType, Ref(class_)) in all[..i]
    {
      assert all[..i + 1] == all[..i] + [all[i]];
      if all[i].p == RdfType && all[i].o == Ref(class_) {
        marked := marked + {all[i].s};
      }
    }
    assert all[..|all|] == all;
    assert forall k :: Triple(k, RdfType, Ref(class_)) in all <==> Triple(k, RdfType, Ref(class_)) in Elements(all);
  }

  function AppendUnique(m: Index, k: Term, v: Term): (r: Index)
    ensures forall x, y :: InIndex(r, x, y) <==> InIndex(m, x, y) || (x == k && y == v)
  {
    var list := if k in m then m[k] else [];
    if v in list then m else m[k := list + [v]]
  }

  method ScanBothWays(g: Graph, stop: Stopper, p: Iri, keepS: Term -> bool, keepO: Term -> bool) returns (m: Index)
    modifies stop
    ensures old(stop.halted) ==> stop.halted
    ensures !stop.halted ==> IndexesBothWays(m, g.triples, p, keepS, keepO)
  {
    m := map[];
    var all := ReadTriples(g, stop);
    for i := 0 to |all|
      invariant IndexesBothWays(m, Elements(all[..i]), p, keepS, keepO)
    {
      var t := all[i];
      ghost var before := Elements(all[..i]);
      assert all[..i + 1] == all[..i] + [t];
      assert Elements(all[..i + 1]) == before + {t};
      if t.p == p && keepS(t.s) && keepO(t.o) {
        m := AppendUnique(AppendUnique(m, t.s, t.o), t.o, t.s);
      }
    }
    assert all[..|all|] == all;
  }

  method ScanSameAs(g: Graph, stop: Stopper, uf: UnionFind<Term>)
    requires uf.Valid() && uf.pairs == {}
    modifies stop, uf
    ensures (old(stop.halted) ==> stop.halted) && uf.Valid()
    ensures !stop.halted ==> uf.pairs == SameAsPairs(g.triples)
  {
    var all := ReadTriples(g, stop);
    for i := 0 to |all|
      invariant (old(stop.halted) ==> stop.halted) && (!stop.halted ==> Elements(all) == g.triples)
      invariant uf.Valid() && uf.pairs == SameAsPairs(Elements(all[..i]))
    {
      assert all[..i + 1] == all[..i] + [all[i]];
      assert Elements(all[..i + 1]) == Elements(all[..i]) + {all[i]};
      if all[i].p == OwlSameAs {
        uf.Union(all[i].s, all[i].o);
      }
    }
    assert all[..|all|] == all;
  }

  // ---------------------------------------------------------------------------
  // The candidates cover the rules
  // ---------------------------------------------------------------------------

  ghost predicate AllApplied(e: Axioms, all: seq<Triple>, n: nat, known: set<Triple>)
    requires n <= |all|
  {
    forall i :: 0 <= i < n ==> AxiomsApplied(e, all[i], known)
  }

  ghost predicate AllSubstituted(root: map<Term, Term>, all: seq<Triple>, n: nat, known: set<Triple>)
    requires n <= |all|
  {
    forall i :: 0 <= i < n ==> EqualsSubstituted(root, all[i], known)
  }

  lemma AppliedStays(e: Axioms, all: seq<Triple>, n: nat, was: set<Triple>, now: set<Triple>)
    requires n < |all| && was <= now && AllApplied(e, all, n, was) && AxiomsApplied(e, all[n], now)
    ensures AllApplied(e, all, n + 1, now)
  {
  }

  lemma SubstitutedStays(root: map<Term, Term>, all: seq<Triple>, n: nat, was: set<Triple>, now: set<Triple>)
    requires n < |all| && was <= now && AllSubstituted(root, all, n, was) && EqualsSubstituted(root, all[n], now)
    ensures AllSubstituted(root, all, n + 1, now)
  {
  }

  /** `memberOf` finds, for each term, the other members of its class. */
  ghost predicate HoldsClasses(memberOf: map<Term, seq<Term>>, root: map<Term, Term>) {
    (forall x, y :: x in memberOf && y in memberOf[x] ==> SameClass(root, x, y)) &&
    (forall x, y :: SameClass(root, x, y) && x != y ==> x in memberOf && y in memberOf[x])
  }

  lemma MembersAreClasses(classes: seq<seq<Term>>, memberOf: map<Term, seq<Term>>, root: map<Term, Term>)
    requires ListsClasses(root, classes)
    requires forall k :: k in memberOf ==> k in memberOf[k] && memberOf[k] in classes
    requires forall c, k :: 0 <= c < |classes| && k in classes[c] ==> k in memberOf && memberOf[k] == classes[c]
    ensures HoldsClasses(memberOf, root)
  {
    forall x, y | x in memberOf && y in memberOf[x] ensures SameClass(root, x, y) {
      var c :| 0 <= c < |classes| && classes[c] == memberOf[x];
      assert ListsClass(root, classes[c]);
    }
    forall x, y | SameClass(root, x, y) && x != y ensures x in memberOf && y in memberOf[x] {
      assert Together(classes, x, y);
    }
  }

  lemma SubstitutionsCovered(root: map<Term, Term>, memberOf: map<Term, seq<Term>>, t: Triple, rs: seq<Triple>, known: set<Triple>)
    requires HoldsClasses(memberOf, root)
    requires forall r :: r in rs <==>
      r.p == t.p && r != t &&
      (r.s == t.s || Replacement(t, if t.s in memberOf then memberOf[t.s] else [], r.s)) &&
      (r.o == t.o || r.o in if t.o in memberOf then memberOf[t.o] else [])
    ensures t in known && (forall r :: r in rs ==> r in known) ==> EqualsSubstituted(root, t, known)
  {
    forall s', o' | ForSubject(root, t.s, s') && ForObject(root, t.o, o') ensures Triple(s', t.p, o') == t || Triple(s', t.p, o') in rs {
    }
  }

  lemma {:induction false} WalkForced(e: Axioms, g: set<Triple>, t: Triple, fwd: Index, w: seq<Term>)
    requires UpToDate(e, g) && t in g && Ref(t.p) in e.transitive
    requires forall k, v :: InIndex(fwd, k, v) <==> Triple(k, t.p, v) in g
    requires IsPath(fwd, w) && w[0] == t.o
    ensures Forced(g, Triple(t.s, t.p, w[|w| - 1]))
  {
    var n := |w| - 1;
    assert InIndex(fwd, w[n - 1], w[n]);
    var sofar, step := Triple(t.s, t.p, w[n - 1]), Triple(w[n - 1], t.p, w[n]);
    if n > 1 {
      var init := w[..n];
      forall i | 0 <= i < |init| - 1 ensures InIndex(fwd, init[i], init[i + 1]) {
        assert InIndex(fwd, w[i], w[i + 1]);
      }
      WalkForced(e, g, t, fwd, init);
    } else {
      assert sofar == t;
    }
    ForcedByAxiom(g, Triple(Ref(t.p), RdfType, Ref(OwlTransitiveProperty)), sofar, step, Triple(t.s, t.p, w[n]));
  }

  lemma WalkCovers(e: Axioms, g: set<Triple>, t: Triple, fwd: Index, rs: seq<Triple>, known: set<Triple>)
    requires forall k, v :: InIndex(fwd, k, v) <==> Triple(k, t.p, v) in g
    requires forall r :: r in rs <==> Reaches(fwd, t.o, r.o) && r.o != t.o && r == Triple(t.s, t.p, r.o)
    ensures t in known && (forall r :: r in rs ==> r in known) ==> StepsComposed(e, g, t, known)
  {
    forall o | Triple(t.o, t.p, o) in g ensures Triple(t.s, t.p, o) == t || Triple(t.s, t.p, o) in rs {
      assert InIndex(fwd, t.o, o);
      ReachesStep(fwd, t.o, o);
    }
  }

  lemma HubForced(e: Axioms, g: set<Triple>, all: seq<Triple>, groups: map<Value, seq<Term>>, r: Triple)
    requires UpToDate(e, g) && Elements(all) == g && GroupsSubjects(groups, all, e.invFunctional) && FromGroup(groups, r)
    ensures Forced(g, r)
  {
    var k :| FromGroupAt(groups, k, r);
    var b, c := Triple(r.s, k.0, k.1), Triple(r.o, k.0, k.1);
    assert b in all && c in all;
    assert b in Elements(all) && c in Elements(all);
    ForcedByAxiom(g, Triple(Ref(k.0), RdfType, Ref(OwlInverseFunctionalProperty)), b, c, r);
  }

  lemma HubsCover(e: Axioms, g: set<Triple>, all: seq<Triple>, groups: map<Value, seq<Term>>, rs: seq<Triple>, known: set<Triple>)
    requires Elements(all) == g && GroupsSubjects(groups, all, e.invFunctional)
    requires forall k, x :: k in groups && x in groups[k] ==> SpokeListed(rs, groups[k][0], x)
    requires forall r :: r in rs ==> r in known
    ensures forall p, o :: Ref(p) in e.invFunctional ==> Gathered(g, p, o, known)
  {
    forall p, o | Ref(p) in e.invFunctional ensures Gathered(g, p, o, known) {
      var hub := if (p, o) in groups then groups[(p, o)][0] else o;
      forall x | Triple(x, p, o) in g ensures Spoke(known, hub, x) {
        assert Triple(x, p, o) in all;
        assert (Triple(x, p, o).p, Triple(x, p, o).o) in groups;
        assert SpokeListed(rs, groups[(p, o)][0], x);
      }
      assert IsHub(g, p, o, known, hub);
    }
  }

  lemma PassCovers(e: Axioms, root: map<Term, Term>, g: set<Triple>, all: seq<Triple>,
                   k1: set<Triple>, k2: set<Triple>, k3: set<Triple>, known: set<Triple>)
    requires Elements(all) == g && k1 <= k2 <= k3 <= known
    requires AllSubstituted(root, all, |all|, k1) && AllApplied(e, all, |all|, k2)
    requires forall i :: 0 <= i < |all| ==> StepsComposed(e, g, all[i], k3)
    requires forall p, o :: Ref(p) in e.invFunctional ==> Gathered(g, p, o, known)
    ensures PassComplete(e, root, g, known)
  {
    forall t | t in g ensures AxiomsApplied(e, t, known) && EqualsSubstituted(root, t, known) && StepsComposed(e, g, t, known) {
      assert t in all;
      var i :| 0 <= i < |all| && all[i] == t;
      assert AxiomsApplied(e, all[i], k2) && EqualsSubstituted(root, all[i], k1) && StepsComposed(e, g, all[i], k3);
    }
  }

  lemma ForcedIsEntailed(g: set<Triple>, known: set<Triple>)
    requires g <= known && AllForced(g, known)
    ensures forall part :: g <= part <= known ==> Entailed(Owl, g, part)
  {
    forall k, r | g <= k && Closed(Owl, k) && r in known ensures r in k {
      assert Forced(g, r);
    }
  }
}
