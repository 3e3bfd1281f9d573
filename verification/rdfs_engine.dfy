/** The RDFS closure engine (reasoning/rdfs.go): cached schema indexes, closed
    transitively and rebuilt only when a schema triple was added, around a fixed-point
    loop. */
module RdfsEngine {
  import opened Closures
  import opened GraphAccess
  import opened Graphs

  // ---------------------------------------------------------------------------
  // One pass, as a relation
  // ---------------------------------------------------------------------------

  /** The four index maps, after `closeTransitive`. */
  datatype Schema = Schema(domains: Index, ranges: Index, subClassOf: Index, subPropOf: Index)

  /** Scanning `t` with these indexes derives `r`. */
  ghost predicate Emits(e: Schema, t: Triple, r: Triple) {
    || (InIndex(e.domains, Ref(t.p), r.o) && r == Triple(t.s, RdfType, r.o))
    || (InIndex(e.ranges, Ref(t.p), r.o) && IsSubject(t.o) && r == Triple(t.o, RdfType, r.o))
    || (InIndex(e.subPropOf, Ref(t.p), Ref(r.p)) && r == Triple(t.s, r.p, t.o))
    || (t.p == RdfType && InIndex(e.subClassOf, t.o, r.o) && r == Triple(t.s, RdfType, r.o))
  }

  ghost predicate ClosesIndex(m: Index, g: set<Triple>, p: Iri, keep: Term -> bool) {
    exists base :: Indexes(base, g, p, keep) && forall k, v :: InIndex(m, k, v) <==> Reaches(base, k, v)
  }

  /** The indexes describe the graph: domains and ranges as stated, superclasses and
      superproperties transitively. */
  ghost predicate UpToDate(e: Schema, g: set<Triple>) {
    Indexes(e.domains, g, RdfsDomain, IsSubject) && Indexes(e.ranges, g, RdfsRange, IsSubject) &&
    ClosesIndex(e.subClassOf, g, RdfsSubClassOf, IsSubject) && ClosesIndex(e.subPropOf, g, RdfsSubPropertyOf, IsRef)
  }

  predicate IsSchemaPredicate(p: Iri) {
    p.RdfsSubClassOf? || p.RdfsSubPropertyOf? || p.RdfsDomain? || p.RdfsRange?
  }

  /** Indexes need no rebuild while only other triples are added. */
  lemma StillUpToDate(e: Schema, g: set<Triple>, g': set<Triple>)
    requires UpToDate(e, g) && g <= g' && forall t :: t in g' && t !in g ==> !IsSchemaPredicate(t.p)
    ensures UpToDate(e, g')
  {
    var classes :| Indexes(classes, g, RdfsSubClassOf, IsSubject) &&
      forall k, v :: InIndex(e.subClassOf, k, v) <==> Reaches(classes, k, v);
    var props :| Indexes(props, g, RdfsSubPropertyOf, IsRef) &&
      forall k, v :: InIndex(e.subPropOf, k, v) <==> Reaches(props, k, v);
    SameIndex(e.domains, g, g', RdfsDomain, IsSubject);
    SameIndex(e.ranges, g, g', RdfsRange, IsSubject);
    SameIndex(classes, g, g', RdfsSubClassOf, IsSubject);
    SameIndex(props, g, g', RdfsSubPropertyOf, IsRef);
  }

  lemma SameIndex(m: Index, g: set<Triple>, g': set<Triple>, p: Iri, keep: Term -> bool)
    requires Indexes(m, g, p, keep) && g <= g' && forall t :: t in g' && t !in g ==> t.p != p
    ensures Indexes(m, g', p, keep)
  {
    forall k, v ensures InIndex(m, k, v) <==> Triple(k, p, v) in g' && keep(v) {
      assert InIndex(m, k, v) <==> Triple(k, p, v) in g && keep(v);
    }
  }

  // ---------------------------------------------------------------------------
  // A pass against the one-step rules
  // ---------------------------------------------------------------------------

  lemma {:induction false} TypeClimbs(base: Index, g: set<Triple>, k: set<Triple>, w: seq<Term>, s: Term)
    requires g <= k && Closed(Rdfs, k) && Indexes(base, g, RdfsSubClassOf, IsSubject)
    requires IsPath(base, w) && Triple(s, RdfType, w[0]) in k
    ensures Triple(s, RdfType, w[|w| - 1]) in k
  {
    var a, b := Triple(w[0], RdfsSubClassOf, w[1]), Triple(s, RdfType, w[0]);
    assert InIndex(base, w[0], w[1]);
    assert Rdfs(a, b, b, Triple(s, RdfType, w[1]));
    if |w| > 2 {
      var rest := w[1..];
      forall i | 0 <= i < |rest| - 1 ensures InIndex(base, rest[i], rest[i + 1]) {
        assert InIndex(base, w[i + 1], w[i + 2]);
      }
      TypeClimbs(base, g, k, rest, s);
    }
  }

  lemma {:induction false} PropertyClimbs(base: Index, g: set<Triple>, k: set<Triple>, w: seq<Term>, s: Term, p: Iri, o: Term)
    requires g <= k && Closed(Rdfs, k) && Indexes(base, g, RdfsSubPropertyOf, IsRef)
    requires IsPath(base, w) && w[0] == Ref(p) && Triple(s, p, o) in k
    ensures w[|w| - 1].Ref? && Triple(s, w[|w| - 1].iri, o) in k
  {
    var a, b := Triple(w[0], RdfsSubPropertyOf, w[1]), Triple(s, p, o);
    assert InIndex(base, w[0], w[1]);
    assert Rdfs(a, b, b, Triple(s, w[1].iri, o));
    if |w| > 2 {
      var rest := w[1..];
      forall i | 0 <= i < |rest| - 1 ensures InIndex(base, rest[i], rest[i + 1]) {
        assert InIndex(base, w[i + 1], w[i + 2]);
      }
      PropertyClimbs(base, g, k, rest, s, w[1].iri, o);
    }
  }

  /** Whatever a pass derives, chains of superclasses included, the one-step rules entail. */
  lemma EmitsIsSound(e: Schema, g: set<Triple>, k: set<Triple>, t: Triple, r: Triple)
    requires UpToDate(e, g) && t in g && Emits(e, t, r) && g <= k && Closed(Rdfs, k)
    ensures r in k
  {
    if InIndex(e.domains, Ref(t.p), r.o) && r == Triple(t.s, RdfType, r.o) {
      assert Rdfs(Triple(Ref(t.p), RdfsDomain, r.o), t, t, r);
    } else if InIndex(e.ranges, Ref(t.p), r.o) && IsSubject(t.o) && r == Triple(t.o, RdfType, r.o) {
      assert Rdfs(Triple(Ref(t.p), RdfsRange, r.o), t, t, r);
    } else if InIndex(e.subPropOf, Ref(t.p), Ref(r.p)) && r == Triple(t.s, r.p, t.o) {
      var base :| Indexes(base, g, RdfsSubPropertyOf, IsRef) &&
        forall k, v :: InIndex(e.subPropOf, k, v) <==> Reaches(base, k, v);
      var w :| IsPath(base, w) && w[0] == Ref(t.p) && w[|w| - 1] == Ref(r.p);
      PropertyClimbs(base, g, k, w, t.s, t.p, t.o);
    } else {
      var base :| Indexes(base, g, RdfsSubClassOf, IsSubject) &&
        forall k, v :: InIndex(e.subClassOf, k, v) <==> Reaches(base, k, v);
      var w :| IsPath(base, w) && w[0] == t.o && w[|w| - 1] == r.o;
      TypeClimbs(base, g, k, w, t.s);
    }
  }

  /** A pass that derives nothing new leaves a graph closed under the one-step rules. */
  lemma QuietPassIsClosed(e: Schema, g: set<Triple>)
    requires UpToDate(e, g) && forall t, r :: t in g && Emits(e, t, r) ==> r in g
    ensures Closed(Rdfs, g)
  {
    var classes :| Indexes(classes, g, RdfsSubClassOf, IsSubject) &&
      forall k, v :: InIndex(e.subClassOf, k, v) <==> Reaches(classes, k, v);
    var props :| Indexes(props, g, RdfsSubPropertyOf, IsRef) &&
      forall k, v :: InIndex(e.subPropOf, k, v) <==> Reaches(props, k, v);
    forall a, b, c, t | a in g && b in g && c in g && Rdfs(a, b, c, t) ensures t in g {
      assert a == Triple(a.s, a.p, a.o);
      if a.p == RdfsSubPropertyOf {
        assert InIndex(props, a.s, a.o);
        ReachesStep(props, a.s, a.o);
      } else if a.p == RdfsSubClassOf {
        assert InIndex(classes, a.s, a.o);
        ReachesStep(classes, a.s, a.o);
      } else if a.p == RdfsDomain {
        assert InIndex(e.domains, a.s, a.o);
      } else {
        assert InIndex(e.ranges, a.s, a.o);
      }
      assert Emits(e, b, t);
    }
  }

  // ---------------------------------------------------------------------------
  // The engine
  // ---------------------------------------------------------------------------

  class Engine {
    const g: Graph
    const stop: Stopper
    var ded: set<Triple>
    var schema: Schema
    var newTriples: seq<Triple>

    constructor (g: Graph, stop: Stopper)
      ensures this.g == g && this.stop == stop && ded == {} && newTriples == []
    {
      this.g, this.stop := g, stop;
      ded, newTriples := {}, [];
      schema := Schema(map[], map[], map[], map[]);
    }

    method BuildSchemaIndexes()
      modifies this`schema, stop
      ensures old(stop.halted) ==> stop.halted
      ensures !stop.halted ==> UpToDate(schema, g.triples)
    {
      var domains := ScanPredicate(g, stop, RdfsDomain, IsSubject);
      var ranges := ScanPredicate(g, stop, RdfsRange, IsSubject);
      var subClassOf := ScanPredicate(g, stop, RdfsSubClassOf, IsSubject);
      var subPropOf := ScanPredicate(g, stop, RdfsSubPropertyOf, IsRef);
      var classes := TransitiveClose(subClassOf);
      var props := TransitiveClose(subPropOf);
      schema := Schema(domains, ranges, classes, props);
    }

    method Emit(r: Triple)
      requires Pending(g.triples, ded, newTriples)
      modifies this`ded, this`newTriples, stop
      ensures Pending(g.triples, ded, newTriples)
      ensures old(stop.halted) ==> stop.halted
      ensures old(ded) <= ded <= old(ded) + {r}
      ensures !stop.halted ==> r in ded
    {
      var halt := stop.Poll();
      if !halt && r !in ded {
        ded := ded + {r};
        newTriples := newTriples + [r];
      }
    }

    /** Emits `x rdf:type c` for every listed class. */
    method EmitTypes(x: Term, classes: seq<Term>)
      requires Pending(g.triples, ded, newTriples)
      modifies this`ded, this`newTriples, stop
      ensures Pending(g.triples, ded, newTriples)
      ensures old(stop.halted) ==> stop.halted
      ensures old(ded) <= ded
      ensures forall r :: r in ded && r !in old(ded) ==> r.o in classes && r == Triple(x, RdfType, r.o)
      ensures !stop.halted ==> forall c :: c in classes ==> Triple(x, RdfType, c) in ded
    {
      for i := 0 to |classes|
        invariant Pending(g.triples, ded, newTriples) && (old(stop.halted) ==> stop.halted) && old(ded) <= ded
        invariant forall r :: r in ded && r !in old(ded) ==> r.o in classes && r == Triple(x, RdfType, r.o)
        invariant !stop.halted ==> forall j :: 0 <= j < i ==> Triple(x, RdfType, classes[j]) in ded
      {
        Emit(Triple(x, RdfType, classes[i]));
      }
    }

    /** Emits `t` under every listed superproperty. */
    method EmitUnder(t: Triple, supers: seq<Term>)
      requires Pending(g.triples, ded, newTriples)
      modifies this`ded, this`newTriples, stop
      ensures Pending(g.triples, ded, newTriples)
      ensures old(stop.halted) ==> stop.halted
      ensures old(ded) <= ded
      ensures forall r :: r in ded && r !in old(ded) ==> Ref(r.p) in supers && r == Triple(t.s, r.p, t.o)
      ensures !stop.halted ==> forall q :: Ref(q) in supers ==> Triple(t.s, q, t.o) in ded
    {
      for i := 0 to |supers|
        invariant Pending(g.triples, ded, newTriples) && (old(stop.halted) ==> stop.halted) && old(ded) <= ded
        invariant forall r :: r in ded && r !in old(ded) ==> Ref(r.p) in supers && r == Triple(t.s, r.p, t.o)
        invariant !stop.halted ==> forall j :: 0 <= j < i && supers[j].Ref? ==> Triple(t.s, supers[j].iri, t.o) in ded
      {
        if supers[i].Ref? {
          assert Ref(supers[i].iri) == supers[i];
          Emit(Triple(t.s, supers[i].iri, t.o));
        }
      }
    }

    /** Everything one scanned triple derives. */
    method ApplyTo(t: Triple)
      requires Pending(g.triples, ded, newTriples)
      modifies this`ded, this`newTriples, stop
      ensures Pending(g.triples, ded, newTriples)
      ensures old(stop.halted) ==> stop.halted
      ensures old(ded) <= ded
      ensures forall r :: r in ded && r !in old(ded) ==> Emits(schema, t, r)
      ensures !stop.halted ==> forall r :: Emits(schema, t, r) ==> r in ded
    {
      var key := Ref(t.p);
      if key in schema.domains {
        EmitTypes(t.s, schema.domains[key]);
      }
      if key in schema.ranges && IsSubject(t.o) {
        EmitTypes(t.o, schema.ranges[key]);
      }
      if key in schema.subPropOf {
        EmitUnder(t, schema.subPropOf[key]);
      }
      if t.p == RdfType && t.o in schema.subClassOf {
        EmitTypes(t.s, schema.subClassOf[t.o]);
      }
    }

    /** One pass over the graph. A pass cut short is discarded by the caller. */
    method ApplyRules()
      requires ded == g.triples
      modifies this`ded, this`newTriples, stop
      ensures Pending(g.triples, ded, newTriples)
      ensures old(stop.halted) ==> stop.halted
      ensures forall r :: r in newTriples ==> exists t :: t in g.triples && Emits(schema, t, r)
      ensures !stop.halted ==> forall t, r :: t in g.triples && Emits(schema, t, r) ==> r in ded
    {
      newTriples := [];
      var todo := g.triples;
      while todo != {}
        invariant Pending(g.triples, ded, newTriples) && (old(stop.halted) ==> stop.halted) && todo <= g.triples
        invariant forall r :: r in ded && r !in g.triples ==> exists t :: t in g.triples && Emits(schema, t, r)
        invariant !stop.halted ==> forall t, r :: t in g.triples - todo && Emits(schema, t, r) ==> r in ded
        decreases |todo|
      {
        var ok := stop.Read();
        if !ok {
          return;
        }
        var t :| t in todo;
        ApplyTo(t);
        todo := todo - {t};
      }
    }

    /** One turn of the loop: a pass, then writing what it found. */
    method Turn() returns (added: nat, done: bool)
      requires !stop.halted && ded == g.triples && UpToDate(schema, g.triples)
      modifies this, stop, g
      ensures Entailed(Rdfs, old(g.triples), g.triples) && |g.triples| == |old(g.triples)| + added
      ensures !done ==> !stop.halted && ded == g.triples && UpToDate(schema, g.triples) && added > 0
      ensures done && !stop.halted ==> Closed(Rdfs, g.triples)
    {
      added, done := 0, true;
      ghost var before := g.triples;
      ApplyRules();
      var halt := stop.Poll();
      if halt {
        return;
      }
      if newTriples == [] {
        QuietPassIsClosed(schema, g.triples);
        return;
      }
      PassIsEntailed(schema, before, ded);
      added, done := Write();
    }

    /** Writes what a pass found, and rebuilds the indexes if any of it is schema. */
    method Write() returns (added: nat, done: bool)
      requires !stop.halted && Pending(g.triples, ded, newTriples) && newTriples != [] && UpToDate(schema, g.triples)
      modifies this`schema, stop, g
      ensures old(g.triples) <= g.triples <= ded && |g.triples| == |old(g.triples)| + added
      ensures !done ==> !stop.halted && ded == g.triples && UpToDate(schema, g.triples) && added > 0
      ensures done ==> stop.halted
    {
      ghost var before := g.triples;
      done := true;
      added := AddAll(g, stop, newTriples);
      if stop.halted {
        return;
      }
      assert newTriples[..added] == newTriples;
      done := false;
      if exists i :: 0 <= i < |newTriples| && IsSchemaPredicate(newTriples[i].p) {
        BuildSchemaIndexes();
        done := stop.halted;
      } else {
        StillUpToDate(schema, before, g.triples);
      }
    }

    /** The fixed-point loop. Uninterrupted, it ends with the least closure of the input
        under the one-step rules; stopped anywhere, the graph lies between the two. The
        result is always the number of triples added. */
    method Run() returns (total: nat)
      requires ded == {} && newTriples == []
      modifies this, stop, g
      ensures old(stop.halted) ==> stop.halted
      ensures Entailed(Rdfs, old(g.triples), g.triples)
      ensures !stop.halted ==> IsClosure(Rdfs, old(g.triples), g.triples)
      ensures total == |g.triples| - |old(g.triples)|
    {
      ghost var input := g.triples;
      UniverseIsClosed(input);
      var all := ReadTriples(g, stop);
      ded := set t | t in all;
      BuildSchemaIndexes();
      total := 0;
      var done := stop.halted;
      while !done
        invariant !done ==> !stop.halted && ded == g.triples && UpToDate(schema, g.triples)
        invariant done && !stop.halted ==> Closed(Rdfs, g.triples)
        invariant Entailed(Rdfs, input, g.triples)
        invariant total == |g.triples| - |input|
        invariant old(stop.halted) ==> stop.halted
        decreases !done, |Universe(input)| - |g.triples|
      {
        ghost var before := g.triples;
        var added: nat;
        added, done := Turn();
        total := total + added;
        EntailedTrans(Rdfs, input, before, g.triples);
        EntailedIsBounded(Rdfs, input, g.triples);
      }
    }
  }

  lemma PassIsEntailed(e: Schema, g: set<Triple>, known: set<Triple>)
    requires UpToDate(e, g) && g <= known
    requires forall r :: r in known && r !in g ==> exists t :: t in g && Emits(e, t, r)
    ensures forall part :: g <= part <= known ==> Entailed(Rdfs, g, part)
  {
    forall k, r | g <= k && Closed(Rdfs, k) && r in known ensures r in k {
      if r !in g {
        var t :| t in g && Emits(e, t, r);
        EmitsIsSound(e, g, k, t, r);
      }
    }
  }
}
