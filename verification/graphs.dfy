/** Graphs as the code uses them: a set of triples behind calls that may fail (graph/graph.go). */
module Graphs {
  import opened Closures
  import opened Common

  ghost predicate NoValue(g: set<Triple>, s: Term, p: Iri) {
    forall o :: Triple(s, p, o) !in g
  }

  function Without(g: set<Triple>, s: Term, p: Iri): set<Triple> {
    set t | t in g && !(t.s == s && t.p == p)
  }

  function WithOnly(g: set<Triple>, s: Term, p: Iri, o: Term): set<Triple> {
    Without(g, s, p) + {Triple(s, p, o)}
  }

  /** A graph in a store. A write may fail, and then changes nothing. */
  class Graph {
    var triples: set<Triple>

    constructor (g: set<Triple>)
      ensures triples == g
    {
      triples := g;
    }

    method Add(s: Term, p: Iri, o: Term) returns (ok: bool)
      modifies this
      ensures triples == if ok then old(triples) + {Triple(s, p, o)} else old(triples)
    {
      ok := *;
      if ok {
        triples := triples + {Triple(s, p, o)};
      }
    }

    /** Replaces every object of `s` and `p` at once. */
    method Set(s: Term, p: Iri, o: Term) returns (ok: bool)
      modifies this
      ensures triples == if ok then WithOnly(old(triples), s, p, o) else old(triples)
    {
      ok := *;
      if ok {
        triples := WithOnly(triples, s, p, o);
      }
    }

    method Remove(s: Term, p: Iri) returns (ok: bool)
      modifies this
      ensures triples == if ok then Without(old(triples), s, p) else old(triples)
    {
      ok := *;
      if ok {
        triples := Without(triples, s, p);
      }
    }

    /** Any one of the objects. */
    method Value(s: Term, p: Iri) returns (r: Option<Term>)
      ensures r.None? ==> NoValue(triples, s, p)
      ensures r.Some? ==> Triple(s, p, r.value) in triples
    {
      var found := set t | t in triples && t.s == s && t.p == p;
      if found == {} {
        forall o ensures Triple(s, p, o) !in triples {
          assert Triple(s, p, o) !in found;
        }
        return None;
      }
      var t :| t in found;
      return Some(t.o);
    }
  }
}
