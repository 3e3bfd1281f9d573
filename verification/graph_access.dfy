/** The stopper through which the reasoning engines read and write it
    (reasoning/cancel.go, reasoning/helpers.go). The context and the store are the
    environment: any poll may find the context done and any store call may fail. */
module GraphAccess {
  import opened Closures
  import opened Graphs

  /** `halted` is the sticky error: once set it stays set and nothing more is written. */
  class Stopper {
    var halted: bool

    constructor ()
      ensures !halted
    {
      halted := false;
    }

    /** `tick` and `poll`: true once the closure must end. */
    method Poll() returns (stop: bool)
      modifies this
      ensures stop == halted && (old(halted) ==> halted)
    {
      var done: bool := *;
      halted := halted || done;
      stop := halted;
    }

    /** Reading the next triple of a scan, which may fail. */
    method Read() returns (ok: bool)
      modifies this
      ensures ok == !halted && (old(halted) ==> halted)
    {
      var fails: bool := *;
      halted := halted || fails;
      ok := !halted;
    }

    /** Writes the triple, or fails and writes nothing. */
    method Add(g: Graph, t: Triple)
      modifies this, g
      ensures old(halted) ==> halted
      ensures g.triples == if halted then old(g.triples) else old(g.triples) + {t}
    {
      if halted {
        return;
      }
      var ok := g.Add(t.s, t.p, t.o);
      halted := !ok;
    }
  }

  ghost predicate NoRepeats(ts: seq<Triple>) {
    forall i, j :: 0 <= i < j < |ts| ==> ts[i] != ts[j]
  }

  ghost function Elements(ts: seq<Triple>): set<Triple> {
    set t | t in ts
  }

  /** The triples of a pass that has not been written yet: known to the dedup set, not in
      the graph, each listed once. */
  ghost predicate Pending(graph: set<Triple>, dedup: set<Triple>, newTriples: seq<Triple>) {
    NoRepeats(newTriples) && graph <= dedup && forall t :: t in newTriples <==> t in dedup && t !in graph
  }

  lemma OneMoreElement(ts: seq<Triple>, n: nat)
    requires NoRepeats(ts) && n < |ts|
    ensures Elements(ts[..n + 1]) == Elements(ts[..n]) + {ts[n]} && ts[n] !in Elements(ts[..n])
  {
    assert ts[..n + 1] == ts[..n] + [ts[n]];
  }

  lemma OneMoreAdded(was: set<Triple>, now: set<Triple>, ts: seq<Triple>, n: nat)
    requires NoRepeats(ts) && n < |ts| && ts[n] !in was && now == was + Elements(ts[..n])
    ensures ts[n] !in now && now + {ts[n]} == was + Elements(ts[..n + 1]) && |now + {ts[n]}| == |now| + 1
  {
    OneMoreElement(ts, n);
  }

  /** Writing a batch in order: it stops at the first refusal, and the number returned is
      the number of triples written. */
  method AddAll(g: Graph, stop: Stopper, newTriples: seq<Triple>) returns (added: nat)
    requires NoRepeats(newTriples) && forall t :: t in newTriples ==> t !in g.triples
    modifies g, stop
    ensures old(stop.halted) ==> stop.halted
    ensures added <= |newTriples|
    ensures g.triples == old(g.triples) + Elements(newTriples[..added])
    ensures |g.triples| == |old(g.triples)| + added
    ensures !stop.halted ==> added == |newTriples|
  {
    added := 0;
    while added < |newTriples|
      invariant added <= |newTriples|
      invariant old(stop.halted) ==> stop.halted
      invariant g.triples == old(g.triples) + Elements(newTriples[..added])
      invariant |g.triples| == |old(g.triples)| + added
    {
      var halt := stop.Poll();
      if halt {
        return;
      }
      OneMoreAdded(old(g.triples), g.triples, newTriples, added);
      stop.Add(g, newTriples[added]);
      if stop.halted {
        return;
      }
      added := added + 1;
    }
  }

  /** The graph's triples in scan order, as far as the store could be read. */
  method ReadTriples(g: Graph, stop: Stopper) returns (all: seq<Triple>)
    modifies stop
    ensures old(stop.halted) ==> stop.halted
    ensures NoRepeats(all) && Elements(all) <= g.triples
    ensures !stop.halted ==> Elements(all) == g.triples
  {
    all := [];
    var todo := g.triples;
    while todo != {}
      invariant old(stop.halted) ==> stop.halted
      invariant NoRepeats(all) && todo <= g.triples && Elements(all) == g.triples - todo
      decreases |todo|
    {
      var ok := stop.Read();
      if !ok {
        return;
      }
      var t :| t in todo;
      assert t !in Elements(all);
      assert Elements(all + [t]) == Elements(all) + {t};
      all := all + [t];
      todo := todo - {t};
    }
  }

  // ---------------------------------------------------------------------------
  // Indexes
  // ---------------------------------------------------------------------------

  type Index = map<Term, seq<Term>>

  ghost predicate InIndex(m: Index, k: Term, v: Term) {
    k in m && v in m[k]
  }

  ghost predicate Indexes(m: Index, g: set<Triple>, p: Iri, keep: Term -> bool) {
    forall k, v :: InIndex(m, k, v) <==> Triple(k, p, v) in g && keep(v)
  }

  /** One scan of `buildSchemaIndexes`: subject to objects, for one predicate. */
  method ScanPredicate(g: Graph, stop: Stopper, p: Iri, keep: Term -> bool) returns (m: Index)
    modifies stop
    ensures old(stop.halted) ==> stop.halted
    ensures !stop.halted ==> Indexes(m, g.triples, p, keep)
  {
    m := map[];
    var todo := g.triples;
    while todo != {}
      invariant todo <= g.triples && (old(stop.halted) ==> stop.halted)
      invariant forall k, v :: InIndex(m, k, v) <==> Triple(k, p, v) in g.triples - todo && keep(v)
      decreases |todo|
    {
      var ok := stop.Read();
      if !ok {
        return;
      }
      var t :| t in todo;
      if t.p == p && keep(t.o) {
        m := m[t.s := (if t.s in m then m[t.s] else []) + [t.o]];
      }
      todo := todo - {t};
    }
  }

  // ---------------------------------------------------------------------------
  // Transitive closure of an index
  // ---------------------------------------------------------------------------

  ghost predicate IsPath(m: Index, w: seq<Term>) {
    |w| >= 2 && forall i :: 0 <= i < |w| - 1 ==> InIndex(m, w[i], w[i + 1])
  }

  /** `v` is one or more steps from `k`. */
  ghost predicate Reaches(m: Index, k: Term, v: Term) {
    exists w :: IsPath(m, w) && w[0] == k && w[|w| - 1] == v
  }

  lemma ReachesStep(m: Index, k: Term, v: Term)
    requires InIndex(m, k, v)
    ensures Reaches(m, k, v)
  {
    var w := [k, v];
    assert IsPath(m, w) && w[0] == k && w[|w| - 1] == v;
  }

  lemma ReachesExtend(m: Index, k: Term, u: Term, v: Term)
    requires Reaches(m, k, u) && InIndex(m, u, v)
    ensures Reaches(m, k, v)
  {
    var w :| IsPath(m, w) && w[0] == k && w[|w| - 1] == u;
    var longer := w + [v];
    forall i | 0 <= i < |longer| - 1 ensures InIndex(m, longer[i], longer[i + 1]) {
      if i < |w| - 1 {
        assert InIndex(m, w[i], w[i + 1]);
      }
    }
    assert IsPath(m, longer) && longer[0] == k && longer[|longer| - 1] == v;
  }

  /** A set that holds the first step and is closed under steps holds everything reached. */
  lemma {:induction false} PathStaysIn(m: Index, s: set<Term>, w: seq<Term>)
    requires IsPath(m, w) && forall v :: InIndex(m, w[0], v) ==> v in s
    requires forall u, v :: u in s && InIndex(m, u, v) ==> v in s
    ensures w[|w| - 1] in s
  {
    assert InIndex(m, w[0], w[1]);
    if |w| > 2 {
      var rest := w[1..];
      forall i | 0 <= i < |rest| - 1 ensures InIndex(m, rest[i], rest[i + 1]) {
        assert InIndex(m, w[i + 1], w[i + 2]);
      }
      PathStaysIn(m, s, rest);
    }
  }

  ghost function Values(m: Index): set<Term> {
    set k, v | k in m && v in m[k] :: v
  }

  function Successors(m: Index, k: Term): seq<Term> {
    if k in m then m[k] else []
  }

  lemma FirstReached(m: Index, k: Term)
    ensures forall v :: v in Successors(m, k) <==> InIndex(m, k, v)
    ensures forall v :: v in Successors(m, k) ==> Reaches(m, k, v) && v in Values(m)
  {
    forall v | v in Successors(m, k) ensures Reaches(m, k, v) && v in Values(m) {
      ReachesStep(m, k, v);
    }
  }

  lemma NextReached(m: Index, k: Term, cur: Term)
    requires Reaches(m, k, cur)
    ensures forall v :: v in Successors(m, cur) <==> InIndex(m, cur, v)
    ensures forall v :: v in Successors(m, cur) ==> Reaches(m, k, v) && v in Values(m)
  {
    forall v | v in Successors(m, cur) ensures Reaches(m, k, v) && v in Values(m) {
      ReachesExtend(m, k, cur, v);
    }
  }

  lemma FewerLeft(all: set<Term>, visited: set<Term>, cur: Term)
    requires cur in all && cur !in visited
    ensures |all - (visited + {cur})| < |all - visited|
  {
    assert all - (visited + {cur}) == (all - visited) - {cur};
  }

  lemma ReachedStaysIn(m: Index, s: set<Term>, k: Term)
    requires (forall v :: InIndex(m, k, v) ==> v in s) && forall u, v :: u in s && InIndex(m, u, v) ==> v in s
    ensures forall v :: Reaches(m, k, v) ==> v in s
  {
    forall v | Reaches(m, k, v) ensures v in s {
      var w :| IsPath(m, w) && w[0] == k && w[|w| - 1] == v;
      PathStaysIn(m, s, w);
    }
  }

  /** Breadth-first search from one key. */
  method Supers(m: Index, k: Term) returns (supers: seq<Term>)
    requires k in m
    ensures forall v :: v in supers <==> Reaches(m, k, v)
  {
    var visited: set<Term> := {};
    supers := [];
    var queue := Successors(m, k);
    FirstReached(m, k);
    while queue != []
      invariant forall v :: v in visited <==> v in supers
      invariant Searching(m, k, visited, queue)
      decreases |Values(m) - visited|, |queue|
    {
      var cur := queue[0];
      SearchStep(m, k, visited, queue);
      if cur in visited {
        queue := queue[1..];
      } else {
        FewerLeft(Values(m), visited, cur);
        visited := visited + {cur};
        supers := supers + [cur];
        queue := queue[1..] + Successors(m, cur);
      }
    }
    ReachedStaysIn(m, visited, k);
  }

  /** What a search from `k` has seen is reached, and what is next to it is seen or queued. */
  ghost predicate Searching(m: Index, k: Term, visited: set<Term>, queue: seq<Term>) {
    (forall v :: v in queue || v in visited ==> Reaches(m, k, v) && v in Values(m)) &&
    (forall v :: InIndex(m, k, v) ==> v in visited || v in queue) &&
    forall u, v :: u in visited && InIndex(m, u, v) ==> v in visited || v in queue
  }

  lemma SearchStep(m: Index, k: Term, visited: set<Term>, queue: seq<Term>)
    requires Searching(m, k, visited, queue) && queue != []
    ensures queue[0] in Values(m)
    ensures queue[0] in visited ==> Searching(m, k, visited, queue[1..])
    ensures Searching(m, k, visited + {queue[0]}, queue[1..] + Successors(m, queue[0]))
  {
    var cur := queue[0];
    NextReached(m, k, cur);
    assert forall v :: v in queue ==> v == cur || v in queue[1..];
  }

  method TransitiveClose(m: Index) returns (closed: Index)
    ensures forall k, v :: InIndex(closed, k, v) <==> Reaches(m, k, v)
  {
    closed := map[];
    var todo := m.Keys;
    while todo != {}
      invariant todo <= m.Keys
      invariant forall k, v :: InIndex(closed, k, v) <==> k in m.Keys - todo && Reaches(m, k, v)
      decreases |todo|
    {
      var k :| k in todo;
      var supers := Supers(m, k);
      ghost var before, left := closed, todo;
      if supers != [] {
        closed := closed[k := supers];
      }
      todo := todo - {k};
      forall j, v ensures InIndex(closed, j, v) <==> j in m.Keys - todo && Reaches(m, j, v) {
        assert InIndex(before, j, v) <==> j in m.Keys - left && Reaches(m, j, v);
        if j == k {
          assert v in supers <==> Reaches(m, k, v);
        }
      }
    }
    forall k, v | Reaches(m, k, v) ensures k in m {
      var w :| IsPath(m, w) && w[0] == k && w[|w| - 1] == v;
      assert InIndex(m, w[0], w[1]);
    }
  }
}
