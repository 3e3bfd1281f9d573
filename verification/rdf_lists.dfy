/** RDF collections: the list walk, appending and clearing (graph/collection.go). */
module RdfLists {
  import opened Closures
  import opened Common
  import opened Graphs

  const RDF := "http://www.w3.org/1999/02/22-rdf-syntax-ns#"
  const FIRST := Named(RDF + "first")
  const REST := Named(RDF + "rest")
  const NIL := Ref(Named(RDF + "nil"))

  lemma FirstIsNotRest()
    ensures FIRST != REST
  {
    assert |RDF + "first"| != |RDF + "rest"|;
  }

  // ---------------------------------------------------------------------------
  // Lists in a graph
  // ---------------------------------------------------------------------------

  ghost predicate OnlyValue(g: set<Triple>, s: Term, p: Iri, o: Term) {
    Triple(s, p, o) in g && AtMostValue(g, s, p, o)
  }

  ghost predicate AtMostValue(g: set<Triple>, s: Term, p: Iri, o: Term) {
    forall o' :: Triple(s, p, o') in g ==> o' == o
  }

  ghost predicate Distinct(ns: seq<Term>) {
    forall i, j :: 0 <= i < j < |ns| ==> ns[i] != ns[j]
  }

  /** `ns` are the nodes of a list with items `xs`. The last node may lack its rdf:rest, which
      readers take for the end. */
  ghost predicate Readable(g: set<Triple>, ns: seq<Term>, xs: seq<Term>) {
    && ns != [] && Distinct(ns)
    && (forall i :: 0 < i < |ns| ==> IsSubject(ns[i]) && ns[i] != NIL)
    && (forall i :: 0 <= i < |ns| - 1 ==> OnlyValue(g, ns[i], REST, ns[i + 1]))
    && AtMostValue(g, ns[|ns| - 1], REST, NIL)
    && (if xs == [] then |ns| == 1 && NoValue(g, ns[0], FIRST)
        else |ns| == |xs| && forall i :: 0 <= i < |ns| ==> OnlyValue(g, ns[i], FIRST, xs[i]))
  }

  /** A list as RDF means it: rdf:nil ends it and is never one of its nodes. */
  ghost predicate WellFormed(g: set<Triple>, ns: seq<Term>, xs: seq<Term>) {
    Readable(g, ns, xs) && (xs != [] ==> ns[0] != NIL && OnlyValue(g, ns[|ns| - 1], REST, NIL))
  }

  /** A walk from `ns[0]` that follows some rdf:rest at each node and stops where the code does. */
  ghost predicate IsWalk(g: set<Triple>, ns: seq<Term>) {
    && Linked(g, ns)
    && (NoValue(g, ns[|ns| - 1], REST) || exists o :: Triple(ns[|ns| - 1], REST, o) in g && StopsAt(ns, o))
  }

  ghost predicate Linked(g: set<Triple>, ns: seq<Term>) {
    && ns != [] && Distinct(ns)
    && (forall i :: 0 < i < |ns| ==> IsSubject(ns[i]) && ns[i] != NIL)
    && (forall i :: 0 <= i < |ns| - 1 ==> Triple(ns[i], REST, ns[i + 1]) in g)
  }

  predicate StopsAt(ns: seq<Term>, o: Term) {
    o == NIL || !IsSubject(o) || o in ns
  }

  /** On a list, whatever the graph answers, the walk visits the list's nodes in order. */
  lemma WalkOfList(g: set<Triple>, ns: seq<Term>, xs: seq<Term>, ws: seq<Term>)
    requires Readable(g, ns, xs) && IsWalk(g, ws) && ws[0] == ns[0]
    ensures ws == ns
  {
    LinkedFollows(g, ns, xs, ws, |ws| - 1);
    var n := |ws| - 1;
    assert n < |ns| - 1 ==> OnlyValue(g, ns[n], REST, ns[n + 1]);
  }

  lemma {:induction false} LinkedFollows(g: set<Triple>, ns: seq<Term>, xs: seq<Term>, ws: seq<Term>, n: nat)
    requires Readable(g, ns, xs) && Linked(g, ws) && ws[0] == ns[0] && n < |ws|
    ensures n < |ns| && ws[..n + 1] == ns[..n + 1]
  {
    if n > 0 {
      LinkedFollows(g, ns, xs, ws, n - 1);
      assert ws[n - 1] == ws[..n][n - 1] == ns[..n][n - 1] == ns[n - 1];
      assert Triple(ns[n - 1], REST, ws[n]) in g;
      assert n < |ns| && OnlyValue(g, ns[n - 1], REST, ns[n]);
      assert ws[..n + 1] == ws[..n] + [ws[n]] && ns[..n + 1] == ns[..n] + [ns[n]];
    }
  }

  // ---------------------------------------------------------------------------
  // What appending writes
  // ---------------------------------------------------------------------------

  /** The graph after the first `k` writes of an append; `end` is the old last node, if any. */
  function Stage(g: set<Triple>, head: Term, end: Option<Term>, item: Term, node: Term, k: nat): set<Triple> {
    match end
    case None => g + (if k >= 1 then {Triple(head, FIRST, item)} else {}) + (if k >= 2 then {Triple(head, REST, NIL)} else {})
    case Some(last) =>
      var built := g + (if k >= 1 then {Triple(node, FIRST, item)} else {}) + (if k >= 2 then {Triple(node, REST, NIL)} else {});
      if k >= 3 then WithOnly(built, last, REST, node) else built
  }

  function LastStage(end: Option<Term>): nat {
    if end.None? then 2 else 3
  }

  /** `end` is what the code may take for the end of the list at `head`. */
  ghost predicate IsEnd(g: set<Triple>, head: Term, end: Option<Term>) {
    match end
    case None => NoValue(g, head, FIRST)
    case Some(last) => !NoValue(g, head, FIRST) && exists ws :: IsWalk(g, ws) && ws[0] == head && ws[|ws| - 1] == last
  }

  lemma EndOfList(g: set<Triple>, ns: seq<Term>, xs: seq<Term>, end: Option<Term>)
    requires Readable(g, ns, xs) && IsEnd(g, ns[0], end)
    ensures end == if xs == [] then None else Some(ns[|ns| - 1])
  {
    assert xs != [] ==> OnlyValue(g, ns[0], FIRST, xs[0]);
    if end.Some? {
      var ws :| IsWalk(g, ws) && ws[0] == ns[0] && ws[|ws| - 1] == end.value;
      WalkOfList(g, ns, xs, ws);
    }
  }

  lemma NewNodeHasNothing(g: set<Triple>, node: Term)
    requires node !in Nodes(g)
    ensures forall t: Triple :: t in g ==> t.s != node && t.o != node
  {
  }

  /** The list with its last node closed by rdf:nil; well formed if and only if it does not
      start at rdf:nil. */
  ghost predicate Extended(g: set<Triple>, ns: seq<Term>, xs: seq<Term>) {
    Readable(g, ns, xs) && OnlyValue(g, ns[|ns| - 1], REST, NIL) && (WellFormed(g, ns, xs) <==> ns[0] != NIL)
  }

  /** Every prefix of the writes reads as the list before or the list after, and the whole
      of them gives the list with the item at the end, well formed unless its head is
      rdf:nil. */
  lemma AppendReads(g: set<Triple>, ns: seq<Term>, xs: seq<Term>, end: Option<Term>, item: Term, node: Term, k: nat)
    requires Readable(g, ns, xs) && IsEnd(g, ns[0], end)
    requires node.Blank? && node !in Nodes(g) && k <= LastStage(end)
    ensures k == 0 ==> Stage(g, ns[0], end, item, node, k) == g
    ensures xs != [] && k < LastStage(end) ==> Readable(Stage(g, ns[0], end, item, node, k), ns, xs)
    ensures xs == [] && k > 0 ==> Readable(Stage(g, ns[0], end, item, node, k), ns, [item])
    ensures k == LastStage(end) ==>
      Extended(Stage(g, ns[0], end, item, node, k), ExtendedNodes(ns, xs, node), xs + [item])
  {
    EndOfList(g, ns, xs, end);
    FirstIsNotRest();
    if xs == [] {
      AppendToEmpty(g, ns[0], item, node, k);
      assert ns == [ns[0]];
    } else {
      NodesOfList(g, ns, xs);
      NewNodeHasNothing(g, node);
      BuiltKeepsList(g, ns, xs, item, node, k);
      if k == 3 {
        SpliceExtends(g, ns, xs, item, node);
      }
    }
  }

  lemma AppendToEmpty(g: set<Triple>, head: Term, item: Term, node: Term, k: nat)
    requires Readable(g, [head], []) && k <= 2
    ensures k > 0 ==> Readable(Stage(g, head, None, item, node, k), [head], [item])
    ensures k == 2 ==> Extended(Stage(g, head, None, item, node, k), [head], [item])
  {
    FirstIsNotRest();
    var h := Stage(g, head, None, item, node, k);
    assert NoValue(g, [head][0], FIRST);
    assert k > 0 ==> OnlyValue(h, head, FIRST, item);
  }

  lemma NodesOfList(g: set<Triple>, ns: seq<Term>, xs: seq<Term>)
    requires Readable(g, ns, xs) && xs != []
    ensures forall i :: 0 <= i < |ns| ==> ns[i] in Nodes(g)
  {
    forall i | 0 <= i < |ns| ensures ns[i] in Nodes(g) {
      var t := Triple(ns[i], FIRST, xs[i]);
      assert OnlyValue(g, ns[i], FIRST, xs[i]);
      assert t in g && t.s == ns[i];
    }
  }

  /** Triples about a node outside a list do not matter to it. */
  lemma SameOnNodes(g: set<Triple>, h: set<Triple>, ns: seq<Term>, xs: seq<Term>)
    requires Readable(g, ns, xs)
    requires forall n, p, o :: n in ns && (p == FIRST || p == REST) ==> (Triple(n, p, o) in g <==> Triple(n, p, o) in h)
    ensures Readable(h, ns, xs)
    ensures WellFormed(g, ns, xs) ==> WellFormed(h, ns, xs)
  {
    forall i | 0 <= i < |ns| - 1 ensures OnlyValue(h, ns[i], REST, ns[i + 1]) {
      assert OnlyValue(g, ns[i], REST, ns[i + 1]);
    }
    if xs != [] {
      forall i | 0 <= i < |ns| ensures OnlyValue(h, ns[i], FIRST, xs[i]) {
        assert OnlyValue(g, ns[i], FIRST, xs[i]);
      }
    } else {
      assert NoValue(g, ns[0], FIRST);
    }
  }

  lemma BuiltKeepsList(g: set<Triple>, ns: seq<Term>, xs: seq<Term>, item: Term, node: Term, k: nat)
    requires Readable(g, ns, xs) && xs != [] && node !in ns && k <= 3
    ensures k < 3 ==> Readable(Stage(g, ns[0], Some(ns[|ns| - 1]), item, node, k), ns, xs)
  {
    if k < 3 {
      SameOnNodes(g, Stage(g, ns[0], Some(ns[|ns| - 1]), item, node, k), ns, xs);
    }
  }

  lemma SpliceExtends(g: set<Triple>, ns: seq<Term>, xs: seq<Term>, item: Term, node: Term)
    requires Readable(g, ns, xs) && xs != [] && node !in ns && node.Blank?
    requires forall t: Triple :: t in g ==> t.s != node
    ensures Extended(Stage(g, ns[0], Some(ns[|ns| - 1]), item, node, 3), ns + [node], xs + [item])
  {
    FirstIsNotRest();
    var n := |ns| - 1;
    var h := Stage(g, ns[0], Some(ns[n]), item, node, 3);
    var ms, ys := ns + [node], xs + [item];
    forall i | 0 <= i < |ms| - 1 ensures OnlyValue(h, ms[i], REST, ms[i + 1]) {
      if i < n {
        assert OnlyValue(g, ns[i], REST, ns[i + 1]);
      }
    }
    forall i | 0 <= i < |ms| ensures OnlyValue(h, ms[i], FIRST, ys[i]) {
      if i < |ns| {
        assert OnlyValue(g, ns[i], FIRST, xs[i]);
      }
    }
    assert OnlyValue(h, node, REST, NIL);
  }

  /** A list of `g` at `head` reads in `h` as it did or with the item at its end, and in the
      latter way when the append is done: then it is well formed if and only if `head` is not
      rdf:nil. */
  ghost predicate KeptOrExtended(g: set<Triple>, h: set<Triple>, head: Term, item: Term, node: Term, done: bool) {
    forall ns, xs :: Readable(g, ns, xs) && ns[0] == head ==>
      || (!done && Readable(h, ns, xs))
      || (!done && Readable(h, ExtendedNodes(ns, xs, node), xs + [item]))
      || Extended(h, ExtendedNodes(ns, xs, node), xs + [item])
  }

  ghost function ExtendedNodes(ns: seq<Term>, xs: seq<Term>, node: Term): seq<Term> {
    if xs == [] then ns else ns + [node]
  }

  lemma StageKeepsOrExtends(g: set<Triple>, head: Term, end: Option<Term>, item: Term, node: Term, k: nat)
    requires IsEnd(g, head, end) && node.Blank? && node !in Nodes(g) && k <= LastStage(end)
    ensures KeptOrExtended(g, Stage(g, head, end, item, node, k), head, item, node, k == LastStage(end))
  {
    forall ns, xs | Readable(g, ns, xs) && ns[0] == head
      ensures
        var h := Stage(g, head, end, item, node, k);
        || (k != LastStage(end) && Readable(h, ns, xs))
        || (k != LastStage(end) && Readable(h, ExtendedNodes(ns, xs, node), xs + [item]))
        || Extended(h, ExtendedNodes(ns, xs, node), xs + [item])
    {
      AppendReads(g, ns, xs, end, item, node, k);
      assert xs == [] ==> xs + [item] == [item];
    }
  }

  /** Appending to the collection at rdf:nil, the empty list, makes rdf:nil itself the node of a
      list: from then on every empty list of the graph reads as this one. */
  lemma NilGetsItems(g: set<Triple>, item: Term, node: Term)
    requires NoValue(g, NIL, FIRST) && NoValue(g, NIL, REST)
    ensures var h := Stage(g, NIL, None, item, node, 2);
      Triple(NIL, FIRST, item) in h && Readable(g, [NIL], []) && WellFormed(g, [NIL], []) &&
      Readable(h, [NIL], [item]) && !WellFormed(h, [NIL], [item])
  {
    assert [NIL][0] == NIL;
    assert Readable(g, [NIL], []);
    AppendToEmpty(g, NIL, item, node, 2);
  }

  /** Nothing else is written: what disappears is an rdf:rest of the old last node, and what
      appears is about the new node, that last node or an empty head. */
  lemma AppendTouchesOnly(g: set<Triple>, head: Term, end: Option<Term>, item: Term, node: Term, k: nat, t: Triple)
    ensures t in g && t !in Stage(g, head, end, item, node, k) ==> end.Some? && t.s == end.value && t.p == REST
    ensures t !in g && t in Stage(g, head, end, item, node, k) ==>
      if end.None? then t in {Triple(head, FIRST, item), Triple(head, REST, NIL)}
      else t in {Triple(node, FIRST, item), Triple(node, REST, NIL), Triple(end.value, REST, node)}
  {
  }

  /** A list that shares neither the last node nor the new one reads the same throughout. */
  lemma OtherListsKept(g: set<Triple>, head: Term, end: Option<Term>, item: Term, node: Term, k: nat, ms: seq<Term>, ys: seq<Term>)
    requires Readable(g, ms, ys) && node !in ms && (if end.None? then head else end.value) !in ms
    ensures Readable(Stage(g, head, end, item, node, k), ms, ys)
    ensures WellFormed(g, ms, ys) ==> WellFormed(Stage(g, head, end, item, node, k), ms, ys)
  {
    var h := Stage(g, head, end, item, node, k);
    forall n, p, o | n in ms && (p == FIRST || p == REST) ensures Triple(n, p, o) in g <==> Triple(n, p, o) in h {
      AppendTouchesOnly(g, head, end, item, node, k, Triple(n, p, o));
    }
    SameOnNodes(g, h, ms, ys);
  }

  /** The graph without the list triples of some nodes. */
  function Cleared(g: set<Triple>, ns: seq<Term>): set<Triple> {
    set t | t in g && !(t.s in ns && (t.p == FIRST || t.p == REST))
  }

  /** A cleared collection reads as empty. */
  lemma ClearedIsEmpty(g: set<Triple>, ns: seq<Term>)
    requires ns != []
    ensures Readable(Cleared(g, ns), [ns[0]], [])
  {
    var h := Cleared(g, ns);
    forall o ensures Triple(ns[0], FIRST, o) !in h && Triple(ns[0], REST, o) !in h {
    }
    assert NoValue(h, ns[0], FIRST);
  }

  // ---------------------------------------------------------------------------
  // The code
  // ---------------------------------------------------------------------------

  class Collection {
    const graph: Graph
    const head: Term

    constructor (graph: Graph, head: Term)
      ensures this.graph == graph && this.head == head
    {
      this.graph, this.head := graph, head;
    }

    /** The nodes of the list: on any graph, cyclic or malformed, a finite walk over distinct
        nodes; on a list, its nodes. */
    method ListNodes() returns (ns: seq<Term>)
      ensures IsWalk(graph.triples, ns) && ns[0] == head
      ensures forall ms, xs :: Readable(graph.triples, ms, xs) && ms[0] == head ==> ns == ms
    {
      var node := head;
      ns := [head];
      var visited := {head};
      ghost var space := Nodes(graph.triples) + {head};
      while true
        invariant Linked(graph.triples, ns) && ns[0] == head && node == ns[|ns| - 1]
        invariant visited == (set n | n in ns) && visited <= space
        decreases space - visited
      {
        var next := graph.Value(node, REST);
        if next.None? || next.value == NIL || !IsSubject(next.value) || next.value in visited {
          assert next.None? || StopsAt(ns, next.value);
          break;
        }
        var t := Triple(node, REST, next.value);
        assert t in graph.triples && t.o in Nodes(graph.triples);
        node := next.value;
        ns := ns + [node];
        visited := visited + {node};
      }
      forall ms, xs | Readable(graph.triples, ms, xs) && ms[0] == head ensures ns == ms {
        WalkOfList(graph.triples, ms, xs, ns);
      }
    }

    /** The items: one for each node of a walk up to the first node without rdf:first. */
    method Items() returns (items: seq<Term>, ghost ns: seq<Term>)
      ensures IsWalk(graph.triples, ns) && ns[0] == head && |items| <= |ns|
      ensures forall i :: 0 <= i < |items| ==> Triple(ns[i], FIRST, items[i]) in graph.triples
      ensures |items| < |ns| ==> NoValue(graph.triples, ns[|items|], FIRST)
      ensures forall ms, xs :: Readable(graph.triples, ms, xs) && ms[0] == head ==> items == xs
    {
      var nodes := ListNodes();
      ns := nodes;
      items := [];
      for i := 0 to |nodes|
        invariant |items| == i
        invariant forall j :: 0 <= j < i ==> Triple(ns[j], FIRST, items[j]) in graph.triples
      {
        var item := graph.Value(nodes[i], FIRST);
        if item.None? {
          break;
        }
        items := items + [item.value];
      }
      forall ms, xs | Readable(graph.triples, ms, xs) && ms[0] == head ensures items == xs {
        ItemsOfList(graph.triples, ms, xs, items);
      }
    }

    /** The last node of the walk, or nothing when the head has no item. */
    method End() returns (end: Option<Term>)
      ensures IsEnd(graph.triples, head, end)
    {
      var item := graph.Value(head, FIRST);
      if item.None? {
        return None;
      }
      var ns := ListNodes();
      return Some(ns[|ns| - 1]);
    }

    /** Appends, or fails after some of its writes; `node` is the fresh blank node. However far it
        gets, a list reads as it did or with the item at its end. */
    method Append(item: Term, node: Term) returns (ok: bool, ghost end: Option<Term>, ghost k: nat)
      requires node.Blank? && node !in Nodes(graph.triples)
      modifies graph
      ensures IsEnd(old(graph.triples), head, end) && k <= LastStage(end) && (ok ==> k == LastStage(end))
      ensures graph.triples == Stage(old(graph.triples), head, end, item, node, k)
      ensures KeptOrExtended(old(graph.triples), graph.triples, head, item, node, ok)
    {
      ghost var was := graph.triples;
      var last := End();
      end := last;
      ok, k := AppendAfter(last, item, node);
      StageKeepsOrExtends(was, head, end, item, node, k);
    }

    /** The writes: a new node is complete before the old last node refers to it. */
    method AppendAfter(last: Option<Term>, item: Term, node: Term) returns (ok: bool, ghost k: nat)
      modifies graph
      ensures k <= LastStage(last) && (ok ==> k == LastStage(last))
      ensures graph.triples == Stage(old(graph.triples), head, last, item, node, k)
    {
      k := 0;
      var s := if last.None? then head else node;
      ok := graph.Add(s, FIRST, item);
      if !ok {
        return;
      }
      k := 1;
      ok := graph.Add(s, REST, NIL);
      if !ok {
        return;
      }
      k := 2;
      if last.Some? {
        ok := graph.Set(last.value, REST, node);
        if !ok {
          return;
        }
        k := 3;
      }
    }

    /** Removes the list triples of every node of the walk, or fails after removing some. */
    method Clear() returns (ok: bool, ghost ns: seq<Term>)
      modifies graph
      ensures IsWalk(old(graph.triples), ns) && ns[0] == head
      ensures Cleared(old(graph.triples), ns) <= graph.triples <= old(graph.triples)
      ensures ok ==> graph.triples == Cleared(old(graph.triples), ns) && Readable(graph.triples, [head], [])
    {
      ghost var was := graph.triples;
      var nodes := ListNodes();
      ns := nodes;
      for i := 0 to |nodes|
        invariant graph.triples == Cleared(was, nodes[..i])
      {
        assert nodes[..i + 1] == nodes[..i] + [nodes[i]];
        ok := graph.Remove(nodes[i], FIRST);
        if !ok {
          return;
        }
        ok := graph.Remove(nodes[i], REST);
        if !ok {
          return;
        }
      }
      assert nodes[..|nodes|] == nodes;
      ok := true;
      ClearedIsEmpty(was, nodes);
    }
  }

  lemma ItemsOfList(g: set<Triple>, ms: seq<Term>, xs: seq<Term>, items: seq<Term>)
    requires Readable(g, ms, xs) && |items| <= |ms|
    requires forall i :: 0 <= i < |items| ==> Triple(ms[i], FIRST, items[i]) in g
    requires |items| < |ms| ==> NoValue(g, ms[|items|], FIRST)
    ensures items == xs
  {
    if xs == [] {
      assert NoValue(g, ms[0], FIRST);
      assert |items| == 0;
    } else {
      forall i | 0 <= i < |ms| ensures OnlyValue(g, ms[i], FIRST, xs[i]) {
      }
      assert |items| == |ms|;
    }
  }
}
