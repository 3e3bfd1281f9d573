/** The entry point of the reasoner: RDFS first, then OWL and RDFS in turn until neither
    adds a triple (reasoning/entailment.go). */
module Entailment {
  import opened Common
  import opened Closures
  import opened GraphAccess
  import opened Graphs
  import RdfsEngine
  import OwlEngine

  /** Regimes are flags: RDFS is 1, OWL RL is 2. */
  const RDFS: int := 1
  const OWLRL: int := 2

  datatype Outcome<I> =
    | Expanded(total: nat)
    | Checked(total: nat, inconsistencies: I)
    | Stopped(total: nat)
    | UnknownRegime

  predicate Known(regime: int) {
    1 <= regime <= RDFS + OWLRL
  }

  /** The rules a regime asks for; OWL RL builds on RDFS. */
  function RulesOf(regime: int): Rules {
    if regime == RDFS then Rdfs else RdfsAndOwl
  }

  lemma JointlyClosed(g: set<Triple>)
    requires Closed(Rdfs, g) && Closed(Owl, g)
    ensures Closed(RdfsAndOwl, g)
  {
  }

  lemma SameSize(few: set<Triple>, many: set<Triple>)
    requires few <= many && |few| == |many|
    ensures few == many
  {
    if t :| t in many && t !in few {
      SubsetSize(few + {t}, many);
    }
  }

  /** A stopped run leaves a graph between the input and its closure. A finished one leaves
      exactly the least graph closed under all the regime's rules together, although the
      two engines never see each other's rules, and the inconsistencies it reports were
      computed on that graph. Either way the total is the number of triples added. */
  method ExpandCheck<I>(g: Graph, regime: int, stop: Stopper, check: set<Triple> -> I, less: (Term, Term) -> bool)
    returns (r: Outcome<I>)
    requires !stop.halted
    modifies g, stop
    ensures r.UnknownRegime? <==> !Known(regime)
    ensures r.UnknownRegime? ==> g.triples == old(g.triples)
    ensures !r.UnknownRegime? ==>
      Entailed(RulesOf(regime), old(g.triples), g.triples) && r.total == |g.triples| - |old(g.triples)|
    ensures r.Stopped? ==> stop.halted
    ensures r.Expanded? ==> regime == RDFS
    ensures r.Checked? ==> regime != RDFS && r.inconsistencies == check(g.triples)
    ensures r.Expanded? || r.Checked? ==> IsClosure(RulesOf(regime), old(g.triples), g.triples)
  {
    if !Known(regime) {
      return UnknownRegime;
    }
    var halt := stop.Poll();
    if halt {
      return Stopped(0);
    }
    ghost var input := g.triples;
    var first := new RdfsEngine.Engine(g, stop);
    var total := first.Run();
    EntailedByMore(Rdfs, RdfsAndOwl, input, g.triples);
    if stop.halted {
      return Stopped(total);
    }
    if regime == RDFS {
      return Expanded(total);
    }
    UniverseIsClosed(input);
    r := Alternate(g, stop, check, less, input, total);
  }

  /** The alternation of the two regimes, from a graph closed under RDFS. */
  method Alternate<I>(g: Graph, stop: Stopper, check: set<Triple> -> I, less: (Term, Term) -> bool,
                      ghost input: set<Triple>, start: nat) returns (r: Outcome<I>)
    requires !stop.halted && Closed(Rdfs, g.triples)
    requires Entailed(RdfsAndOwl, input, g.triples) && start == |g.triples| - |input|
    modifies g, stop
    ensures r.Stopped? || r.Checked?
    ensures Entailed(RdfsAndOwl, input, g.triples) && r.total == |g.triples| - |input|
    ensures r.Stopped? ==> stop.halted
    ensures r.Checked? ==> r.inconsistencies == check(g.triples) && IsClosure(RdfsAndOwl, input, g.triples)
  {
    var total := start;
    UniverseIsClosed(input);
    while true
      invariant !stop.halted && Closed(Rdfs, g.triples)
      invariant Entailed(RdfsAndOwl, input, g.triples) && total == |g.triples| - |input|
      decreases |Universe(input)| - |g.triples|
    {
      ghost var before := g.triples;
      var owl := new OwlEngine.Engine(g, stop, less);
      var n, incon := owl.Run(check);
      total := total + n;
      EntailedByMore(Owl, RdfsAndOwl, before, g.triples);
      EntailedTrans(RdfsAndOwl, input, before, g.triples);
      if stop.halted {
        return Stopped(total);
      }
      if n == 0 {
        SameSize(before, g.triples);
        JointlyClosed(g.triples);
        return Checked(total, incon.value);
      }
      ghost var middle := g.triples;
      var rdfs := new RdfsEngine.Engine(g, stop);
      var m := rdfs.Run();
      total := total + m;
      EntailedByMore(Rdfs, RdfsAndOwl, middle, g.triples);
      EntailedTrans(RdfsAndOwl, input, middle, g.triples);
      if stop.halted {
        return Stopped(total);
      }
      if m == 0 {
        SameSize(middle, g.triples);
        JointlyClosed(g.triples);
        return Checked(total, incon.value);
      }
      EntailedIsBounded(RdfsAndOwl, input, g.triples);
    }
  }
}
