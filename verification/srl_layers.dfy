/** A stratum in which no rule feeds itself, directly or through others, settles after as many
    rounds as its longest chain of rules, whatever the data and whatever BIND makes. */
module SrlLayers {
  import opened Common
  import opened Stratification
  import opened SrlRules
  import opened SrlModels

  /** Every rule is placed above the rules of `which` that feed it. */
  ghost predicate Layered(rules: seq<Rule>, which: set<nat>, rank: seq<nat>) {
    |rank| == |rules| && forall i: nat, j: nat {:trigger rank[i], rank[j]} ::
      i in which && j in which && i < |rules| && j < |rules| && PatternsOverlap(rules[i].head, PositivePatterns(rules[j].body)) ==>
        rank[i] < rank[j]
  }

  /** `f` are the rounds of the rules `which`. */
  ghost predicate AreRounds(x: Expressions, rules: seq<Rule>, which: set<nat>, f: nat -> iset<Ground>) {
    forall k: nat :: f(k + 1) == f(k) + Consequences(x, rules, which, f(k))
  }

  lemma {:induction false} RoundsClimb(x: Expressions, rules: seq<Rule>, which: set<nat>, f: nat -> iset<Ground>, n: nat, m: nat)
    requires AreRounds(x, rules, which, f) && n <= m
    ensures f(n) <= f(m)
    decreases m
  {
    if n < m {
      RoundsClimb(x, rules, which, f, n, m - 1);
      assert f(m - 1 + 1) == f(m - 1) + Consequences(x, rules, which, f(m - 1));
    }
  }

  /** What is in a round was there at the start or was derived in an earlier one. */
  lemma {:induction false} DerivedEarlier(x: Expressions, rules: seq<Rule>, which: set<nat>, f: nat -> iset<Ground>, m: nat, h: Ground)
    returns (k: nat, j: nat)
    requires AreRounds(x, rules, which, f) && h in f(m) && h !in f(0)
    ensures k < m && j in which && j < |rules| && Derives(x, rules[j], f(k), f(k), h)
  {
    var prev: nat := m - 1;
    assert f(prev + 1) == f(prev) + Consequences(x, rules, which, f(prev));
    if h in f(prev) {
      k, j := DerivedEarlier(x, rules, which, f, prev, h);
    } else {
      assert Consequence(x, rules, which, f(prev), h);
      k := prev;
      j :| j in which && j < |rules| && Derives(x, rules[j], f(prev), f(prev), h);
    }
  }

  /** A derived triple that a rule sees makes it one that is fed. */
  lemma SeenIsFed(x: Expressions, rules: seq<Rule>, i: nat, j: nat, facts: iset<Ground>, h: Ground)
    requires i < |rules| && j < |rules| && Analysable(rules[i]) && Analysable(rules[j])
    requires Derives(x, rules[j], facts, facts, h) && FitsAny(PositivePatterns(rules[i].body), h)
    ensures PatternsOverlap(rules[j].head, PositivePatterns(rules[i].body))
  {
    var pos := PositivePatterns(rules[i].body);
    var b, k :| Solves(x, facts, facts, rules[j].body, map[], b) && 0 <= k < |rules[j].head| && Instantiate(rules[j].head[k], b) == Some(h);
    var p :| 0 <= p < |pos| && Fits(pos[p], h);
    PositiveEdgeSound(rules[j].head[k], b, h, pos[p]);
  }

  /** What a rule derives in any round it derives by the round after its rank. */
  lemma {:induction false} LayerIsDone(x: Expressions, rules: seq<Rule>, level: Level, s: nat, f: nat -> iset<Ground>,
                                       rank: seq<nat>, m: nat, i: nat, g: Ground)
    requires Stratified(rules, level) && AreRounds(x, rules, At(level, s), f) && Layered(rules, At(level, s), rank)
    requires i in At(level, s) && i < |rules| && Derives(x, rules[i], f(m), f(m), g)
    ensures g in f(rank[i] + 1)
    decreases rank[i]
  {
    var which, r := At(level, s), rank[i];
    if m <= r {
      assert Consequence(x, rules, which, f(m), g);
      assert f(m + 1) == f(m) + Consequences(x, rules, which, f(m));
      RoundsClimb(x, rules, which, f, m + 1, r + 1);
    } else {
      RoundsClimb(x, rules, which, f, r, m);
      forall h | h in f(m) && FitsAny(PositivePatterns(rules[i].body), h) ensures h in f(r) {
        SeenInLayer(x, rules, level, s, f, rank, m, i, h);
      }
      forall h | FitsAny(NegativePatterns(rules[i].body), h) ensures h in f(m) <==> h in f(r) {
        if h in f(m) && h !in f(r) {
          NotUnseen(x, rules, level, s, f, r, m, i, h);
        }
      }
      DerivesLocal(x, rules[i], f(m), f(m), f(r), f(r), g);
      assert Consequence(x, rules, which, f(r), g);
      assert f(r + 1) == f(r) + Consequences(x, rules, which, f(r));
    }
  }

  lemma {:induction false} SeenInLayer(x: Expressions, rules: seq<Rule>, level: Level, s: nat, f: nat -> iset<Ground>,
                                       rank: seq<nat>, m: nat, i: nat, h: Ground)
    requires Stratified(rules, level) && AreRounds(x, rules, At(level, s), f) && Layered(rules, At(level, s), rank)
    requires i in At(level, s) && i < |rules| && h in f(m) && FitsAny(PositivePatterns(rules[i].body), h)
    ensures h in f(rank[i])
    decreases rank[i], 0
  {
    var which := At(level, s);
    if h in f(0) {
      RoundsClimb(x, rules, which, f, 0, rank[i]);
    } else {
      var k, j := DerivedEarlier(x, rules, which, f, m, h);
      SeenIsFed(x, rules, i, j, f(k), h);
      assert rank[j] < rank[i];
      LayerIsDone(x, rules, level, s, f, rank, k, j, h);
      RoundsClimb(x, rules, which, f, rank[j] + 1, rank[i]);
    }
  }

  /** A NOT of the stratum does not see what the stratum adds. */
  lemma NotUnseen(x: Expressions, rules: seq<Rule>, level: Level, s: nat, f: nat -> iset<Ground>, r: nat, m: nat, i: nat, h: Ground)
    requires Stratified(rules, level) && AreRounds(x, rules, At(level, s), f) && i in At(level, s) && i < |rules|
    requires h in f(m) && h !in f(r)
    ensures !FitsAny(NegativePatterns(rules[i].body), h)
  {
    var which := At(level, s);
    RoundsClimb(x, rules, which, f, 0, r);
    var k, j := DerivedEarlier(x, rules, which, f, m, h);
    DerivedIsProduced(x, rules, which, j, f(k), f(k), h);
    ProducesMonotone(rules, which, From(level, s), h);
    HigherHeadsUnseen(rules, level, s, i, h);
  }

  /** After as many rounds as there are ranks, nothing is left to derive. */
  lemma LayersSettle(x: Expressions, rules: seq<Rule>, level: Level, s: nat, start: iset<Ground>, rank: seq<nat>, n: nat)
    requires Stratified(rules, level) && Layered(rules, At(level, s), rank)
    requires forall i :: i in At(level, s) && i < |rules| ==> rank[i] < n
    ensures var end := Rounds(x, rules, At(level, s), start, n); Closed(x, rules, At(level, s), end, end)
  {
    var which := At(level, s);
    var f := (k: nat) => Rounds(x, rules, which, start, k);
    forall k: nat ensures f(k + 1) == f(k) + Consequences(x, rules, which, f(k)) {
      NextRound(x, rules, which, start, k);
    }
    forall i: nat, g | i in which && i < |rules| && Derives(x, rules[i], f(n), f(n), g) ensures g in f(n) {
      LayerIsDone(x, rules, level, s, f, rank, n, i, g);
      RoundsClimb(x, rules, which, f, rank[i] + 1, n);
    }
  }

  // ---------------------------------------------------------------------------
  // Rule sets without recursion
  // ---------------------------------------------------------------------------

  function StrictEdges(edges: seq<Edge>): seq<Edge> {
    seq(|edges|, k requires 0 <= k < |edges| => Edge(edges[k].to, true))
  }

  /** The same dependencies with every one of them as strict as a NOT. */
  function Strict(deps: Deps): Deps {
    seq(|deps|, b requires 0 <= b < |deps| => StrictEdges(deps[b]))
  }

  lemma StrictWellFormed(deps: Deps)
    requires WellFormed(deps)
    ensures WellFormed(Strict(deps))
  {
    forall b, k | 0 <= b < |deps| && 0 <= k < |Strict(deps)[b]| ensures Strict(deps)[b][k].to < |deps| {
      assert deps[b][k].to < |deps|;
    }
  }

  /** No rule depends on itself, directly or through others. */
  ghost predicate NonRecursive(rules: seq<Rule>) {
    !HasNotCycle(Strict(DepsOf(rules)))
  }

  /** Then there is a rank for every rule, smaller than their number. */
  lemma NonRecursiveLayers(rules: seq<Rule>) returns (rank: seq<nat>)
    requires NonRecursive(rules)
    ensures forall which :: Layered(rules, which, rank)
    ensures forall i :: 0 <= i < |rank| ==> rank[i] < |rules|
  {
    var deps := DepsOf(rules);
    DepsOfWellFormed(rules);
    StrictWellFormed(deps);
    StratifiableIffNoNotCycle(Strict(deps));
    var some :| Respects(Strict(deps), some);
    rank := LeastExists(Strict(deps), some);
    forall i | 0 <= i < |rank| ensures rank[i] < |rules| {
      LeastIsSmall(Strict(deps), rank, i);
    }
    forall i: nat, j: nat | i < |rules| && j < |rules| && PatternsOverlap(rules[i].head, PositivePatterns(rules[j].body))
      ensures rank[i] < rank[j]
    {
      FedIsAbove(rules, rank, i, j);
    }
  }

  lemma FedIsAbove(rules: seq<Rule>, rank: seq<nat>, i: nat, j: nat)
    requires WellFormed(Strict(DepsOf(rules))) && Respects(Strict(DepsOf(rules)), rank)
    requires i < |rules| && j < |rules| && PatternsOverlap(rules[i].head, PositivePatterns(rules[j].body))
    ensures rank[i] < rank[j]
  {
    var deps := DepsOf(rules);
    EdgesOfComplete(rules, rules[j], |rules|);
    var k :| 0 <= k < |deps[j]| && deps[j][k] == Edge(i, false);
    assert Strict(deps)[j][k] == Edge(i, true);
  }
}
