/** What evaluating an SRL rule set stratum by stratum computes: the one stable model
    of the rules over the data. */
module SrlModels {
  import opened Common
  import opened Stratification
  import opened SrlRules

  /** One application of `rule`: patterns match in `facts`, NOT is judged in `world`. */
  ghost predicate Derives(x: Expressions, rule: Rule, facts: iset<Ground>, world: iset<Ground>, g: Ground) {
    exists b, k :: Solves(x, facts, world, rule.body, map[], b) &&
      0 <= k < |rule.head| && Instantiate(rule.head[k], b) == Some(g)
  }

  ghost predicate Closed(x: Expressions, rules: seq<Rule>, which: set<nat>, facts: iset<Ground>, world: iset<Ground>) {
    forall i: nat, g :: i in which && i < |rules| && Derives(x, rules[i], facts, world, g) ==> g in facts
  }

  /** `g` has the shape of a head of one of the rules, whatever its body says. */
  ghost predicate Produces(rules: seq<Rule>, which: set<nat>, g: Ground) {
    exists i: nat, k: nat, b :: i in which && i < |rules| && k < |rules[i].head| && Instantiate(rules[i].head[k], b) == Some(g)
  }

  ghost function At(level: Level, s: nat): set<nat> {
    set i: nat | i < |level| && level[i] == s
  }

  ghost function Before(level: Level, s: nat): set<nat> {
    set i: nat | i < |level| && level[i] < s
  }

  ghost function From(level: Level, s: nat): set<nat> {
    set i: nat | i < |level| && level[i] >= s
  }

  /** `end` is reached from `start` by applying the rules `which`: whatever it adds has
      the shape of one of their heads, and nothing is added that the rules do not force
      when every NOT is judged at the start. */
  ghost predicate Grows(x: Expressions, rules: seq<Rule>, which: set<nat>, start: iset<Ground>, end: iset<Ground>) {
    start <= end &&
    (forall g :: g in end && g !in start ==> Produces(rules, which, g)) &&
    (forall k :: start <= k && Closed(x, rules, which, k, start) ==> end <= k)
  }

  /** The sets of triples at the stratum boundaries of one evaluation. */
  ghost predicate IsRun(x: Expressions, rules: seq<Rule>, level: Level, stages: seq<iset<Ground>>) {
    stages != [] && forall s :: 0 <= s < |stages| - 1 ==> Grows(x, rules, At(level, s), stages[s], stages[s + 1])
  }

  /** A run in which every stratum reached its fixed point. */
  ghost predicate IsSettledRun(x: Expressions, rules: seq<Rule>, level: Level, stages: seq<iset<Ground>>) {
    IsRun(x, rules, level, stages) &&
    forall s :: 0 <= s < |stages| - 1 ==> Closed(x, rules, At(level, s), stages[s + 1], stages[s + 1])
  }

  ghost predicate EndsAbove(level: Level, stages: seq<iset<Ground>>) {
    stages != [] && forall i :: 0 <= i < |level| ==> level[i] < |stages| - 1
  }

  /** The stable models of the rules over `data`: sets that are exactly what the rules
      derive once NOT is read as "absent from the set". */
  ghost predicate StableModel(x: Expressions, rules: seq<Rule>, data: iset<Ground>, m: iset<Ground>) {
    var all := Indices(|rules|);
    data <= m && Closed(x, rules, all, m, m) &&
    forall k :: data <= k && Closed(x, rules, all, k, m) ==> m <= k
  }

  /** What the dependency analysis needs of a rule: no NOT inside a NOT, and predicates
      it can compare. */
  ghost predicate Analysable(rule: Rule) {
    NoNestedNot(rule.body) &&
    (forall k :: 0 <= k < |rule.head| ==> ReadableHead(rule.head[k])) &&
    (forall k :: 0 <= k < |PositivePatterns(rule.body)| ==> !PositivePatterns(rule.body)[k].p.TripleTerm?)
  }

  ghost predicate Stratified(rules: seq<Rule>, level: Level) {
    (forall i :: 0 <= i < |rules| ==> Analysable(rules[i])) &&
    WellFormed(DepsOf(rules)) && Respects(DepsOf(rules), level)
  }

  // ---------------------------------------------------------------------------
  // Strata do not disturb the strata below them
  // ---------------------------------------------------------------------------

  lemma HigherHeadsUnseen(rules: seq<Rule>, level: Level, s: nat, i: nat, g: Ground)
    requires Stratified(rules, level) && i < |rules| && Produces(rules, From(level, s), g)
    ensures level[i] < s ==> !FitsAny(PositivePatterns(rules[i].body), g)
    ensures level[i] <= s ==> !FitsAny(NegativePatterns(rules[i].body), g)
  {
    var a: nat, k: nat, b :| a in From(level, s) && a < |rules| && k < |rules[a].head| &&
      Instantiate(rules[a].head[k], b) == Some(g);
    LevelsOrderRules(rules, level, i, a);
    var pos, neg := PositivePatterns(rules[i].body), NegativePatterns(rules[i].body);
    if FitsAny(pos, g) {
      var j :| 0 <= j < |pos| && Fits(pos[j], g);
      PositiveEdgeSound(rules[a].head[k], b, g, pos[j]);
    }
    if FitsAny(neg, g) {
      var j :| 0 <= j < |neg| && Fits(neg[j], g);
      NegativeEdgeSound(rules[a].head[k], b, g, neg[j]);
    }
  }

  lemma DerivesLocal(x: Expressions, rule: Rule, facts: iset<Ground>, world: iset<Ground>,
                     facts': iset<Ground>, world': iset<Ground>, g: Ground)
    requires Derives(x, rule, facts, world, g) && NoNestedNot(rule.body)
    requires forall h :: h in facts && FitsAny(PositivePatterns(rule.body), h) ==> h in facts'
    requires forall h :: FitsAny(NegativePatterns(rule.body), h) ==> (h in world <==> h in world')
    ensures Derives(x, rule, facts', world', g)
  {
    var b, k :| Solves(x, facts, world, rule.body, map[], b) &&
      0 <= k < |rule.head| && Instantiate(rule.head[k], b) == Some(g);
    SolvesLocal(x, facts, world, facts', world', rule.body, map[], b);
  }

  lemma ProducesMonotone(rules: seq<Rule>, few: set<nat>, many: set<nat>, g: Ground)
    requires Produces(rules, few, g) && few <= many
    ensures Produces(rules, many, g)
  {
  }

  lemma {:induction false} StagesGrow(x: Expressions, rules: seq<Rule>, level: Level, stages: seq<iset<Ground>>, s: nat, t: nat)
    requires IsRun(x, rules, level, stages) && s <= t < |stages|
    ensures stages[s] <= stages[t]
    ensures forall g :: g in stages[t] && g !in stages[s] ==> Produces(rules, From(level, s), g)
    decreases t
  {
    if s < t {
      StagesGrow(x, rules, level, stages, s, t - 1);
      assert Grows(x, rules, At(level, t - 1), stages[t - 1], stages[t]);
      forall g | g in stages[t] && g !in stages[s] ensures Produces(rules, From(level, s), g) {
        if g !in stages[t - 1] {
          ProducesMonotone(rules, At(level, t - 1), From(level, s), g);
        }
      }
    }
  }

  /** A rule below stratum `s` derives from a later set only what it derived before. */
  lemma LowerRuleUndisturbed(x: Expressions, rules: seq<Rule>, level: Level, s: nat, i: nat,
                             was: iset<Ground>, now: iset<Ground>, g: Ground)
    requires Stratified(rules, level) && i < |rules| && level[i] < s && was <= now
    requires forall h :: h in now && h !in was ==> Produces(rules, From(level, s), h)
    requires Derives(x, rules[i], now, now, g)
    ensures Derives(x, rules[i], was, was, g)
  {
    forall h | h in now && h !in was
      ensures !FitsAny(PositivePatterns(rules[i].body), h) && !FitsAny(NegativePatterns(rules[i].body), h)
    {
      HigherHeadsUnseen(rules, level, s, i, h);
    }
    DerivesLocal(x, rules[i], now, now, was, was, g);
  }

  /** Once a stratum is closed it stays closed while later strata add triples. */
  lemma {:induction false} ClosedBefore(x: Expressions, rules: seq<Rule>, level: Level, stages: seq<iset<Ground>>, s: nat)
    requires Stratified(rules, level) && IsSettledRun(x, rules, level, stages) && s < |stages|
    ensures Closed(x, rules, Before(level, s), stages[s], stages[s])
  {
    if s > 0 {
      ClosedBefore(x, rules, level, stages, s - 1);
      NextStageClosed(x, rules, level, stages, s);
    }
  }

  lemma NextStageClosed(x: Expressions, rules: seq<Rule>, level: Level, stages: seq<iset<Ground>>, s: nat)
    requires Stratified(rules, level) && IsSettledRun(x, rules, level, stages) && 0 < s < |stages|
    requires Closed(x, rules, Before(level, s - 1), stages[s - 1], stages[s - 1])
    ensures Closed(x, rules, Before(level, s), stages[s], stages[s])
  {
    assert Closed(x, rules, At(level, s - 1), stages[s], stages[s]);
    StagesGrow(x, rules, level, stages, s - 1, s);
    ClosedWithNext(x, rules, level, s - 1, stages[s - 1], stages[s]);
  }

  lemma ClosedWithNext(x: Expressions, rules: seq<Rule>, level: Level, s: nat, was: iset<Ground>, now: iset<Ground>)
    requires Stratified(rules, level) && was <= now
    requires forall h :: h in now && h !in was ==> Produces(rules, From(level, s), h)
    requires Closed(x, rules, Before(level, s), was, was) && Closed(x, rules, At(level, s), now, now)
    ensures Closed(x, rules, Before(level, s + 1), now, now)
  {
    forall i: nat, g | i in Before(level, s + 1) && i < |rules| && Derives(x, rules[i], now, now, g) ensures g in now {
      if level[i] < s {
        LowerRuleUndisturbed(x, rules, level, s, i, was, now, g);
        assert i in Before(level, s);
      } else {
        assert i in At(level, s);
      }
    }
  }

  ghost predicate HasSolution(x: Expressions, facts: iset<Ground>, body: seq<Element>, b: Binding) {
    exists n :: Solves(x, facts, facts, body, b, n)
  }

  /** No NOT of a rule changes its verdict after the rule's stratum starts: not within
      the stratum, not later. */
  lemma NotVerdictsStable(x: Expressions, rules: seq<Rule>, level: Level, stages: seq<iset<Ground>>,
                          i: nat, k: nat, between: iset<Ground>, b: Binding)
    requires Stratified(rules, level) && IsRun(x, rules, level, stages)
    requires i < |rules| && level[i] < |stages| && k < |rules[i].body| && rules[i].body[k].Not?
    requires stages[level[i]] <= between <= stages[|stages| - 1]
    ensures var start, body := stages[level[i]], rules[i].body[k].body;
      HasSolution(x, start, body, b) <==> HasSolution(x, between, body, b)
  {
    var start, body := stages[level[i]], rules[i].body[k].body;
    StagesGrow(x, rules, level, stages, level[i], |stages| - 1);
    NoNotHasNoNegatives(body);
    forall h | h in between && FitsAny(PositivePatterns(body), h) ensures h in start {
      NotPatternsCollected(rules[i].body, k, h);
      if h !in start {
        HigherHeadsUnseen(rules, level, level[i], i, h);
      }
    }
    if HasSolution(x, start, body, b) {
      var n :| Solves(x, start, start, body, b, n);
      SolvesLocal(x, start, start, between, between, body, b, n);
    }
    if HasSolution(x, between, body, b) {
      var n :| Solves(x, between, between, body, b, n);
      SolvesLocal(x, between, between, start, start, body, b, n);
    }
  }

  lemma {:induction false} NotPatternsCollected(es: seq<Element>, k: nat, h: Ground)
    requires k < |es| && es[k].Not? && FitsAny(PositivePatterns(es[k].body), h)
    ensures FitsAny(NegativePatterns(es), h)
  {
    FitsAnyRest(es);
    if k > 0 {
      NotPatternsCollected(es[1..], k - 1, h);
    }
  }

  // ---------------------------------------------------------------------------
  // The final set is the stable model
  // ---------------------------------------------------------------------------

  /** The last set of any run is minimal; so it is a stable model exactly when it is
      closed under the rules. */
  lemma FinalSetStableIffClosed(x: Expressions, rules: seq<Rule>, level: Level, stages: seq<iset<Ground>>)
    requires Stratified(rules, level) && IsRun(x, rules, level, stages) && EndsAbove(level, stages)
    ensures var final := stages[|stages| - 1];
      StableModel(x, rules, stages[0], final) <==> Closed(x, rules, Indices(|rules|), final, final)
  {
    var final := stages[|stages| - 1];
    assert Indices(|rules|) == Before(level, |stages| - 1);
    StagesGrow(x, rules, level, stages, 0, |stages| - 1);
    forall k | stages[0] <= k && Closed(x, rules, Indices(|rules|), k, final) ensures final <= k {
      StagesBelowModel(x, rules, level, stages, |stages| - 1, k);
    }
  }

  /** A run whose strata all reached their fixed point ends in a stable model: closed
      under every rule, every triple data or derived, each NOT read in the final set. */
  lemma SettledRunIsStable(x: Expressions, rules: seq<Rule>, level: Level, stages: seq<iset<Ground>>)
    requires Stratified(rules, level) && IsSettledRun(x, rules, level, stages) && EndsAbove(level, stages)
    ensures StableModel(x, rules, stages[0], stages[|stages| - 1])
  {
    assert Indices(|rules|) == Before(level, |stages| - 1);
    ClosedBefore(x, rules, level, stages, |stages| - 1);
    FinalSetStableIffClosed(x, rules, level, stages);
  }

  lemma {:induction false} StagesBelowModel(x: Expressions, rules: seq<Rule>, level: Level, stages: seq<iset<Ground>>, s: nat, k: iset<Ground>)
    requires Stratified(rules, level) && IsRun(x, rules, level, stages) && s < |stages|
    requires stages[0] <= k && Closed(x, rules, Before(level, |stages| - 1), k, stages[|stages| - 1])
    ensures stages[s] <= k
  {
    if s > 0 {
      StagesBelowModel(x, rules, level, stages, s - 1, k);
      var was, final := stages[s - 1], stages[|stages| - 1];
      StagesGrow(x, rules, level, stages, s - 1, |stages| - 1);
      assert Grows(x, rules, At(level, s - 1), was, stages[s]);
      forall i: nat, g | i in At(level, s - 1) && i < |rules| && Derives(x, rules[i], k, was, g) ensures g in k {
        forall h | FitsAny(NegativePatterns(rules[i].body), h) ensures h in was <==> h in final {
          if h in final && h !in was {
            HigherHeadsUnseen(rules, level, s - 1, i, h);
          }
        }
        DerivesLocal(x, rules[i], k, was, k, final, g);
        assert i in Before(level, |stages| - 1);
      }
    }
  }

  /** There is no other stable model, finite or infinite: the outcome does not depend on
      which valid stratification was used, nor on the order of rules or triples. */
  lemma StableModelUnique(x: Expressions, rules: seq<Rule>, level: Level, stages: seq<iset<Ground>>, m: iset<Ground>)
    requires Stratified(rules, level) && IsSettledRun(x, rules, level, stages)
    requires EndsAbove(level, stages)
    requires StableModel(x, rules, stages[0], m)
    ensures m == stages[|stages| - 1]
  {
    var top := |stages| - 1;
    ModelFollowsStages(x, rules, level, stages, top, m);
    assert From(level, top) == {};
  }

  /** Up to stratum `s`, a stable model holds the stage reached there, and anything more
      it holds has the shape of a head from stratum `s` up. */
  lemma {:induction false} ModelFollowsStages(x: Expressions, rules: seq<Rule>, level: Level, stages: seq<iset<Ground>>, s: nat, m: iset<Ground>)
    requires Stratified(rules, level) && IsSettledRun(x, rules, level, stages) && s < |stages|
    requires StableModel(x, rules, stages[0], m)
    ensures stages[s] <= m
    ensures forall g :: g in m && g !in stages[s] ==> Produces(rules, From(level, s), g)
  {
    if s > 0 {
      ModelFollowsStages(x, rules, level, stages, s - 1, m);
      ModelHoldsStage(x, rules, level, stages, s, m);
      StagesGrow(x, rules, level, stages, s - 1, s);
    }
    ClosedBefore(x, rules, level, stages, s);
    StagesGrow(x, rules, level, stages, 0, s);
    SupportedIsClosed(x, rules, level, s, stages[s], m);
    assert m <= Supported(rules, level, s, stages[s], m);
  }

  /** The part of a model that is in a stage or could be produced from there on. */
  ghost function Supported(rules: seq<Rule>, level: Level, s: nat, now: iset<Ground>, m: iset<Ground>): iset<Ground> {
    iset g | g in m && (g in now || Produces(rules, From(level, s), g))
  }

  lemma SupportedIsClosed(x: Expressions, rules: seq<Rule>, level: Level, s: nat, now: iset<Ground>, m: iset<Ground>)
    requires Stratified(rules, level) && now <= m && Closed(x, rules, Indices(|rules|), m, m)
    requires Closed(x, rules, Before(level, s), now, now)
    requires s > 0 ==> forall g :: g in m && g !in now ==> Produces(rules, From(level, s - 1), g)
    ensures Closed(x, rules, Indices(|rules|), Supported(rules, level, s, now, m), m)
  {
    var part := Supported(rules, level, s, now, m);
    forall i: nat, g | i in Indices(|rules|) && i < |rules| && Derives(x, rules[i], part, m, g) ensures g in part {
      DerivesLocal(x, rules[i], part, m, m, m, g);
      if level[i] >= s {
        DerivedIsProduced(x, rules, From(level, s), i, part, m, g);
      } else {
        LowRuleSeesStage(x, rules, level, s, now, m, i, g);
        assert i in Before(level, s);
      }
    }
  }

  lemma LowRuleSeesStage(x: Expressions, rules: seq<Rule>, level: Level, s: nat, now: iset<Ground>, m: iset<Ground>, i: nat, g: Ground)
    requires Stratified(rules, level) && now <= m && i < |rules| && level[i] < s
    requires forall h :: h in m && h !in now ==> Produces(rules, From(level, s - 1), h)
    requires Derives(x, rules[i], Supported(rules, level, s, now, m), m, g)
    ensures Derives(x, rules[i], now, now, g)
  {
    var part := Supported(rules, level, s, now, m);
    forall h | h in part && FitsAny(PositivePatterns(rules[i].body), h) ensures h in now {
      if h !in now {
        HigherHeadsUnseen(rules, level, s, i, h);
      }
    }
    forall h | FitsAny(NegativePatterns(rules[i].body), h) ensures h in m <==> h in now {
      if h in m && h !in now {
        HigherHeadsUnseen(rules, level, s - 1, i, h);
      }
    }
    DerivesLocal(x, rules[i], part, m, now, now, g);
  }

  lemma DerivedIsProduced(x: Expressions, rules: seq<Rule>, which: set<nat>, i: nat, facts: iset<Ground>, world: iset<Ground>, g: Ground)
    requires i < |rules| && i in which && Derives(x, rules[i], facts, world, g)
    ensures Produces(rules, which, g)
  {
    var b, k :| Solves(x, facts, world, rules[i].body, map[], b) &&
      0 <= k < |rules[i].head| && Instantiate(rules[i].head[k], b) == Some(g);
    var j: nat := k;
    assert Instantiate(rules[i].head[j], b) == Some(g);
  }

  lemma ModelHoldsStage(x: Expressions, rules: seq<Rule>, level: Level, stages: seq<iset<Ground>>, s: nat, m: iset<Ground>)
    requires Stratified(rules, level) && IsRun(x, rules, level, stages) && 0 < s < |stages|
    requires StableModel(x, rules, stages[0], m)
    requires stages[s - 1] <= m
    requires forall g :: g in m && g !in stages[s - 1] ==> Produces(rules, From(level, s - 1), g)
    ensures stages[s] <= m
  {
    var was := stages[s - 1];
    assert Grows(x, rules, At(level, s - 1), was, stages[s]);
    forall i: nat, g | i in At(level, s - 1) && i < |rules| && Derives(x, rules[i], m, was, g) ensures g in m {
      forall h | FitsAny(NegativePatterns(rules[i].body), h) ensures h in was <==> h in m {
        if h in m && h !in was {
          HigherHeadsUnseen(rules, level, s - 1, i, h);
        }
      }
      DerivesLocal(x, rules[i], m, was, m, m, g);
    }
  }

  // ---------------------------------------------------------------------------
  // Rounds, and the model they converge to
  // ---------------------------------------------------------------------------

  /** What `n` rounds of the rules `which` reach from `start`. */
  ghost function Rounds(x: Expressions, rules: seq<Rule>, which: set<nat>, start: iset<Ground>, n: nat): iset<Ground> {
    if n == 0 then start
    else
      var prev := Rounds(x, rules, which, start, n - 1);
      prev + Consequences(x, rules, which, prev)
  }

  ghost function Consequences(x: Expressions, rules: seq<Rule>, which: set<nat>, facts: iset<Ground>): iset<Ground> {
    iset g | Consequence(x, rules, which, facts, g)
  }

  ghost predicate Consequence(x: Expressions, rules: seq<Rule>, which: set<nat>, facts: iset<Ground>, g: Ground) {
    exists i: nat :: i in which && i < |rules| && Derives(x, rules[i], facts, facts, g)
  }

  lemma RoundsFixed(x: Expressions, rules: seq<Rule>, which: set<nat>, start: iset<Ground>, n: nat, m: nat)
    requires n <= m
    requires Closed(x, rules, which, Rounds(x, rules, which, start, n), Rounds(x, rules, which, start, n))
    ensures Rounds(x, rules, which, start, m) == Rounds(x, rules, which, start, n)
  {
    var f := (k: nat) => Rounds(x, rules, which, start, k);
    ClosedAddsNothing(x, rules, which, f(n));
    forall k: nat | f(k) == f(n) ensures f(k + 1) == f(n) {
      NextRound(x, rules, which, start, k);
    }
    StaysPut(f, n, m);
  }

  lemma NextRound(x: Expressions, rules: seq<Rule>, which: set<nat>, start: iset<Ground>, n: nat)
    ensures Rounds(x, rules, which, start, n + 1) ==
      Rounds(x, rules, which, start, n) + Consequences(x, rules, which, Rounds(x, rules, which, start, n))
  {
  }

  lemma {:induction false} StaysPut(f: nat -> iset<Ground>, n: nat, m: nat)
    requires n <= m && forall k: nat :: f(k) == f(n) ==> f(k + 1) == f(n)
    ensures f(m) == f(n)
    decreases m
  {
    if n < m {
      StaysPut(f, n, m - 1);
      assert f(m - 1 + 1) == f(n);
    }
  }

  lemma {:induction false} Climbs(f: nat -> iset<Ground>, n: nat, m: nat)
    requires n <= m && forall k: nat :: f(k) <= f(k + 1)
    ensures f(n) <= f(m)
    decreases m
  {
    if n < m {
      Climbs(f, n, m - 1);
      assert f(m - 1) <= f(m - 1 + 1);
    }
  }

  lemma ClosedAddsNothing(x: Expressions, rules: seq<Rule>, which: set<nat>, facts: iset<Ground>)
    requires Closed(x, rules, which, facts, facts)
    ensures facts + Consequences(x, rules, which, facts) == facts
  {
  }

  /** What the rules of a stratum derive is forced by every set closed under them when NOT is
      judged at the stratum's start. */
  lemma RoundForced(x: Expressions, rules: seq<Rule>, level: Level, s: nat, start: iset<Ground>, prev: iset<Ground>,
                    k: iset<Ground>, g: Ground)
    requires Stratified(rules, level) && Grows(x, rules, At(level, s), start, prev)
    requires start <= k && Closed(x, rules, At(level, s), k, start) && Consequence(x, rules, At(level, s), prev, g)
    ensures g in k
  {
    var which := At(level, s);
    var i: nat :| i in which && i < |rules| && Derives(x, rules[i], prev, prev, g);
    forall h | FitsAny(NegativePatterns(rules[i].body), h) ensures h in prev <==> h in start {
      if h in prev && h !in start {
        ProducesMonotone(rules, which, From(level, s), h);
        HigherHeadsUnseen(rules, level, s, i, h);
      }
    }
    DerivesLocal(x, rules[i], prev, prev, k, start, g);
  }

  lemma {:induction false} RoundsGrow(x: Expressions, rules: seq<Rule>, level: Level, s: nat, start: iset<Ground>, n: nat)
    requires Stratified(rules, level)
    ensures Grows(x, rules, At(level, s), start, Rounds(x, rules, At(level, s), start, n))
  {
    if n > 0 {
      RoundsGrow(x, rules, level, s, start, n - 1);
      OneRoundGrows(x, rules, level, s, start, Rounds(x, rules, At(level, s), start, n - 1));
    }
  }

  lemma OneRoundGrows(x: Expressions, rules: seq<Rule>, level: Level, s: nat, start: iset<Ground>, prev: iset<Ground>)
    requires Stratified(rules, level) && Grows(x, rules, At(level, s), start, prev)
    ensures Grows(x, rules, At(level, s), start, prev + Consequences(x, rules, At(level, s), prev))
  {
    var which := At(level, s);
    forall g | Consequence(x, rules, which, prev, g) ensures Produces(rules, which, g) {
      var i: nat :| i in which && i < |rules| && Derives(x, rules[i], prev, prev, g);
      DerivedIsProduced(x, rules, which, i, prev, prev, g);
    }
    forall k, g | start <= k && Closed(x, rules, which, k, start) && Consequence(x, rules, which, prev, g) ensures g in k {
      RoundForced(x, rules, level, s, start, prev, k, g);
    }
  }

  lemma RoundsMonotone(x: Expressions, rules: seq<Rule>, which: set<nat>, start: iset<Ground>, n: nat, m: nat)
    requires n <= m
    ensures Rounds(x, rules, which, start, n) <= Rounds(x, rules, which, start, m)
  {
    var f := (k: nat) => Rounds(x, rules, which, start, k);
    forall k: nat ensures f(k) <= f(k + 1) {
      NextRound(x, rules, which, start, k);
    }
    Climbs(f, n, m);
  }

  /** Everything some number of rounds reaches. With BIND this may be infinite. */
  ghost function Limit(x: Expressions, rules: seq<Rule>, which: set<nat>, start: iset<Ground>): iset<Ground> {
    iset g | Reached(x, rules, which, start, g)
  }

  ghost predicate Reached(x: Expressions, rules: seq<Rule>, which: set<nat>, start: iset<Ground>, g: Ground) {
    exists n: nat :: g in Rounds(x, rules, which, start, n)
  }

  /** A solution in the limit uses finitely many triples, so some round already has it. */
  lemma {:induction false} SolvedAtSomeRound(x: Expressions, rules: seq<Rule>, which: set<nat>, start: iset<Ground>,
                                             world: iset<Ground>, es: seq<Element>, b: Binding, r: Binding) returns (n: nat)
    requires Solves(x, Limit(x, rules, which, start), world, es, b, r) && NoNestedNot(es)
    ensures Solves(x, Rounds(x, rules, which, start, n), world, es, b, r)
    decreases es
  {
    if es == [] {
      return 0;
    }
    var rest := es[1..];
    assert NoNestedNot(rest) by {
      forall i, j | 0 <= i < |rest| && rest[i].Not? && 0 <= j < |rest[i].body| ensures !rest[i].body[j].Not? {
        assert rest[i] == es[i + 1];
      }
    }
    match es[0] {
      case Match(p) =>
        var g :| g in Limit(x, rules, which, start) && MatchGround(p, g, b).Some? &&
          Solves(x, Limit(x, rules, which, start), world, rest, MatchGround(p, g, b).value, r);
        var n0: nat :| g in Rounds(x, rules, which, start, n0);
        var n1 := SolvedAtSomeRound(x, rules, which, start, world, rest, MatchGround(p, g, b).value, r);
        n := if n0 < n1 then n1 else n0;
        RoundsMonotone(x, rules, which, start, n0, n);
        RoundsMonotone(x, rules, which, start, n1, n);
        SolvesLocal(x, Rounds(x, rules, which, start, n1), world, Rounds(x, rules, which, start, n), world,
          rest, MatchGround(p, g, b).value, r);
      case Filter(e) =>
        n := SolvedAtSomeRound(x, rules, which, start, world, rest, b, r);
      case Not(body) =>
        n := SolvedAtSomeRound(x, rules, which, start, world, rest, b, r);
      case Bind(e, v) =>
        n := SolvedAtSomeRound(x, rules, which, start, world, rest, b[v := x.bind(e, b)], r);
    }
  }

  lemma LimitGrows(x: Expressions, rules: seq<Rule>, level: Level, s: nat, start: iset<Ground>)
    requires Stratified(rules, level)
    ensures Grows(x, rules, At(level, s), start, Limit(x, rules, At(level, s), start))
  {
    var which := At(level, s);
    assert Rounds(x, rules, which, start, 0) == start;
    forall n: nat ensures Grows(x, rules, which, start, Rounds(x, rules, which, start, n)) {
      RoundsGrow(x, rules, level, s, start, n);
    }
  }

  lemma LimitClosed(x: Expressions, rules: seq<Rule>, level: Level, s: nat, start: iset<Ground>)
    requires Stratified(rules, level)
    ensures var end := Limit(x, rules, At(level, s), start); Closed(x, rules, At(level, s), end, end)
  {
    var which := At(level, s);
    var end := Limit(x, rules, which, start);
    LimitGrows(x, rules, level, s, start);
    forall i: nat, g | i in which && i < |rules| && Derives(x, rules[i], end, end, g) ensures g in end {
      var b, k :| Solves(x, end, end, rules[i].body, map[], b) &&
        0 <= k < |rules[i].head| && Instantiate(rules[i].head[k], b) == Some(g);
      var n := SolvedAtSomeRound(x, rules, which, start, end, rules[i].body, map[], b);
      var prev := Rounds(x, rules, which, start, n);
      RoundsGrow(x, rules, level, s, start, n);
      forall h | FitsAny(NegativePatterns(rules[i].body), h) ensures h in end <==> h in prev {
        if h in end && h !in prev {
          ProducesMonotone(rules, which, From(level, s), h);
          HigherHeadsUnseen(rules, level, s, i, h);
        }
      }
      SolvesLocal(x, prev, end, prev, prev, rules[i].body, map[], b);
      assert Derives(x, rules[i], prev, prev, g);
      assert g in Consequences(x, rules, which, prev);
      assert g in Rounds(x, rules, which, start, n + 1);
    }
  }

  /** The stratum boundaries of the ideal run, in which no stratum is cut short. */
  ghost function IdealRun(x: Expressions, rules: seq<Rule>, level: Level, data: iset<Ground>, top: nat): (stages: seq<iset<Ground>>)
    ensures |stages| == top + 1 && stages[0] == data
  {
    if top == 0 then [data]
    else
      var before := IdealRun(x, rules, level, data, top - 1);
      before + [Limit(x, rules, At(level, top - 1), before[top - 1])]
  }

  lemma OneMoreStage(x: Expressions, rules: seq<Rule>, level: Level, stages: seq<iset<Ground>>, end: iset<Ground>)
    requires IsSettledRun(x, rules, level, stages)
    requires Grows(x, rules, At(level, |stages| - 1), stages[|stages| - 1], end) && Closed(x, rules, At(level, |stages| - 1), end, end)
    ensures IsSettledRun(x, rules, level, stages + [end])
  {
    var longer := stages + [end];
    forall s | 0 <= s < |longer| - 1
      ensures Grows(x, rules, At(level, s), longer[s], longer[s + 1]) && Closed(x, rules, At(level, s), longer[s + 1], longer[s + 1])
    {
      if s < |stages| - 1 {
        assert Grows(x, rules, At(level, s), stages[s], stages[s + 1]);
        assert Closed(x, rules, At(level, s), stages[s + 1], stages[s + 1]);
      }
    }
  }

  lemma {:induction false} IdealRunSettles(x: Expressions, rules: seq<Rule>, level: Level, data: iset<Ground>, top: nat)
    requires Stratified(rules, level)
    ensures IsSettledRun(x, rules, level, IdealRun(x, rules, level, data, top))
  {
    if top > 0 {
      IdealRunSettles(x, rules, level, data, top - 1);
      var before := IdealRun(x, rules, level, data, top - 1);
      LimitStage(x, rules, level, before, top - 1);
    }
  }

  lemma LimitStage(x: Expressions, rules: seq<Rule>, level: Level, before: seq<iset<Ground>>, s: nat)
    requires Stratified(rules, level) && IsSettledRun(x, rules, level, before) && |before| == s + 1
    ensures IsSettledRun(x, rules, level, before + [Limit(x, rules, At(level, s), before[s])])
  {
    LimitGrows(x, rules, level, s, before[s]);
    LimitClosed(x, rules, level, s, before[s]);
    OneMoreStage(x, rules, level, before, Limit(x, rules, At(level, s), before[s]));
  }

  ghost function Top(level: Level): (top: nat)
    ensures forall i :: 0 <= i < |level| ==> level[i] < top
  {
    if level == [] then 0
    else
      var rest := Top(level[1..]);
      assert forall i :: 1 <= i < |level| ==> level[i] == level[1..][i - 1];
      if level[0] < rest then rest else level[0] + 1
  }

  /** Every stratifiable rule set has exactly one stable model over any data. */
  lemma UniqueStableModel(x: Expressions, rules: seq<Rule>, level: Level, data: iset<Ground>) returns (m: iset<Ground>)
    requires Stratified(rules, level)
    ensures StableModel(x, rules, data, m)
    ensures forall other :: StableModel(x, rules, data, other) ==> other == m
  {
    var stages := IdealRun(x, rules, level, data, Top(level));
    IdealRunSettles(x, rules, level, data, Top(level));
    SettledRunIsStable(x, rules, level, stages);
    m := stages[|stages| - 1];
    forall other | StableModel(x, rules, data, other) ensures other == m {
      StableModelUnique(x, rules, level, stages, other);
    }
  }
}
