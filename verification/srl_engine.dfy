/** The SRL engine: stratify the rules, then run each stratum to its fixed point over
    one growing set of triples (shacl/srl_eval.go, shacl/srl_stratify.go). */
module SrlEngine {
  import opened Common
  import opened Stratification
  import opened SrlRules
  import opened SrlModels
  import opened SrlBounds
  import opened SrlLayers

  /** `evalStratum` gives up silently after this many rounds. */
  const MAX_ROUNDS: nat := 1000

  ghost function Lift(triples: set<Ground>): iset<Ground> {
    iset g | g in triples
  }

  // ---------------------------------------------------------------------------
  // Stratify
  // ---------------------------------------------------------------------------

  /** The rules of stratum `s` among the first `n`, in rule order. */
  function Members(level: Level, s: nat, n: nat): (r: seq<nat>)
    requires n <= |level|
    ensures forall i: nat :: i in r <==> i < n && level[i] == s
  {
    if n == 0 then [] else Members(level, s, n - 1) + (if level[n - 1] == s then [n - 1] else [])
  }

  method BuildDeps(rules: seq<Rule>) returns (deps: Deps)
    ensures deps == DepsOf(rules)
  {
    deps := [];
    for b := 0 to |rules|
      invariant |deps| == b
      invariant forall c :: 0 <= c < b ==> deps[c] == EdgesOf(rules, rules[c], |rules|)
    {
      var positive, negated := PositivePatterns(rules[b].body), NegativePatterns(rules[b].body);
      var edges := [];
      for a := 0 to |rules|
        invariant edges == EdgesOf(rules, rules[b], a)
      {
        if PatternsOverlap(rules[a].head, positive) {
          edges := edges + [Edge(a, false)];
        }
        if PatternsCouldMatch(rules[a].head, negated) {
          edges := edges + [Edge(a, true)];
        }
      }
      deps := deps + [edges];
    }
  }

  /** Strata as lists of rule indices; None is the "not stratifiable" error. */
  method Stratify(rules: seq<Rule>) returns (strata: Option<seq<seq<nat>>>)
    ensures WellFormed(DepsOf(rules))
    ensures match Levels(DepsOf(rules))
      case NotStratifiable => strata == None
      case Accepted(level) => strata.Some? && GroupsLevels(strata.value, level)
  {
    DepsOfWellFormed(rules);
    if rules == [] {
      return Some([]);
    }
    var deps := BuildDeps(rules);
    var outcome := AssignLevels(deps);
    if outcome.NotStratifiable? {
      return None;
    }
    var result := GroupRules(outcome.level);
    strata := Some(result);
  }

  /** The rules of each level, up to the highest. */
  method GroupRules(level: Level) returns (result: seq<seq<nat>>)
    ensures GroupsLevels(result, level)
  {
    var maxStratum := 0;
    for i := 0 to |level|
      invariant forall c :: 0 <= c < i ==> level[c] <= maxStratum
    {
      if level[i] > maxStratum {
        maxStratum := level[i];
      }
    }
    result := seq(maxStratum + 1, _ => []);
    for i := 0 to |level|
      invariant |result| == maxStratum + 1
      invariant forall s :: 0 <= s < |result| ==> result[s] == Members(level, s, i)
    {
      result := result[level[i] := result[level[i]] + [i]];
    }
  }

  // ---------------------------------------------------------------------------
  // The engine
  // ---------------------------------------------------------------------------

  class Engine {
    const x: Expressions
    var triples: set<Ground>

    constructor (x: Expressions)
      ensures this.x == x && triples == {}
    {
      this.x := x;
      triples := {};
    }

    /** All bindings that satisfy `es` from `b` in the current triples. */
    method MatchElements(es: seq<Element>, b: Binding) returns (results: seq<Binding>)
      ensures forall r :: r in results <==> Solves(x, Lift(triples), Lift(triples), es, b, r)
      decreases es
    {
      if es == [] {
        return [b];
      }
      match es[0] {
        case Match(p) =>
          results := [];
          var todo := triples;
          while todo != {}
            invariant todo <= triples
            invariant forall r :: r in results <==>
              exists g :: g in triples - todo && MatchGround(p, g, b).Some? &&
                          Solves(x, Lift(triples), Lift(triples), es[1..], MatchGround(p, g, b).value, r)
            decreases |todo|
          {
            var g :| g in todo;
            var m := MatchGround(p, g, b);
            if m.Some? {
              var more := MatchElements(es[1..], m.value);
              results := results + more;
            }
            todo := todo - {g};
          }
        case Filter(e) =>
          if x.filter(e, b) {
            results := MatchElements(es[1..], b);
          } else {
            results := [];
          }
        case Not(body) =>
          var inner := MatchElements(body, b);
          if |inner| == 0 {
            results := MatchElements(es[1..], b);
          } else {
            assert inner[0] in inner;
            results := [];
          }
        case Bind(e, v) =>
          results := MatchElements(es[1..], b[v := x.bind(e, b)]);
      }
    }

    /** The head triples of one rule that are not known yet. */
    method ApplyRule(rule: Rule) returns (news: set<Ground>)
      ensures forall g :: g in news <==> g !in triples && Derives(x, rule, Lift(triples), Lift(triples), g)
    {
      news := {};
      var bindings := MatchElements(rule.body, map[]);
      for n := 0 to |bindings|
        invariant forall g :: g in news <==> g !in triples && HeadsUnder(rule, bindings[..n], g)
      {
        ghost var before := news;
        for k := 0 to |rule.head|
          invariant forall g :: g in news <==>
            g in before || (g !in triples && HeadUnder(rule, k, bindings[n], g))
        {
          var g := Instantiate(rule.head[k], bindings[n]);
          if g.Some? && g.value !in triples {
            news := news + {g.value};
          }
        }
        assert bindings[..n + 1] == bindings[..n] + [bindings[n]];
      }
      assert bindings[..|bindings|] == bindings;
    }

    /** The triples one round of the given rules adds, all rules seeing the same triples. */
    method Round(rules: seq<Rule>, stratum: seq<nat>) returns (newTriples: set<Ground>)
      requires forall j :: 0 <= j < |stratum| ==> stratum[j] < |rules|
      ensures forall g :: g in newTriples <==>
        g !in triples && Consequence(x, rules, Rules(stratum), Lift(triples), g)
    {
      newTriples := {};
      for j := 0 to |stratum|
        invariant forall g :: g in newTriples <==>
          g !in triples && exists c :: 0 <= c < j && Derives(x, rules[stratum[c]], Lift(triples), Lift(triples), g)
      {
        var news := ApplyRule(rules[stratum[j]]);
        newTriples := newTriples + news;
      }
      forall g | g !in triples && Consequence(x, rules, Rules(stratum), Lift(triples), g) ensures g in newTriples {
        var i: nat :| i in Rules(stratum) && i < |rules| && Derives(x, rules[i], Lift(triples), Lift(triples), g);
        var c :| 0 <= c < |stratum| && stratum[c] == i;
        assert Derives(x, rules[stratum[c]], Lift(triples), Lift(triples), g);
      }
    }

    /** Rounds until one adds nothing, but at most MAX_ROUNDS of them. `quiet` tells that the last
        of them added nothing. */
    method EvalStratum(rules: seq<Rule>, stratum: seq<nat>) returns (ghost quiet: bool)
      requires forall j :: 0 <= j < |stratum| ==> stratum[j] < |rules|
      modifies this`triples
      ensures Lift(triples) == Rounds(x, rules, Rules(stratum), Lift(old(triples)), MAX_ROUNDS)
      ensures quiet ==> Closed(x, rules, Rules(stratum), Lift(triples), Lift(triples))
      ensures old(triples) <= triples
    {
      ghost var which := Rules(stratum);
      ghost var start := Lift(triples);
      quiet := false;
      for iter := 0 to MAX_ROUNDS
        invariant Lift(triples) == Rounds(x, rules, which, start, iter) && !quiet && old(triples) <= triples
      {
        var newTriples := Round(rules, stratum);
        if newTriples == {} {
          QuietRound(x, rules, which, start, iter, triples);
          quiet := true;
          break;
        }
        OneRoundMore(x, rules, which, start, iter, triples, newTriples);
        triples := triples + newTriples;
      }
    }

    /** The data graph and the DATA blocks. */
    method Load(dataGraph: set<Ground>, dataBlocks: seq<seq<Pattern>>)
      modifies this`triples
      ensures triples == dataGraph + BlockTriples(dataBlocks)
    {
      triples := dataGraph;
      for n := 0 to |dataBlocks|
        invariant triples == dataGraph + BlockTriples(dataBlocks[..n])
      {
        ghost var loaded := triples;
        for k := 0 to |dataBlocks[n]|
          invariant triples == loaded + PatternKeys(dataBlocks[n][..k])
        {
          triples := triples + {KeyTriple(dataBlocks[n][k])};
          assert dataBlocks[n][..k + 1] == dataBlocks[n][..k] + [dataBlocks[n][k]];
        }
        assert dataBlocks[n][..|dataBlocks[n]|] == dataBlocks[n];
        assert dataBlocks[..n + 1] == dataBlocks[..n] + [dataBlocks[n]];
      }
      assert dataBlocks[..|dataBlocks|] == dataBlocks;
    }

    /** The strata in order; `uncut` tells that each of them ended with a round that added
        nothing. */
    method EvalStrata(rules: seq<Rule>, strata: seq<seq<nat>>, ghost level: Level) returns (ghost uncut: bool)
      requires |level| == |rules| && GroupsLevels(strata, level)
      modifies this`triples
      ensures Lift(triples) == CappedRun(x, rules, level, Lift(old(triples)), Top(level)) && old(triples) <= triples
      ensures uncut ==> Uncut(x, rules, level, Lift(old(triples)), Top(level))
    {
      ghost var start := Lift(triples);
      uncut := true;
      for s := 0 to |strata|
        invariant Lift(triples) == CappedRun(x, rules, level, start, s) && old(triples) <= triples
        invariant uncut ==> Uncut(x, rules, level, start, s)
      {
        StratumRules(strata, level, s);
        if strata[s] == [] {
          assert At(level, s) == {};
          RoundsFixed(x, rules, {}, Lift(triples), 0, MAX_ROUNDS);
        } else {
          ghost var quiet := EvalStratum(rules, strata[s]);
          uncut := uncut && quiet;
        }
      }
      RunsAgreePastTop(x, rules, level, start, |strata|);
      TopIsLeast(level, |strata|);
    }

    /** The whole evaluation: load the data, stratify, run the strata in order, and return
        what was added to the data graph. None is the stratification error. For rules the
        analysis can read and no cycle through NOT, the result is the one stable model of the
        rules over the data exactly when it is closed; it is when no stratum was cut off, and
        that is sure before the call for rules that do not feed themselves and for rules without
        BIND over few enough keys. */
    method Evaluate(rules: seq<Rule>, dataGraph: set<Ground>, dataBlocks: seq<seq<Pattern>>)
      returns (inferred: Option<set<Ground>>, ghost uncut: bool)
      modifies this`triples
      ensures WellFormed(DepsOf(rules))
      ensures inferred.None? <==> Levels(DepsOf(rules)).NotStratifiable?
      ensures inferred.Some? ==>
        var level := Levels(DepsOf(rules)).level;
        Lift(triples) == CappedRun(x, rules, level, Lift(dataGraph + BlockTriples(dataBlocks)), Top(level)) &&
        inferred.value == triples - dataGraph && dataGraph + BlockTriples(dataBlocks) <= triples
      ensures !HasNotCycle(DepsOf(rules)) && AllAnalysable(rules) ==> inferred.Some?
      ensures !HasNotCycle(DepsOf(rules)) && AllAnalysable(rules) ==>
        var data, model := dataGraph + BlockTriples(dataBlocks), Lift(dataGraph + inferred.value);
        (Closed(x, rules, Indices(|rules|), model, model) <==> OnlyStableModel(x, rules, Lift(data), model)) &&
        (uncut || SurelySettles(rules, data) ==> OnlyStableModel(x, rules, Lift(data), model))
    {
      Load(dataGraph, dataBlocks);
      uncut := false;
      ghost var start := triples;
      var strata := Stratify(rules);
      LevelsCorrectIffNoNotCycle(DepsOf(rules));
      if strata.None? {
        return None, false;
      }
      ghost var level := Levels(DepsOf(rules)).level;
      uncut := EvalStrata(rules, strata.value, level);
      inferred := Some(triples - dataGraph);
      assert dataGraph + inferred.value == triples;
      if !HasNotCycle(DepsOf(rules)) && AllAnalysable(rules) {
        RunIsModel(x, rules, level, start, uncut);
      }
    }
  }

  /** The only stable model of the rules over the data. */
  ghost predicate OnlyStableModel(x: Expressions, rules: seq<Rule>, data: iset<Ground>, model: iset<Ground>) {
    StableModel(x, rules, data, model) && forall other :: StableModel(x, rules, data, other) ==> other == model
  }

  /** No rule feeds itself and there are at most MAX_ROUNDS of them, or they have no BIND and at
      most MAX_ROUNDS of the triples over the keys of data and heads are missing from the data. */
  ghost predicate SurelySettles(rules: seq<Rule>, data: set<Ground>) {
    (NonRecursive(rules) && |rules| <= MAX_ROUNDS) ||
    (BindFree(rules) && Cube(|KeysOf(rules, data)|) <= |data| + MAX_ROUNDS)
  }

  /** The strata list every rule under its level, in rule order. */
  ghost predicate GroupsLevels(strata: seq<seq<nat>>, level: Level) {
    (forall i :: 0 <= i < |level| ==> level[i] < |strata|) &&
    forall s :: 0 <= s < |strata| ==> strata[s] == Members(level, s, |level|)
  }

  lemma StratumRules(strata: seq<seq<nat>>, level: Level, s: nat)
    requires GroupsLevels(strata, level) && s < |strata|
    ensures Rules(strata[s]) == At(level, s) && forall j :: 0 <= j < |strata[s]| ==> strata[s][j] < |level|
  {
    forall j | 0 <= j < |strata[s]| ensures strata[s][j] < |level| {
      assert strata[s][j] in Members(level, s, |level|);
    }
  }

  lemma NothingNewIsClosed(x: Expressions, rules: seq<Rule>, which: set<nat>, triples: set<Ground>)
    requires forall g :: g !in triples ==> !Consequence(x, rules, which, Lift(triples), g)
    ensures Closed(x, rules, which, Lift(triples), Lift(triples))
  {
    forall i: nat, g | i in which && i < |rules| && Derives(x, rules[i], Lift(triples), Lift(triples), g) ensures g in Lift(triples) {
      assert Consequence(x, rules, which, Lift(triples), g);
    }
  }

  /** A round that adds nothing is as good as all that would follow. */
  lemma QuietRound(x: Expressions, rules: seq<Rule>, which: set<nat>, start: iset<Ground>, iter: nat, triples: set<Ground>)
    requires Lift(triples) == Rounds(x, rules, which, start, iter) && iter <= MAX_ROUNDS
    requires forall g :: g !in triples ==> !Consequence(x, rules, which, Lift(triples), g)
    ensures Closed(x, rules, which, Lift(triples), Lift(triples)) && Lift(triples) == Rounds(x, rules, which, start, MAX_ROUNDS)
  {
    NothingNewIsClosed(x, rules, which, triples);
    RoundsFixed(x, rules, which, start, iter, MAX_ROUNDS);
  }

  lemma OneRoundMore(x: Expressions, rules: seq<Rule>, which: set<nat>, start: iset<Ground>, iter: nat, triples: set<Ground>, news: set<Ground>)
    requires Lift(triples) == Rounds(x, rules, which, start, iter)
    requires forall g :: g in news <==> g !in triples && Consequence(x, rules, which, Lift(triples), g)
    ensures Lift(triples + news) == Rounds(x, rules, which, start, iter + 1)
  {
    NextRound(x, rules, which, start, iter);
    assert Lift(triples + news) == Lift(triples) + Consequences(x, rules, which, Lift(triples));
  }

  ghost function Rules(stratum: seq<nat>): set<nat> {
    set i | i in stratum
  }

  ghost predicate HeadUnder(rule: Rule, k: nat, b: Binding, g: Ground)
    requires k <= |rule.head|
  {
    exists j :: 0 <= j < k && Instantiate(rule.head[j], b) == Some(g)
  }

  ghost predicate HeadsUnder(rule: Rule, bindings: seq<Binding>, g: Ground) {
    exists b :: b in bindings && HeadUnder(rule, |rule.head|, b, g)
  }

  function KeyTriple(p: Pattern): Ground {
    Ground(TermKey(p.s), TermKey(p.p), TermKey(p.o))
  }

  function PatternKeys(ps: seq<Pattern>): set<Ground> {
    if ps == [] then {} else PatternKeys(ps[..|ps| - 1]) + {KeyTriple(ps[|ps| - 1])}
  }

  function BlockTriples(blocks: seq<seq<Pattern>>): set<Ground> {
    if blocks == [] then {} else BlockTriples(blocks[..|blocks| - 1]) + PatternKeys(blocks[|blocks| - 1])
  }

  ghost predicate AllAnalysable(rules: seq<Rule>) {
    forall i :: 0 <= i < |rules| ==> Analysable(rules[i])
  }

  // ---------------------------------------------------------------------------
  // The run the engine makes
  // ---------------------------------------------------------------------------

  /** The triples after the strata below `s`, each given up after MAX_ROUNDS. */
  ghost function CappedRun(x: Expressions, rules: seq<Rule>, level: Level, data: iset<Ground>, s: nat): iset<Ground> {
    if s == 0 then data
    else Rounds(x, rules, At(level, s - 1), CappedRun(x, rules, level, data, s - 1), MAX_ROUNDS)
  }

  lemma NextStratum(x: Expressions, rules: seq<Rule>, level: Level, data: iset<Ground>, s: nat)
    ensures CappedRun(x, rules, level, data, s + 1) == Rounds(x, rules, At(level, s), CappedRun(x, rules, level, data, s), MAX_ROUNDS)
  {
  }

  lemma {:induction false} RunsAgreePastTop(x: Expressions, rules: seq<Rule>, level: Level, data: iset<Ground>, s: nat)
    requires forall i :: 0 <= i < |level| ==> level[i] < s
    ensures CappedRun(x, rules, level, data, s) == CappedRun(x, rules, level, data, Top(level))
    decreases s
  {
    TopIsLeast(level, s);
    if Top(level) < s {
      assert At(level, s - 1) == {};
      RunsAgreePastTop(x, rules, level, data, s - 1);
      RoundsFixed(x, rules, {}, CappedRun(x, rules, level, data, s - 1), 0, MAX_ROUNDS);
    }
  }

  lemma {:induction false} TopIsLeast(level: Level, s: nat)
    requires forall i :: 0 <= i < |level| ==> level[i] < s
    ensures Top(level) <= s
  {
    if level != [] {
      TopIsLeast(level[1..], s);
    }
  }

  ghost function Boundaries(x: Expressions, rules: seq<Rule>, level: Level, data: iset<Ground>): (stages: seq<iset<Ground>>)
    ensures |stages| == Top(level) + 1 && stages[0] == data
    ensures stages[Top(level)] == CappedRun(x, rules, level, data, Top(level))
  {
    seq(Top(level) + 1, s requires 0 <= s < Top(level) + 1 => CappedRun(x, rules, level, data, s))
  }

  lemma CappedRunIsRun(x: Expressions, rules: seq<Rule>, level: Level, data: iset<Ground>)
    requires Stratified(rules, level)
    ensures IsRun(x, rules, level, Boundaries(x, rules, level, data))
  {
    var stages := Boundaries(x, rules, level, data);
    forall s | 0 <= s < |stages| - 1 ensures Grows(x, rules, At(level, s), stages[s], stages[s + 1]) {
      var n: nat := s;
      StratumGrows(x, rules, level, data, n);
      assert stages[n] == CappedRun(x, rules, level, data, n) && stages[n + 1] == CappedRun(x, rules, level, data, n + 1);
    }
  }

  lemma StratumGrows(x: Expressions, rules: seq<Rule>, level: Level, data: iset<Ground>, s: nat)
    requires Stratified(rules, level)
    ensures Grows(x, rules, At(level, s), CappedRun(x, rules, level, data, s), CappedRun(x, rules, level, data, s + 1))
  {
    NextStratum(x, rules, level, data, s);
    RoundsGrow(x, rules, level, s, CappedRun(x, rules, level, data, s), MAX_ROUNDS);
  }

  /** Every stratum below `s` ended closed under its own rules. */
  ghost predicate Uncut(x: Expressions, rules: seq<Rule>, level: Level, data: iset<Ground>, s: nat) {
    forall r: nat :: r < s ==> StratumClosed(x, rules, level, data, r)
  }

  ghost predicate StratumClosed(x: Expressions, rules: seq<Rule>, level: Level, data: iset<Ground>, s: nat) {
    var end := CappedRun(x, rules, level, data, s + 1); Closed(x, rules, At(level, s), end, end)
  }

  /** The engine's result is the stable model exactly when it is closed under the rules. */
  lemma CappedRunCorrect(x: Expressions, rules: seq<Rule>, level: Level, data: iset<Ground>)
    requires Stratified(rules, level)
    ensures var final := CappedRun(x, rules, level, data, Top(level));
      Closed(x, rules, Indices(|rules|), final, final) <==> OnlyStableModel(x, rules, data, final)
  {
    CappedRunIsRun(x, rules, level, data);
    FinalSetStableIffClosed(x, rules, level, Boundaries(x, rules, level, data));
    var m := UniqueStableModel(x, rules, level, data);
  }

  /** It is closed whenever no stratum was cut off: each of its rules found nothing new in
      the set the stratum ended with. */
  lemma UncutRunIsClosed(x: Expressions, rules: seq<Rule>, level: Level, data: iset<Ground>)
    requires Stratified(rules, level) && Uncut(x, rules, level, data, Top(level))
    ensures var final := CappedRun(x, rules, level, data, Top(level)); Closed(x, rules, Indices(|rules|), final, final)
  {
    var stages := Boundaries(x, rules, level, data);
    CappedRunIsRun(x, rules, level, data);
    forall s | 0 <= s < |stages| - 1 ensures Closed(x, rules, At(level, s), stages[s + 1], stages[s + 1]) {
      var n: nat := s;
      assert StratumClosed(x, rules, level, data, n);
    }
    assert Indices(|rules|) == Before(level, Top(level));
    ClosedBefore(x, rules, level, stages, Top(level));
  }

  /** No stratum is cut off while the rules stay over keys with few enough triples. */
  lemma ConfinedRunIsUncut(x: Expressions, rules: seq<Rule>, level: Level, data: set<Ground>, keys: set<string>, s: nat)
    requires RulesStay(x, rules, keys) && (forall g :: g in data ==> IsOver(g, keys)) && Cube(|keys|) <= |data| + MAX_ROUNDS
    ensures Uncut(x, rules, level, Lift(data), s)
  {
    forall r: nat | r < s ensures StratumClosed(x, rules, level, Lift(data), r) {
      var start := CappedRun(x, rules, level, Lift(data), r);
      CappedRunOver(x, rules, level, data, keys, r);
      var finite := set g | g in Block(keys, keys, keys) && g in start;
      forall g ensures g in start <==> g in finite {
        assert g == Ground(g.s, g.p, g.o);
      }
      assert start == iset g | g in finite;
      SubsetSize(data, finite);
      EnoughRounds(x, rules, At(level, r), finite, MAX_ROUNDS, keys);
    }
  }

  /** Nor while no rule feeds itself, over any data and with BIND. */
  lemma LayeredRunIsUncut(x: Expressions, rules: seq<Rule>, level: Level, data: iset<Ground>, s: nat)
    requires Stratified(rules, level) && NonRecursive(rules) && |rules| <= MAX_ROUNDS
    ensures Uncut(x, rules, level, data, s)
  {
    var rank := NonRecursiveLayers(rules);
    forall r: nat | r < s ensures StratumClosed(x, rules, level, data, r) {
      LayersSettle(x, rules, level, r, CappedRun(x, rules, level, data, r), rank, MAX_ROUNDS);
    }
  }

  lemma {:induction false} CappedRunOver(x: Expressions, rules: seq<Rule>, level: Level, data: set<Ground>, keys: set<string>, s: nat)
    requires RulesStay(x, rules, keys) && forall g :: g in data ==> IsOver(g, keys)
    ensures AllOver(CappedRun(x, rules, level, Lift(data), s), keys)
    ensures forall g :: g in data ==> g in CappedRun(x, rules, level, Lift(data), s)
  {
    if s > 0 {
      CappedRunOver(x, rules, level, data, keys, s - 1);
      var start := CappedRun(x, rules, level, Lift(data), s - 1);
      RoundsOver(x, rules, At(level, s - 1), start, MAX_ROUNDS, keys);
      RoundsMonotone(x, rules, At(level, s - 1), start, 0, MAX_ROUNDS);
    }
  }

  lemma RunIsModel(x: Expressions, rules: seq<Rule>, level: Level, data: set<Ground>, uncut: bool)
    requires Stratified(rules, level) && (uncut ==> Uncut(x, rules, level, Lift(data), Top(level)))
    ensures var final := CappedRun(x, rules, level, Lift(data), Top(level));
      (Closed(x, rules, Indices(|rules|), final, final) <==> OnlyStableModel(x, rules, Lift(data), final)) &&
      (uncut || SurelySettles(rules, data) ==> OnlyStableModel(x, rules, Lift(data), final))
  {
    CappedRunCorrect(x, rules, level, Lift(data));
    if NonRecursive(rules) && |rules| <= MAX_ROUNDS {
      LayeredRunIsUncut(x, rules, level, Lift(data), Top(level));
    } else if SurelySettles(rules, data) {
      BindFreeStays(x, rules, data);
      ConfinedRunIsUncut(x, rules, level, data, KeysOf(rules, data), Top(level));
    }
    if uncut || SurelySettles(rules, data) {
      UncutRunIsClosed(x, rules, level, Lift(data));
    }
  }
}
