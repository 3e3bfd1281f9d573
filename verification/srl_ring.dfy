/** Four rules in a ring with one NOT: stratification accepts them, and the engine returns a
    set that its own rules contradict. */
module SrlRing {
  import opened Common
  import opened Stratification
  import opened SrlRules
  import opened SrlModels
  import opened SrlEngine

  function Along(predicateIri: string): Pattern {
    Pattern(Variable("x"), Iri(predicateIri), Variable("y"))
  }

  function Copy(src: string, dst: string): Rule {
    Rule([Along(dst)], [Match(Along(src))])
  }

  function Guarded(src: string, unless: string, dst: string): Rule {
    Rule([Along(dst)], [Match(Along(src)), Not([Match(Along(unless))])])
  }

  /** p0 from d and NOT p1; p1 from p2; p2 from p3; p3 from p0. */
  function RingRules(): seq<Rule> {
    [Guarded("d", "p1", "p0"), Copy("p2", "p1"), Copy("p3", "p2"), Copy("p0", "p3")]
  }

  function Key(name: string): string {
    "<" + name + ">"
  }

  function Fact(name: string): Ground {
    Ground("<a>", Key(name), "<a>")
  }

  /** Different names of these rules. */
  predicate Differ(a: string, b: string) {
    |a| != |b| || (|a| > 0 && a[|a| - 1] != b[|b| - 1])
  }

  lemma KeysDiffer(a: string, b: string)
    requires Differ(a, b)
    ensures Key(a) != Key(b) && a != b
  {
    if |a| == |b| {
      assert Key(a)[|a|] == a[|a| - 1] && Key(b)[|b|] == b[|b| - 1];
    } else {
      assert |Key(a)| == |a| + 2 && |Key(b)| == |b| + 2;
    }
  }

  // ---------------------------------------------------------------------------
  // Its dependencies
  // ---------------------------------------------------------------------------

  lemma OverlapIsEquality(src: string, dst: string)
    requires src != "" && dst != "" && src != "?var" && dst != "?var"
    ensures PatternsOverlap([Along(dst)], [Along(src)]) <==> src == dst
  {
    var head, body := [Along(dst)], [Along(src)];
    assert PredicateIri(head[0]) == dst && PredicateIri(body[0]) == src;
  }

  lemma CouldMatchIsEquality(src: string, dst: string)
    ensures PatternsCouldMatch([Along(dst)], [Along(src)]) <==> Key(src) == Key(dst)
  {
    var head, body := [Along(dst)], [Along(src)];
    if Key(src) == Key(dst) {
      assert PatternCouldMatch(head[0], body[0]);
    }
  }

  /** Rule `i` overlaps in this polarity if it is `j`, and in no other way. */
  ghost predicate OnlyAt(rules: seq<Rule>, rule: Rule, i: nat, j: nat, negative: bool)
    requires i < |rules|
  {
    (PatternsOverlap(rules[i].head, PositivePatterns(rule.body)) <==> !negative && i == j) &&
    (PatternsCouldMatch(rules[i].head, NegativePatterns(rule.body)) <==> negative && i == j)
  }

  lemma NextEdges(rules: seq<Rule>, rule: Rule, a: nat, j: nat, negative: bool)
    requires a < |rules| && OnlyAt(rules, rule, a, j, negative)
    ensures EdgesOf(rules, rule, a + 1) == if a == j then EdgesOf(rules, rule, a) + [Edge(j, negative)] else EdgesOf(rules, rule, a)
  {
  }

  /** One edge, to the only rule that overlaps. */
  lemma OnlyEdge(rules: seq<Rule>, rule: Rule, j: nat, negative: bool)
    requires j < |rules| && forall i :: 0 <= i < |rules| ==> OnlyAt(rules, rule, i, j, negative)
    ensures EdgesOf(rules, rule, |rules|) == [Edge(j, negative)]
  {
    var fs := seq(|rules| + 1, i requires 0 <= i <= |rules| => EdgesOf(rules, rule, i));
    forall i | 0 <= i < |fs| - 1 ensures fs[i + 1] == if i == j then fs[i] + [Edge(j, negative)] else fs[i] {
      NextEdges(rules, rule, i, j, negative);
    }
    OneEntry(fs, j, Edge(j, negative), |rules|);
  }

  lemma {:induction false} OneEntry(fs: seq<seq<Edge>>, j: nat, e: Edge, a: nat)
    requires a < |fs| && fs[0] == [] && forall i :: 0 <= i < |fs| - 1 ==> fs[i + 1] == if i == j then fs[i] + [e] else fs[i]
    ensures fs[a] == if j < a then [e] else []
  {
    if a > 0 {
      OneEntry(fs, j, e, a - 1);
      assert fs[a - 1 + 1] == if a - 1 == j then fs[a - 1] + [e] else fs[a - 1];
    }
  }

  lemma NothingOverlapsNothing(head: seq<Pattern>)
    ensures !PatternsOverlap(head, []) && !PatternsCouldMatch(head, [])
  {
  }

  /** The rules of the ring by the predicates they write. */
  ghost predicate Writes(rules: seq<Rule>, names: seq<string>) {
    |rules| == |names| && forall i :: 0 <= i < |rules| ==> rules[i].head == [Along(names[i])] && names[i] != "" && names[i] != "?var"
  }

  lemma CopyEdges(rules: seq<Rule>, names: seq<string>, src: string, dst: string, j: nat)
    requires Writes(rules, names) && j < |names| && names[j] == src
    requires forall i :: 0 <= i < |names| && i != j ==> names[i] != src
    ensures EdgesOf(rules, Copy(src, dst), |rules|) == [Edge(j, false)]
  {
    var rule := Copy(src, dst);
    CopyPatterns(src, dst);
    forall i | 0 <= i < |rules| ensures OnlyAt(rules, rule, i, j, false) {
      OverlapIsEquality(src, names[i]);
      NothingOverlapsNothing(rules[i].head);
    }
    OnlyEdge(rules, rule, j, false);
  }

  lemma CopyPatterns(src: string, dst: string)
    ensures PositivePatterns(Copy(src, dst).body) == [Along(src)] && NegativePatterns(Copy(src, dst).body) == []
  {
    var body := Copy(src, dst).body;
    assert body[1..] == [];
    assert PositivePatterns(body[1..]) == [] && NegativePatterns(body[1..]) == [];
  }

  lemma GuardEdges(rules: seq<Rule>, names: seq<string>, src: string, unless: string, dst: string, j: nat)
    requires Writes(rules, names) && j < |names| && names[j] == unless && src != "" && src != "?var"
    requires forall i :: 0 <= i < |names| ==> names[i] != src && (i != j ==> Key(names[i]) != Key(unless))
    ensures EdgesOf(rules, Guarded(src, unless, dst), |rules|) == [Edge(j, true)]
  {
    var rule := Guarded(src, unless, dst);
    GuardPatterns(src, unless, dst);
    forall i | 0 <= i < |rules| ensures OnlyAt(rules, rule, i, j, true) {
      OverlapIsEquality(src, names[i]);
      CouldMatchIsEquality(unless, names[i]);
    }
    OnlyEdge(rules, rule, j, true);
  }

  lemma GuardPatterns(src: string, unless: string, dst: string)
    ensures PositivePatterns(Guarded(src, unless, dst).body) == [Along(src)]
    ensures NegativePatterns(Guarded(src, unless, dst).body) == [Along(unless)]
  {
    var body := Guarded(src, unless, dst).body;
    var inner := [Match(Along(unless))];
    assert body[1..] == [Not(inner)] && body[1..][1..] == [] && inner[1..] == [];
    assert PositivePatterns(inner) == [Along(unless)];
    assert PositivePatterns(body[1..]) == [] && NegativePatterns(body[1..]) == [Along(unless)] + [];
  }

  /** The ring over any source `d` and predicates `names`. */
  ghost predicate IsRing(rules: seq<Rule>, d: string, names: seq<string>) {
    |names| == 4 && |rules| == 4 && rules[0] == Guarded(d, names[1], names[0]) &&
    rules[1] == Copy(names[2], names[1]) && rules[2] == Copy(names[3], names[2]) && rules[3] == Copy(names[0], names[3])
  }

  ghost predicate AllDiffer(d: string, names: seq<string>) {
    |names| == 4 && d != "" && d != "?var" &&
    (forall i, j :: 0 <= i < j < 4 ==> names[i] != names[j] && Key(names[i]) != Key(names[j])) &&
    forall i :: 0 <= i < 4 ==> names[i] != d && names[i] != "" && names[i] != "?var" && Key(names[i]) != Key(d)
  }

  lemma RingNames(names: seq<string>)
    requires names == ["p0", "p1", "p2", "p3"]
    ensures AllDiffer("d", names)
  {
    assert names[0][1] == '0' && names[1][1] == '1' && names[2][1] == '2' && names[3][1] == '3';
    forall i, j | 0 <= i < j < 4 ensures names[i] != names[j] && Key(names[i]) != Key(names[j]) {
      KeysDiffer(names[i], names[j]);
    }
    forall i | 0 <= i < 4 ensures names[i] != "d" && Key(names[i]) != Key("d") {
      KeysDiffer(names[i], "d");
    }
  }

  /** These rules have the dependencies of the ring. */
  lemma RingRulesDeps(rules: seq<Rule>, d: string, names: seq<string>)
    requires IsRing(rules, d, names) && AllDiffer(d, names)
    ensures DepsOf(rules) == Ring()
  {
    assert Writes(rules, names);
    GuardEdges(rules, names, d, names[1], names[0], 1);
    CopyEdges(rules, names, names[2], names[1], 2);
    CopyEdges(rules, names, names[3], names[2], 3);
    CopyEdges(rules, names, names[0], names[3], 0);
    SameDeps(DepsOf(rules), Ring());
  }

  lemma SameDeps(a: Deps, b: Deps)
    requires |a| == |b| == 4 && a[0] == b[0] && a[1] == b[1] && a[2] == b[2] && a[3] == b[3]
    ensures a == b
  {
  }

  // ---------------------------------------------------------------------------
  // What its rules derive
  // ---------------------------------------------------------------------------

  lemma AlongBinds(p: Pattern, name: string, h: Ground, b: Binding)
    requires p == Along(name)
    ensures b == map[] ==> MatchGround(p, h, b) == if h.p == Key(name) then Some(map["x" := h.s, "y" := h.o]) else None
    ensures "x" in b && "y" in b ==>
      (MatchGround(p, h, b).Some? <==> h == Ground(b["x"], Key(name), b["y"])) &&
      (MatchGround(p, h, b).Some? ==> MatchGround(p, h, b).value == b)
  {
    assert "x"[0] != "y"[0];
    assert TermKey(p.p) == Key(name);
  }

  lemma AlongInstance(p: Pattern, name: string, s: string, o: string)
    requires p == Along(name)
    ensures Instantiate(p, map["x" := s, "y" := o]) == Some(Ground(s, Key(name), o))
  {
    assert "x"[0] != "y"[0];
    assert TermKey(p.p) == Key(name);
  }

  lemma CopyDerives(x: Expressions, rule: Rule, src: string, dst: string, facts: iset<Ground>, world: iset<Ground>, h: Ground)
    requires rule == Copy(src, dst) && h in facts && h.p == Key(src)
    ensures Derives(x, rule, facts, world, Ground(h.s, Key(dst), h.o))
  {
    var b: Binding := map["x" := h.s, "y" := h.o];
    var empty: Binding := map[];
    AlongBinds(rule.body[0].pattern, src, h, empty);
    assert rule.body[1..] == [] && Solves(x, facts, world, rule.body[1..], b, b);
    assert Solves(x, facts, world, rule.body, empty, b);
    AlongInstance(rule.head[0], dst, h.s, h.o);
  }

  lemma CopyDerived(x: Expressions, rule: Rule, src: string, dst: string, facts: iset<Ground>, world: iset<Ground>, g: Ground) returns (h: Ground)
    requires rule == Copy(src, dst) && Derives(x, rule, facts, world, g)
    ensures h in facts && h.p == Key(src) && g == Ground(h.s, Key(dst), h.o)
  {
    var b, k :| Solves(x, facts, world, rule.body, map[], b) && 0 <= k < |rule.head| && Instantiate(rule.head[k], b) == Some(g);
    var p := rule.body[0].pattern;
    h :| h in facts && MatchGround(p, h, map[]).Some? && Solves(x, facts, world, rule.body[1..], MatchGround(p, h, map[]).value, b);
    AlongBinds(p, src, h, map[]);
    assert rule.body[1..] == [];
    AlongInstance(rule.head[0], dst, h.s, h.o);
  }

  lemma GuardedDerives(x: Expressions, rule: Rule, src: string, unless: string, dst: string, facts: iset<Ground>, world: iset<Ground>, h: Ground)
    requires rule == Guarded(src, unless, dst) && h in facts && h.p == Key(src)
    requires Ground(h.s, Key(unless), h.o) !in world
    ensures Derives(x, rule, facts, world, Ground(h.s, Key(dst), h.o))
  {
    var b: Binding := map["x" := h.s, "y" := h.o];
    var empty: Binding := map[];
    AlongBinds(rule.body[0].pattern, src, h, empty);
    var rest := rule.body[1..];
    var inner := rest[0].body;
    forall n ensures !Solves(x, world, world, inner, b, n) {
      if Solves(x, world, world, inner, b, n) {
        var g :| g in world && MatchGround(inner[0].pattern, g, b).Some? && Solves(x, world, world, inner[1..], MatchGround(inner[0].pattern, g, b).value, n);
        AlongBinds(inner[0].pattern, unless, g, b);
      }
    }
    assert rest[1..] == [] && Solves(x, facts, world, rest[1..], b, b);
    assert Solves(x, facts, world, rest, b, b);
    assert Solves(x, facts, world, rule.body, empty, b);
    AlongInstance(rule.head[0], dst, h.s, h.o);
  }

  lemma DerivedPredicate(x: Expressions, rule: Rule, dst: string, facts: iset<Ground>, world: iset<Ground>, g: Ground)
    requires rule.head == [Along(dst)] && Derives(x, rule, facts, world, g)
    ensures g.p == Key(dst)
  {
    assert TermKey(rule.head[0].p) == Key(dst);
  }

  // ---------------------------------------------------------------------------
  // What the engine does with it
  // ---------------------------------------------------------------------------

  ghost predicate HasNo(facts: iset<Ground>, name: string) {
    forall g :: g in facts ==> g.p != Key(name)
  }

  lemma {:induction false} NeverAdded(f: nat -> iset<Ground>, name: string, n: nat)
    requires HasNo(f(0), name) && forall k: nat :: HasNo(f(k), name) ==> HasNo(f(k + 1), name)
    ensures HasNo(f(n), name)
  {
    if n > 0 {
      NeverAdded(f, name, n - 1);
      assert HasNo(f(n - 1 + 1), name);
    }
  }

  /** Rules that do not write a predicate never add it. */
  lemma RoundsAvoid(x: Expressions, rules: seq<Rule>, names: seq<string>, which: set<nat>, start: iset<Ground>, name: string, n: nat)
    requires Writes(rules, names) && HasNo(start, name) && forall i :: i in which && i < |names| ==> Key(names[i]) != Key(name)
    ensures HasNo(Rounds(x, rules, which, start, n), name)
  {
    var f := (k: nat) => Rounds(x, rules, which, start, k);
    forall k: nat | HasNo(f(k), name) ensures HasNo(f(k + 1), name) {
      NextRound(x, rules, which, start, k);
      forall g | Consequence(x, rules, which, f(k), g) ensures g.p != Key(name) {
        var i: nat :| i in which && i < |rules| && Derives(x, rules[i], f(k), f(k), g);
        DerivedPredicate(x, rules[i], names[i], f(k), f(k), g);
      }
    }
    NeverAdded(f, name, n);
  }

  lemma NothingToCopy(x: Expressions, rule: Rule, src: string, dst: string, facts: iset<Ground>, g: Ground)
    requires rule == Copy(src, dst) && HasNo(facts, src)
    ensures !Derives(x, rule, facts, facts, g)
  {
    if Derives(x, rule, facts, facts, g) {
      var h := CopyDerived(x, rule, src, dst, facts, facts, g);
    }
  }

  /** A copying rule alone is quiet where its source does not occur. */
  lemma CopyIsQuiet(x: Expressions, rules: seq<Rule>, i: nat, src: string, dst: string, facts: iset<Ground>, n: nat)
    requires i < |rules| && rules[i] == Copy(src, dst) && HasNo(facts, src)
    ensures Rounds(x, rules, {i}, facts, n) == facts
  {
    forall g ensures !Derives(x, rules[i], facts, facts, g) {
      NothingToCopy(x, rules[i], src, dst, facts, g);
    }
    assert Closed(x, rules, {i}, Rounds(x, rules, {i}, facts, 0), Rounds(x, rules, {i}, facts, 0));
    RoundsFixed(x, rules, {i}, facts, 0, n);
  }

  lemma DerivedNext(x: Expressions, rules: seq<Rule>, which: set<nat>, start: iset<Ground>, n: nat, i: nat, g: Ground)
    requires i in which && i < |rules|
    requires var facts := Rounds(x, rules, which, start, n); Derives(x, rules[i], facts, facts, g)
    ensures g in Rounds(x, rules, which, start, n + 1)
  {
    NextRound(x, rules, which, start, n);
    assert Consequence(x, rules, which, Rounds(x, rules, which, start, n), g);
    assert g in Consequences(x, rules, which, Rounds(x, rules, which, start, n));
  }

  /** One round copies a fact on. */
  lemma CopiedNext(x: Expressions, rules: seq<Rule>, which: set<nat>, start: iset<Ground>, n: nat, i: nat, src: string, dst: string)
    requires i in which && i < |rules| && rules[i] == Copy(src, dst) && Fact(src) in Rounds(x, rules, which, start, n)
    ensures Fact(dst) in Rounds(x, rules, which, start, n + 1)
  {
    var facts := Rounds(x, rules, which, start, n);
    CopyDerives(x, rules[i], src, dst, facts, facts, Fact(src));
    DerivedNext(x, rules, which, start, n, i, Fact(dst));
  }

  /** From d, the last stratum goes round to the source of the rule left behind. */
  lemma LastStratumGoesRound(x: Expressions, rules: seq<Rule>, d: string, names: seq<string>, data: iset<Ground>)
    requires IsRing(rules, d, names) && Fact(d) in data && HasNo(data, names[1])
    ensures Fact(names[2]) in Rounds(x, rules, {0, 2, 3}, data, 3)
  {
    var which := {0, 2, 3};
    GuardedFirst(x, rules, which, data, d, names[1], names[0]);
    var n: nat := 1;
    CopiedNext(x, rules, which, data, n, 3, names[0], names[3]);
    CopiedNext(x, rules, which, data, n + 1, 2, names[3], names[2]);
  }

  lemma GuardedFirst(x: Expressions, rules: seq<Rule>, which: set<nat>, data: iset<Ground>, d: string, unless: string, dst: string)
    requires 0 in which && 0 < |rules| && rules[0] == Guarded(d, unless, dst) && Fact(d) in data && HasNo(data, unless)
    ensures Fact(dst) in Rounds(x, rules, which, data, 1)
  {
    var n: nat := 0;
    assert Rounds(x, rules, which, data, n) == data;
    GuardedDerives(x, rules[0], d, unless, dst, data, data, Fact(d));
    DerivedNext(x, rules, which, data, n, 0, Fact(dst));
  }

  lemma RingTop(level: Level)
    requires level == [2, 1, 2, 2]
    ensures Top(level) == 3
  {
    assert level[1..] == [1, 2, 2] && level[1..][1..] == [2, 2] && level[1..][1..][1..] == [2] && level[1..][1..][1..][1..] == [];
    assert Top(level[1..][1..][1..]) == 3;
    assert Top(level[1..][1..]) == 3 && Top(level[1..]) == 3;
  }

  lemma RingStrata(x: Expressions, rules: seq<Rule>, level: Level, data: iset<Ground>)
    requires level == [2, 1, 2, 2] && |rules| == 4
    ensures Top(level) == 3
    ensures CappedRun(x, rules, level, data, 3) ==
      Rounds(x, rules, {0, 2, 3}, Rounds(x, rules, {1}, data, MAX_ROUNDS), MAX_ROUNDS)
  {
    RingTop(level);
    assert At(level, 0) == {} && At(level, 1) == {1} && At(level, 2) == {0, 2, 3};
    RoundsFixed(x, rules, {}, data, 0, MAX_ROUNDS);
    NextStratum(x, rules, level, data, 0);
    NextStratum(x, rules, level, data, 1);
    NextStratum(x, rules, level, data, 2);
  }

  /** The rules have a cycle through NOT, the engine accepts them, and from a single d-triple it
      ends with p2 but without the p1 that p2 implies: the result is not closed, and no model. */
  lemma AcceptedRingMisleads(x: Expressions, rules: seq<Rule>, data: iset<Ground>)
    requires rules == RingRules() && data == iset{Fact("d")}
    ensures WellFormed(DepsOf(rules)) && HasNotCycle(DepsOf(rules)) && Levels(DepsOf(rules)).Accepted?
    ensures var level := Levels(DepsOf(rules)).level;
      var final := CappedRun(x, rules, level, data, Top(level));
      Fact("p2") in final && Fact("p1") !in final && !Closed(x, rules, Indices(|rules|), final, final)
  {
    var names := ["p0", "p1", "p2", "p3"];
    RingNames(names);
    assert IsRing(rules, "d", names);
    RingMisleads(x, rules, "d", names, data);
  }

  lemma RingMisleads(x: Expressions, rules: seq<Rule>, d: string, names: seq<string>, data: iset<Ground>)
    requires IsRing(rules, d, names) && AllDiffer(d, names) && data == iset{Fact(d)}
    ensures WellFormed(DepsOf(rules)) && HasNotCycle(DepsOf(rules)) && Levels(DepsOf(rules)).Accepted?
    ensures var level := Levels(DepsOf(rules)).level;
      var final := CappedRun(x, rules, level, data, Top(level));
      Fact(names[2]) in final && Fact(names[1]) !in final && !Closed(x, rules, Indices(|rules|), final, final)
  {
    RingRulesDeps(rules, d, names);
    RingHasNotCycle();
    RingLevels(DepsOf(rules));
    RingStrata(x, rules, Levels(DepsOf(rules)).level, data);
    RingResult(x, rules, d, names, data);
  }

  lemma RingResult(x: Expressions, rules: seq<Rule>, d: string, names: seq<string>, data: iset<Ground>)
    requires IsRing(rules, d, names) && AllDiffer(d, names) && data == iset{Fact(d)}
    ensures var final := Rounds(x, rules, {0, 2, 3}, Rounds(x, rules, {1}, data, MAX_ROUNDS), MAX_ROUNDS);
      Fact(names[2]) in final && Fact(names[1]) !in final && !Closed(x, rules, Indices(|rules|), final, final)
  {
    assert HasNo(data, names[1]) && HasNo(data, names[2]);
    CopyIsQuiet(x, rules, 1, names[2], names[1], data, MAX_ROUNDS);
    LastStratumEnds(x, rules, d, names, data);
  }

  lemma LastStratumEnds(x: Expressions, rules: seq<Rule>, d: string, names: seq<string>, data: iset<Ground>)
    requires IsRing(rules, d, names) && AllDiffer(d, names) && Fact(d) in data && HasNo(data, names[1])
    ensures var final := Rounds(x, rules, {0, 2, 3}, data, MAX_ROUNDS);
      Fact(names[2]) in final && Fact(names[1]) !in final && !Closed(x, rules, Indices(|rules|), final, final)
  {
    LastStratumGoesRound(x, rules, d, names, data);
    RoundsMonotone(x, rules, {0, 2, 3}, data, 3, MAX_ROUNDS);
    LastStratumAvoids(x, rules, d, names, data);
    MissingCopy(x, rules, 1, names[2], names[1], Rounds(x, rules, {0, 2, 3}, data, MAX_ROUNDS));
  }

  lemma MissingCopy(x: Expressions, rules: seq<Rule>, i: nat, src: string, dst: string, facts: iset<Ground>)
    requires i < |rules| && rules[i] == Copy(src, dst) && Fact(src) in facts && HasNo(facts, dst)
    ensures !Closed(x, rules, Indices(|rules|), facts, facts)
  {
    CopyDerives(x, rules[i], src, dst, facts, facts, Fact(src));
    assert i in Indices(|rules|);
  }

  lemma LastStratumAvoids(x: Expressions, rules: seq<Rule>, d: string, names: seq<string>, data: iset<Ground>)
    requires IsRing(rules, d, names) && AllDiffer(d, names) && HasNo(data, names[1])
    ensures HasNo(Rounds(x, rules, {0, 2, 3}, data, MAX_ROUNDS), names[1])
  {
    assert Writes(rules, names);
    RoundsAvoid(x, rules, names, {0, 2, 3}, data, names[1], MAX_ROUNDS);
  }
}
