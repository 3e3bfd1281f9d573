/** Which kinds of terms rules put where: as long as heads take subjects from subjects and
    predicates from predicates, what holds of the positions in the data holds of the positions in
    everything derived. */
module SrlKinds {
  import opened Common
  import opened Stratification
  import opened SrlRules
  import opened SrlModels
  import opened SrlBounds
  import opened SrlEngine

  /** What is asked of the keys in each position; a key that may be a subject or a predicate may
      also be an object. */
  datatype Kinds = Kinds(subj: string -> bool, pred: string -> bool, obj: string -> bool) {
    ghost predicate Sound() {
      forall key :: subj(key) || pred(key) ==> obj(key)
    }

    predicate Has(g: Ground) {
      subj(g.s) && pred(g.p) && obj(g.o)
    }

    ghost predicate All(facts: iset<Ground>) {
      forall g :: g in facts ==> Has(g)
    }
  }

  predicate BoundAsSubject(es: seq<Element>, name: string) {
    exists i :: 0 <= i < |es| && es[i].Match? && es[i].pattern.s == Variable(name)
  }

  predicate BoundAsPredicate(es: seq<Element>, name: string) {
    exists i :: 0 <= i < |es| && es[i].Match? && es[i].pattern.p == Variable(name)
  }

  /** A head whose variables keep their position, objects excepted. */
  predicate HeadKeeps(kinds: Kinds, es: seq<Element>, p: Pattern) {
    (if p.s.Variable? then BoundAsSubject(es, p.s.name) else kinds.subj(TermKey(p.s))) &&
    (if p.p.Variable? then BoundAsPredicate(es, p.p.name) else kinds.pred(TermKey(p.p))) &&
    (p.o.Variable? || kinds.obj(TermKey(p.o)))
  }

  predicate RuleKeeps(kinds: Kinds, rule: Rule) {
    forall k :: 0 <= k < |rule.head| ==> HeadKeeps(kinds, rule.body, rule.head[k])
  }

  predicate RulesKeep(kinds: Kinds, rules: seq<Rule>) {
    BindFree(rules) && forall i :: 0 <= i < |rules| ==> RuleKeeps(kinds, rules[i])
  }

  predicate NoBind(es: seq<Element>) {
    forall k :: 0 <= k < |es| ==> !es[k].Bind?
  }

  ghost predicate Extends(b: Binding, r: Binding) {
    forall v :: v in b ==> v in r && r[v] == b[v]
  }

  ghost predicate AllObjects(kinds: Kinds, b: Binding) {
    forall v :: v in b ==> kinds.obj(b[v])
  }

  lemma MatchTermBinds(kinds: Kinds, t: Term, key: string, b: Binding)
    requires MatchTerm(t, key, b).Some? && AllObjects(kinds, b) && kinds.obj(key)
    ensures var r := MatchTerm(t, key, b).value;
      Extends(b, r) && AllObjects(kinds, r) && (t.Variable? ==> t.name in r && r[t.name] == key)
  {
  }

  lemma MatchBinds(kinds: Kinds, p: Pattern, g: Ground, b: Binding)
    requires kinds.Sound() && kinds.Has(g) && MatchGround(p, g, b).Some? && AllObjects(kinds, b)
    ensures var r := MatchGround(p, g, b).value;
      Extends(b, r) && AllObjects(kinds, r) && (p.s.Variable? ==> p.s.name in r && r[p.s.name] == g.s) &&
      (p.p.Variable? ==> p.p.name in r && r[p.p.name] == g.p)
  {
    MatchTermBinds(kinds, p.s, g.s, b);
    var b1 := MatchTerm(p.s, g.s, b).value;
    MatchTermBinds(kinds, p.p, g.p, b1);
    MatchTermBinds(kinds, p.o, g.o, MatchTerm(p.p, g.p, b1).value);
  }

  /** A solution gives every variable something that may be an object, and those that a pattern
      has in another position something that may be there. */
  lemma {:induction false} SolvesKinds(x: Expressions, kinds: Kinds, facts: iset<Ground>, world: iset<Ground>, es: seq<Element>, b: Binding, r: Binding)
    requires kinds.Sound() && kinds.All(facts) && NoBind(es) && AllObjects(kinds, b) && Solves(x, facts, world, es, b, r)
    ensures Extends(b, r) && AllObjects(kinds, r)
    ensures forall v :: BoundAsSubject(es, v) ==> v in r && kinds.subj(r[v])
    ensures forall v :: BoundAsPredicate(es, v) ==> v in r && kinds.pred(r[v])
    decreases es
  {
    if es != [] {
      BoundInRest(es);
      if es[0].Match? {
        var p := es[0].pattern;
        var g :| g in facts && MatchGround(p, g, b).Some? && Solves(x, facts, world, es[1..], MatchGround(p, g, b).value, r);
        MatchBinds(kinds, p, g, b);
        SolvesKinds(x, kinds, facts, world, es[1..], MatchGround(p, g, b).value, r);
      } else {
        SolvesKinds(x, kinds, facts, world, es[1..], b, r);
      }
    }
  }

  lemma BoundInRest(es: seq<Element>)
    requires es != []
    ensures forall v :: BoundAsSubject(es, v) ==> BoundAsSubject(es[1..], v) || (es[0].Match? && es[0].pattern.s == Variable(v))
    ensures forall v :: BoundAsPredicate(es, v) ==> BoundAsPredicate(es[1..], v) || (es[0].Match? && es[0].pattern.p == Variable(v))
  {
    var rest := es[1..];
    forall v | BoundAsSubject(es, v) && !(es[0].Match? && es[0].pattern.s == Variable(v)) ensures BoundAsSubject(rest, v) {
      var i :| 0 <= i < |es| && es[i].Match? && es[i].pattern.s == Variable(v);
      assert rest[i - 1] == es[i];
    }
    forall v | BoundAsPredicate(es, v) && !(es[0].Match? && es[0].pattern.p == Variable(v)) ensures BoundAsPredicate(rest, v) {
      var i :| 0 <= i < |es| && es[i].Match? && es[i].pattern.p == Variable(v);
      assert rest[i - 1] == es[i];
    }
  }

  lemma DerivesKinds(x: Expressions, kinds: Kinds, rule: Rule, facts: iset<Ground>, world: iset<Ground>, g: Ground)
    requires kinds.Sound() && kinds.All(facts) && NoBind(rule.body) && RuleKeeps(kinds, rule) && Derives(x, rule, facts, world, g)
    ensures kinds.Has(g)
  {
    var b, k :| Solves(x, facts, world, rule.body, map[], b) && 0 <= k < |rule.head| && Instantiate(rule.head[k], b) == Some(g);
    SolvesKinds(x, kinds, facts, world, rule.body, map[], b);
    assert HeadKeeps(kinds, rule.body, rule.head[k]);
  }

  lemma RoundsKinds(x: Expressions, kinds: Kinds, rules: seq<Rule>, which: set<nat>, start: iset<Ground>, n: nat)
    requires kinds.Sound() && kinds.All(start) && RulesKeep(kinds, rules)
    ensures kinds.All(Rounds(x, rules, which, start, n))
  {
    var f := (k: nat) => Rounds(x, rules, which, start, k);
    forall k: nat | kinds.All(f(k)) ensures kinds.All(f(k + 1)) {
      NextRound(x, rules, which, start, k);
      ConsequencesKinds(x, kinds, rules, which, f(k));
    }
    ChainKinds(kinds, f, n);
  }

  lemma {:induction false} ChainKinds(kinds: Kinds, f: nat -> iset<Ground>, n: nat)
    requires kinds.All(f(0)) && forall k: nat :: kinds.All(f(k)) ==> kinds.All(f(k + 1))
    ensures kinds.All(f(n))
  {
    if n > 0 {
      ChainKinds(kinds, f, n - 1);
      assert kinds.All(f(n - 1 + 1));
    }
  }

  lemma ConsequencesKinds(x: Expressions, kinds: Kinds, rules: seq<Rule>, which: set<nat>, facts: iset<Ground>)
    requires kinds.Sound() && kinds.All(facts) && RulesKeep(kinds, rules)
    ensures kinds.All(Consequences(x, rules, which, facts))
  {
    forall g | Consequence(x, rules, which, facts, g) ensures kinds.Has(g) {
      var i: nat :| i in which && i < |rules| && Derives(x, rules[i], facts, facts, g);
      assert RuleKeeps(kinds, rules[i]);
      DerivesKinds(x, kinds, rules[i], facts, facts, g);
    }
  }

  /** Every triple of a run has in each position what was asked for. */
  lemma {:induction false} RunKinds(x: Expressions, kinds: Kinds, rules: seq<Rule>, level: Level, data: iset<Ground>, s: nat)
    requires kinds.Sound() && kinds.All(data) && RulesKeep(kinds, rules)
    ensures kinds.All(CappedRun(x, rules, level, data, s))
  {
    if s > 0 {
      var r: nat := s - 1;
      RunKinds(x, kinds, rules, level, data, r);
      NextStratum(x, rules, level, data, r);
      var before := CappedRun(x, rules, level, data, r);
      RoundsKinds(x, kinds, rules, At(level, r), before, MAX_ROUNDS);
    }
  }
}
