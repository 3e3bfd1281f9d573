/** When a stratum is sure to reach its fixed point: no rule makes terms that are neither in
    the data nor in the rules, so there are only so many triples to add. */
module SrlBounds {
  import opened Common
  import opened SrlRules
  import opened SrlModels

  // ---------------------------------------------------------------------------
  // Triples over a set of keys
  // ---------------------------------------------------------------------------

  predicate IsOver(g: Ground, keys: set<string>) {
    g.s in keys && g.p in keys && g.o in keys
  }

  ghost function Row(s: string, p: string, os: set<string>): set<Ground> {
    set o | o in os :: Ground(s, p, o)
  }

  ghost function Slice(s: string, ps: set<string>, os: set<string>): set<Ground> {
    set p, o | p in ps && o in os :: Ground(s, p, o)
  }

  ghost function Block(ss: set<string>, ps: set<string>, os: set<string>): set<Ground> {
    set s, p, o | s in ss && p in ps && o in os :: Ground(s, p, o)
  }

  lemma {:induction false} RowSize(s: string, p: string, os: set<string>)
    ensures |Row(s, p, os)| <= |os|
  {
    if o :| o in os {
      RowSize(s, p, os - {o});
      assert Row(s, p, os) == Row(s, p, os - {o}) + {Ground(s, p, o)};
    }
  }

  lemma TimesMore(m: nat, n: nat)
    requires m > 0
    ensures m * n == (m - 1) * n + n
  {
  }

  lemma {:induction false} SliceSize(s: string, ps: set<string>, os: set<string>)
    ensures |Slice(s, ps, os)| <= |ps| * |os|
  {
    if p :| p in ps {
      SliceSize(s, ps - {p}, os);
      RowSize(s, p, os);
      assert Slice(s, ps, os) == Slice(s, ps - {p}, os) + Row(s, p, os);
      TimesMore(|ps|, |os|);
    }
  }

  lemma BlockSize(ss: set<string>, ps: set<string>, os: set<string>)
    ensures |Block(ss, ps, os)| <= |ss| * (|ps| * |os|)
  {
    forall s ensures |Slice(s, ps, os)| <= |ps| * |os| {
      SliceSize(s, ps, os);
    }
    SlicesSize(ss, ps, os, |ps| * |os|);
  }

  lemma {:induction false} SlicesSize(ss: set<string>, ps: set<string>, os: set<string>, n: nat)
    requires forall s :: |Slice(s, ps, os)| <= n
    ensures |Block(ss, ps, os)| <= |ss| * n
  {
    if ss == {} {
      assert Block(ss, ps, os) == {};
    } else {
      var s :| s in ss;
      SlicesSize(ss - {s}, ps, os, n);
      OneSliceMore(ss, s, ps, os, n);
      TimesMore(|ss|, n);
    }
  }

  lemma OneSliceMore(ss: set<string>, s: string, ps: set<string>, os: set<string>, n: nat)
    requires s in ss && |Slice(s, ps, os)| <= n
    ensures |Block(ss, ps, os)| <= |Block(ss - {s}, ps, os)| + n
  {
    BlockSplit(ss, s, ps, os);
    UnionSize(Block(ss - {s}, ps, os), Slice(s, ps, os));
  }

  lemma UnionSize(a: set<Ground>, b: set<Ground>)
    ensures |a + b| <= |a| + |b|
  {
    assert a + b == a + (b - a) && b == (b - a) + (a * b);
  }

  lemma BlockSplit(ss: set<string>, s: string, ps: set<string>, os: set<string>)
    requires s in ss
    ensures Block(ss, ps, os) == Block(ss - {s}, ps, os) + Slice(s, ps, os)
  {
    forall g ensures g in Block(ss, ps, os) <==> g in Block(ss - {s}, ps, os) + Slice(s, ps, os) {
      assert g == Ground(g.s, g.p, g.o);
    }
  }

  function Cube(n: nat): nat {
    n * (n * n)
  }

  lemma TriplesOver(ts: set<Ground>, keys: set<string>)
    requires forall g :: g in ts ==> IsOver(g, keys)
    ensures |ts| <= Cube(|keys|)
  {
    BlockSize(keys, keys, keys);
    var all := Block(keys, keys, keys);
    forall g | g in ts ensures g in all {
      assert g == Ground(g.s, g.p, g.o);
    }
    SubsetSize(ts, all);
  }

  // ---------------------------------------------------------------------------
  // Rules that stay over the keys
  // ---------------------------------------------------------------------------

  ghost predicate AllOver(facts: iset<Ground>, keys: set<string>) {
    forall g :: g in facts ==> IsOver(g, keys)
  }

  ghost predicate Within(b: Binding, keys: set<string>) {
    forall v :: v in b ==> b[v] in keys
  }

  /** The BIND expression gives one of the keys whenever it is given some. */
  ghost predicate BindStays(x: Expressions, e: string, keys: set<string>) {
    forall b :: Within(b, keys) ==> x.bind(e, b) in keys
  }

  ghost predicate BodyStays(x: Expressions, es: seq<Element>, keys: set<string>) {
    forall i :: 0 <= i < |es| && es[i].Bind? ==> BindStays(x, es[i].expr, keys)
  }

  predicate TermStays(t: Term, keys: set<string>) {
    !t.Variable? ==> TermKey(t) in keys
  }

  predicate HeadStays(p: Pattern, keys: set<string>) {
    TermStays(p.s, keys) && TermStays(p.p, keys) && TermStays(p.o, keys)
  }

  /** The constants of the heads are among the keys, and no BIND leads out of them. */
  ghost predicate RuleStays(x: Expressions, rule: Rule, keys: set<string>) {
    BodyStays(x, rule.body, keys) && forall k :: 0 <= k < |rule.head| ==> HeadStays(rule.head[k], keys)
  }

  ghost predicate RulesStay(x: Expressions, rules: seq<Rule>, keys: set<string>) {
    forall i :: 0 <= i < |rules| ==> RuleStays(x, rules[i], keys)
  }

  lemma MatchStays(p: Pattern, g: Ground, b: Binding, keys: set<string>)
    requires IsOver(g, keys) && Within(b, keys) && MatchGround(p, g, b).Some?
    ensures Within(MatchGround(p, g, b).value, keys)
  {
    TermMatchStays(p.s, g.s, b, keys);
    var b1 := MatchTerm(p.s, g.s, b).value;
    TermMatchStays(p.p, g.p, b1, keys);
    TermMatchStays(p.o, g.o, MatchTerm(p.p, g.p, b1).value, keys);
  }

  lemma TermMatchStays(t: Term, key: string, b: Binding, keys: set<string>)
    requires key in keys && Within(b, keys) && MatchTerm(t, key, b).Some?
    ensures Within(MatchTerm(t, key, b).value, keys)
  {
  }

  lemma {:induction false} SolvesWithin(x: Expressions, facts: iset<Ground>, world: iset<Ground>, es: seq<Element>, b: Binding, r: Binding, keys: set<string>)
    requires Solves(x, facts, world, es, b, r) && AllOver(facts, keys) && BodyStays(x, es, keys) && Within(b, keys)
    ensures Within(r, keys)
    decreases es
  {
    if es != [] {
      assert BodyStays(x, es[1..], keys);
      match es[0] {
        case Match(p) =>
          var g :| g in facts && MatchGround(p, g, b).Some? && Solves(x, facts, world, es[1..], MatchGround(p, g, b).value, r);
          MatchStays(p, g, b, keys);
          SolvesWithin(x, facts, world, es[1..], MatchGround(p, g, b).value, r, keys);
        case Bind(e, v) =>
          assert BindStays(x, es[0].expr, keys);
          SolvesWithin(x, facts, world, es[1..], b[v := x.bind(e, b)], r, keys);
        case _ =>
          SolvesWithin(x, facts, world, es[1..], b, r, keys);
      }
    }
  }

  lemma DerivesOver(x: Expressions, rule: Rule, facts: iset<Ground>, world: iset<Ground>, g: Ground, keys: set<string>)
    requires Derives(x, rule, facts, world, g) && AllOver(facts, keys) && RuleStays(x, rule, keys)
    ensures IsOver(g, keys)
  {
    var b, k :| Solves(x, facts, world, rule.body, map[], b) && 0 <= k < |rule.head| && Instantiate(rule.head[k], b) == Some(g);
    SolvesWithin(x, facts, world, rule.body, map[], b, keys);
    assert HeadStays(rule.head[k], keys);
  }

  lemma RoundsOver(x: Expressions, rules: seq<Rule>, which: set<nat>, start: iset<Ground>, n: nat, keys: set<string>)
    requires AllOver(start, keys) && RulesStay(x, rules, keys)
    ensures AllOver(Rounds(x, rules, which, start, n), keys)
  {
    var f := (k: nat) => Rounds(x, rules, which, start, k);
    forall k: nat | AllOver(f(k), keys) ensures AllOver(f(k + 1), keys) {
      NextRound(x, rules, which, start, k);
      ConsequencesOver(x, rules, which, f(k), keys);
    }
    ChainOver(f, n, keys);
  }

  lemma {:induction false} ChainOver(f: nat -> iset<Ground>, n: nat, keys: set<string>)
    requires AllOver(f(0), keys) && forall k: nat :: AllOver(f(k), keys) ==> AllOver(f(k + 1), keys)
    ensures AllOver(f(n), keys)
  {
    if n > 0 {
      ChainOver(f, n - 1, keys);
      assert AllOver(f(n - 1 + 1), keys);
    }
  }

  lemma ConsequencesOver(x: Expressions, rules: seq<Rule>, which: set<nat>, facts: iset<Ground>, keys: set<string>)
    requires AllOver(facts, keys) && RulesStay(x, rules, keys)
    ensures AllOver(Consequences(x, rules, which, facts), keys)
  {
    forall g | Consequence(x, rules, which, facts, g) ensures IsOver(g, keys) {
      var i: nat :| i in which && i < |rules| && Derives(x, rules[i], facts, facts, g);
      DerivesOver(x, rules[i], facts, facts, g, keys);
    }
  }

  // ---------------------------------------------------------------------------
  // Counting rounds
  // ---------------------------------------------------------------------------

  /** The triples of a round as a finite set. */
  ghost function RoundSet(f: nat -> iset<Ground>, n: nat, keys: set<string>): set<Ground> {
    set g | g in Block(keys, keys, keys) && g in f(n)
  }

  /** An ascending chain over the keys that grows for `n` steps has grown by `n` triples. */
  lemma {:induction false} ChainGrows(f: nat -> iset<Ground>, n: nat, keys: set<string>)
    requires forall k: nat :: AllOver(f(k), keys) && f(k) <= f(k + 1)
    requires forall k: nat :: k < n ==> f(k) != f(k + 1)
    ensures |RoundSet(f, n, keys)| >= |RoundSet(f, 0, keys)| + n
  {
    if n > 0 {
      ChainGrows(f, n - 1, keys);
      var k: nat := n - 1;
      assert f(k) != f(k + 1);
      var g :| g in f(k + 1) && g !in f(k);
      var low, high := RoundSet(f, k, keys), RoundSet(f, k + 1, keys);
      assert IsOver(g, keys) && g == Ground(g.s, g.p, g.o);
      assert low <= high && g in high && g !in low;
      SubsetSize(low + {g}, high);
    }
  }

  /** With at most `n` triples over the keys missing at the start, `n` rounds reach the fixed
      point. */
  lemma EnoughRounds(x: Expressions, rules: seq<Rule>, which: set<nat>, start: set<Ground>, n: nat, keys: set<string>)
    requires RulesStay(x, rules, keys) && forall g :: g in start ==> IsOver(g, keys)
    requires Cube(|keys|) <= |start| + n
    ensures var facts := iset g | g in start;
      var end := Rounds(x, rules, which, facts, n); Closed(x, rules, which, end, end)
  {
    var facts := iset g | g in start;
    var f := (k: nat) => Rounds(x, rules, which, facts, k);
    forall k: nat ensures AllOver(f(k), keys) && f(k) <= f(k + 1) {
      RoundsOver(x, rules, which, facts, k, keys);
      NextRound(x, rules, which, facts, k);
    }
    if forall k: nat :: k < n + 1 ==> f(k) != f(k + 1) {
      ChainGrows(f, n + 1, keys);
      forall g | g in start ensures g in RoundSet(f, 0, keys) {
        assert g == Ground(g.s, g.p, g.o) && g in f(0);
      }
      SubsetSize(start, RoundSet(f, 0, keys));
      TriplesOver(RoundSet(f, n + 1, keys), keys);
      assert false;
    }
    var k: nat :| k < n + 1 && f(k) == f(k + 1);
    QuietIsClosed(x, rules, which, facts, k);
    RoundsFixed(x, rules, which, facts, k, n);
  }

  lemma QuietIsClosed(x: Expressions, rules: seq<Rule>, which: set<nat>, start: iset<Ground>, n: nat)
    requires Rounds(x, rules, which, start, n) == Rounds(x, rules, which, start, n + 1)
    ensures var end := Rounds(x, rules, which, start, n); Closed(x, rules, which, end, end)
  {
    var end := Rounds(x, rules, which, start, n);
    NextRound(x, rules, which, start, n);
    forall i: nat, g | i in which && i < |rules| && Derives(x, rules[i], end, end, g) ensures g in end {
      assert Consequence(x, rules, which, end, g);
      assert g in Consequences(x, rules, which, end);
    }
  }

  // ---------------------------------------------------------------------------
  // Rules without BIND
  // ---------------------------------------------------------------------------

  predicate BindFree(rules: seq<Rule>) {
    forall i :: 0 <= i < |rules| ==> forall k :: 0 <= k < |rules[i].body| ==> !rules[i].body[k].Bind?
  }

  function TermKeys(t: Term): set<string> {
    if t.Variable? then {} else {TermKey(t)}
  }

  function PatternConstants(p: Pattern): set<string> {
    TermKeys(p.s) + TermKeys(p.p) + TermKeys(p.o)
  }

  /** The keys of the constants in the heads of the rules. */
  function HeadKeys(rules: seq<Rule>): set<string> {
    set i, k, key | 0 <= i < |rules| && 0 <= k < |rules[i].head| && key in PatternConstants(rules[i].head[k]) :: key
  }

  function TripleKeys(g: Ground): set<string> {
    {g.s, g.p, g.o}
  }

  function DataKeys(data: set<Ground>): set<string> {
    set g, key | g in data && key in TripleKeys(g) :: key
  }

  function KeysOf(rules: seq<Rule>, data: set<Ground>): set<string> {
    DataKeys(data) + HeadKeys(rules)
  }

  /** Without BIND only the keys of data and heads occur. */
  lemma BindFreeStays(x: Expressions, rules: seq<Rule>, data: set<Ground>)
    requires BindFree(rules)
    ensures RulesStay(x, rules, KeysOf(rules, data)) && forall g :: g in data ==> IsOver(g, KeysOf(rules, data))
  {
    var keys := KeysOf(rules, data);
    forall i | 0 <= i < |rules| ensures RuleStays(x, rules[i], keys) {
      forall k | 0 <= k < |rules[i].head| ensures HeadStays(rules[i].head[k], keys) {
        var p := rules[i].head[k];
        assert forall key :: key in PatternConstants(p) ==> key in HeadKeys(rules);
        assert forall t: Term :: t == p.s || t == p.p || t == p.o ==> TermKeys(t) <= PatternConstants(p);
      }
    }
    forall g | g in data ensures IsOver(g, keys) {
      assert g.s in TripleKeys(g) && g.p in TripleKeys(g) && g.o in TripleKeys(g);
    }
  }
}
