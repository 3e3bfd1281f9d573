/** Rules whose conclusions the returned graph cannot hold: evaluation panics, or returns a graph
    that lacks them, although there is no BIND, no NOT and one triple of data. */
module SrlLosses {
  import opened Common
  import opened Stratification
  import opened SrlRules
  import opened SrlKeys
  import opened SrlModels
  import opened SrlBounds
  import opened SrlLayers
  import opened SrlEngine
  import opened SrlTerms
  import opened SrlGraphs

  const X: Term := Variable("x")
  const Y: Term := Variable("y")

  /** `head` from ?x <p> ?y. */
  function From(head: Pattern): Rule {
    Rule([head], [Match(Pattern(X, Iri("p"), Y))])
  }

  /** <a> <p> "l"^^<d>. */
  function LiteralFact(): DataTriple {
    DataTriple(IriTerm("a"), IriTerm("p"), LiteralTerm("l", "d", ""))
  }

  lemma FromDerives(x: Expressions, rule: Rule, head: Pattern, facts: iset<Ground>, h: Ground, g: Ground)
    requires rule == From(head) && h in facts && h.p == Encode(IriTerm("p"))
    requires Instantiate(head, map["x" := h.s, "y" := h.o]) == Some(g)
    ensures Derives(x, rule, facts, facts, g)
  {
    var b: Binding := map["x" := h.s, "y" := h.o];
    var empty: Binding := map[];
    assert "x"[0] != "y"[0];
    assert MatchGround(rule.body[0].pattern, h, empty) == Some(b);
    assert rule.body[1..] == [] && Solves(x, facts, facts, rule.body[1..], b, b);
    assert Solves(x, facts, facts, rule.body, empty, b);
    assert Instantiate(rule.head[0], b) == Some(g);
  }

  /** What the rule concludes from the one triple is among what is added. */
  lemma ConclusionIsAdded(x: Expressions, rules: seq<Rule>, head: Pattern, t: DataTriple, data: set<DataTriple>, keys: set<Ground>, g: Ground)
    requires rules == [From(head)] && data == {t} && t.p == IriTerm("p") && g != EncodeTriple(t)
    requires ModelIsSure(rules, [], data) && Adds(x, rules, [], data, keys)
    requires Instantiate(head, map["x" := Encode(t.s), "y" := Encode(t.o)]) == Some(g)
    ensures g in keys
  {
    var model := Lift(Encoded(data) + keys);
    assert Encoded(data) == {EncodeTriple(t)} by {
      assert t in data;
    }
    FromDerives(x, rules[0], head, model, EncodeTriple(t), g);
    DerivedIsAdded(x, rules, [], data, keys, 0, g);
  }

  lemma OnePattern(es: seq<Element>, p: Pattern)
    requires es == [Match(p)]
    ensures PositivePatterns(es) == [p] && NegativePatterns(es) == []
  {
    assert es[1..] == [];
    assert PositivePatterns(es[1..]) == [] && NegativePatterns(es[1..]) == [];
  }

  lemma NoOverlap(head: seq<Pattern>, body: seq<Pattern>, q: string)
    requires |head| == |body| == 1 && head[0].p == Iri(q) && |q| == 1 && q != "p" && body[0].p == Iri("p")
    ensures !PatternsOverlap(head, body)
  {
    assert PredicateIri(head[0]) == q && PredicateIri(body[0]) == "p" && |"?var"| == 4;
  }

  /** A single rule whose head has another predicate than its body feeds nothing. */
  lemma FromSettles(rules: seq<Rule>, head: Pattern, q: string, data: set<DataTriple>)
    requires rules == [From(head)] && head.p == Iri(q) && |q| == 1 && q != "p"
    ensures ModelIsSure(rules, [], data) && BindFree(rules)
  {
    var rule := rules[0];
    OnePattern(rule.body, rule.body[0].pattern);
    NoOverlap(rule.head, PositivePatterns(rule.body), q);
    assert EdgesOf(rules, rule, 0) == [];
    assert EdgesOf(rules, rule, 1) == [];
    NothingDepends(DepsOf(rules));
    ReadsWell(rule, head);
  }

  lemma NothingDepends(deps: Deps)
    requires |deps| == 1 && deps[0] == []
    ensures !HasNotCycle(deps) && !HasNotCycle(Strict(deps))
  {
    assert Strict(deps)[0] == [];
  }

  lemma ReadsWell(rule: Rule, head: Pattern)
    requires rule == From(head) && ReadableHead(head)
    ensures Analysable(rule)
  {
    OnePattern(rule.body, rule.body[0].pattern);
  }

  /** ?y <q> ?x from ?x <p> ?y: the literal becomes a subject, and evaluation panics. */
  lemma LiteralSubjectPanics(x: Expressions, rules: seq<Rule>, t: DataTriple, data: set<DataTriple>, keys: set<Ground>)
    requires rules == [From(Pattern(Y, Iri("q"), X))] && t == LiteralFact() && data == {t} && Adds(x, rules, [], data, keys)
    ensures BindFree(rules) && PlainTerms(rules, []) && ModelIsSure(rules, [], data)
    ensures !AllWritable(keys) && exists g :: g in keys && LiteralSubject(g)
  {
    var head := Pattern(Y, Iri("q"), X);
    assert "p"[0] != "q"[0];
    FromSettles(rules, head, "q", data);
    var g := Ground(Encode(t.o), Encode(IriTerm("q")), Encode(t.s));
    ToQ(head, t, g);
    ConclusionIsAdded(x, rules, head, t, data, keys, g);
    RoundTrip(t.o);
    assert LiteralSubject(g) && !Writable(g);
  }

  lemma ToQ(head: Pattern, t: DataTriple, g: Ground)
    requires head.p == Iri("q") && t.p == IriTerm("p") && g.p == Encode(IriTerm("q"))
    requires head.s == Y && head.o == X ==> g == Ground(Encode(t.o), Encode(IriTerm("q")), Encode(t.s))
    ensures g != EncodeTriple(t)
    ensures head.s == Y && head.o == X ==> Instantiate(head, map["x" := Encode(t.s), "y" := Encode(t.o)]) == Some(g)
  {
    assert g.p[1] == 'q' && EncodeTriple(t).p[1] == 'p';
    assert "x"[0] != "y"[0];
  }

  /** ?x <q> "l"@EN from ?x <p> ?y: the tag is written in lower case, and the graph returned does
      not complete the model. */
  lemma TagIsChanged(x: Expressions, rules: seq<Rule>, o: Term, t: DataTriple, data: set<DataTriple>, keys: set<Ground>, newLabel: NewLabels, r: Result)
    requires o == Literal("l", "", "EN") && rules == [From(Pattern(X, Iri("q"), o))] && t == LiteralFact() && data == {t}
    requires Adds(x, rules, [], data, keys) && AreLabels(newLabel) && Writes(keys, newLabel, r)
    ensures ModelIsSure(rules, [], data) && !CompletesModel(x, rules, [], data, r)
  {
    var head := Pattern(X, Iri("q"), o);
    assert "p"[0] != "q"[0];
    FromSettles(rules, head, "q", data);
    var g := Ground(Encode(t.s), Encode(IriTerm("q")), TermKey(o));
    ToQ(head, t, g);
    ConclusionIsAdded(x, rules, head, t, data, keys, g);
    UpperCaseIsNotKept(o);
    Conclude(x, rules, [], data, keys, newLabel, r);
  }

  lemma UpperCaseIsNotKept(o: Term)
    requires o == Literal("l", "", "EN")
    ensures !ObjectKey(TermKey(o))
  {
    var d := LiteralTerm("l", "", "EN");
    assert TermKey(o) == Encode(d);
    RoundTrip(d);
    assert DoubleDash("EN"[1..]) == 1;
    assert LanguageOf("EN") == "EN";
    assert Lower("EN")[0] == 'e';
  }

  /** ?x ?y ?x from ?x <p> ?y: the literal becomes a predicate and is written as an IRI, so the
      graph returned does not complete the model. */
  lemma PredicateIsChanged(x: Expressions, rules: seq<Rule>, t: DataTriple, data: set<DataTriple>, keys: set<Ground>, newLabel: NewLabels, r: Result)
    requires rules == [From(Pattern(X, Y, X))] && t == LiteralFact() && data == {t}
    requires Adds(x, rules, [], data, keys) && AreLabels(newLabel) && Writes(keys, newLabel, r)
    ensures ModelIsSure(rules, [], data) && !CompletesModel(x, rules, [], data, r)
  {
    var head := Pattern(X, Y, X);
    FewKeysSettle(rules, t, data);
    var g := Ground(Encode(t.s), Encode(t.o), Encode(t.s));
    assert g.p[0] == '"' && EncodeTriple(t).p[0] == '<';
    assert "x"[0] != "y"[0];
    ConclusionIsAdded(x, rules, head, t, data, keys, g);
    RoundTrip(t.o);
    assert !PredicateKey(g.p);
    Conclude(x, rules, [], data, keys, newLabel, r);
  }

  lemma FewKeysSettle(rules: seq<Rule>, t: DataTriple, data: set<DataTriple>)
    requires rules == [From(Pattern(X, Y, X))] && data == {t}
    ensures ModelIsSure(rules, [], data)
  {
    NoNot(rules, rules[0]);
    FewKeys(rules, EncodeTriple(t), Encoded(data) + BlockTriples([]));
  }

  lemma NoNot(rules: seq<Rule>, rule: Rule)
    requires rules == [rule] && rule == From(Pattern(X, Y, X))
    ensures !HasNotCycle(DepsOf(rules)) && AllAnalysable(rules)
  {
    OnePattern(rule.body, rule.body[0].pattern);
    OnlyPositive(rules, rule, 1);
    assert DepsOf(rules) == [EdgesOf(rules, rule, 1)];
  }

  lemma {:induction false} OnlyPositive(rules: seq<Rule>, rule: Rule, a: nat)
    requires a <= |rules| && NegativePatterns(rule.body) == []
    ensures forall k :: 0 <= k < |EdgesOf(rules, rule, a)| ==> !EdgesOf(rules, rule, a)[k].negative
  {
    if a > 0 {
      OnlyPositive(rules, rule, a - 1);
    }
  }

  lemma FewKeys(rules: seq<Rule>, g: Ground, data: set<Ground>)
    requires rules == [From(Pattern(X, Y, X))] && data == {g}
    ensures Cube(|KeysOf(rules, data)|) <= 27 && BindFree(rules)
  {
    var three := {g.s, g.p, g.o};
    assert HeadKeys(rules) == {};
    assert KeysOf(rules, data) <= three;
    SubsetSize(KeysOf(rules, data), three);
    var n := |KeysOf(rules, data)|;
    assert n == 0 || n == 1 || n == 2 || n == 3;
  }
}
