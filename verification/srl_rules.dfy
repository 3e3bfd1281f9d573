/** SRL rule sets, their matching semantics and the dependencies between rules
    (shacl/srl_ast.go, shacl/srl_eval.go, shacl/srl_stratify.go). */
module SrlRules {
  import opened Common
  import opened Stratification

  datatype Term =
    | Iri(value: string)
    | Variable(name: string)
    | Literal(lexical: string, datatypeIri: string, language: string)
    | BlankNode(id: string)
    | TripleTerm(subj: Term, pred: Term, obj: Term)

  datatype Pattern = Pattern(s: Term, p: Term, o: Term)

  datatype Element =
    | Match(pattern: Pattern)
    | Filter(expr: string)
    | Not(body: seq<Element>)
    | Bind(expr: string, variable: string)

  datatype Rule = Rule(head: seq<Pattern>, body: seq<Element>)

  /** A fully instantiated triple: one string key per term. */
  datatype Ground = Ground(s: string, p: string, o: string)

  type Binding = map<string, string>

  /** What FILTER and BIND expressions mean. Any functions of the expression text and
      the binding will do: nothing below depends on the expression language. */
  datatype Expressions = Expressions(filter: (string, Binding) -> bool, bind: (string, Binding) -> string)

  // ---------------------------------------------------------------------------
  // Keys
  // ---------------------------------------------------------------------------

  function EscapeChar(c: char): string {
    match c
    case '"' => "\\\""
    case '\\' => "\\\\"
    case '\n' => "\\n"
    case '\r' => "\\r"
    case '\t' => "\\t"
    case _ => [c]
  }

  function Escape(text: string): string {
    if text == [] then [] else EscapeChar(text[0]) + Escape(text[1..])
  }

  function TermKey(t: Term): string {
    match t
    case Iri(value) => "<" + value + ">"
    case Variable(_) => ""
    case Literal(lexical, datatypeIri, language) =>
      if language != "" then "\"" + Escape(lexical) + "\"@" + language
      else "\"" + Escape(lexical) + "\"^^<" + datatypeIri + ">"
    case BlankNode(id) => "_:" + id
    case TripleTerm(s, p, o) => "<<(" + TermKey(s) + " " + TermKey(p) + " " + TermKey(o) + ")>>"
  }

  // ---------------------------------------------------------------------------
  // Matching
  // ---------------------------------------------------------------------------

  function MatchTerm(t: Term, key: string, b: Binding): Option<Binding> {
    if t.Variable? then
      if t.name in b then (if b[t.name] == key then Some(b) else None) else Some(b[t.name := key])
    else if TermKey(t) == key then Some(b) else None
  }

  function MatchGround(p: Pattern, g: Ground, b: Binding): Option<Binding> {
    match MatchTerm(p.s, g.s, b)
    case None => None
    case Some(b1) =>
      match MatchTerm(p.p, g.p, b1)
      case None => None
      case Some(b2) => MatchTerm(p.o, g.o, b2)
  }

  function InstantiateTerm(t: Term, b: Binding): Option<string> {
    if t.Variable? then (if t.name in b then Some(b[t.name]) else None) else Some(TermKey(t))
  }

  /** A head triple under a binding; None when a variable is unbound (the code skips
      such a triple). */
  function Instantiate(p: Pattern, b: Binding): Option<Ground> {
    match (InstantiateTerm(p.s, b), InstantiateTerm(p.p, b), InstantiateTerm(p.o, b))
    case (Some(s), Some(p), Some(o)) => Some(Ground(s, p, o))
    case _ => None
  }

  /** `r` solves `es` from `b`: triple patterns are matched in `facts`, every NOT is
      judged against `world`. The engine uses one set for both; keeping them apart is
      what lets stability of NOT be stated. */
  ghost predicate Solves(x: Expressions, facts: iset<Ground>, world: iset<Ground>, es: seq<Element>, b: Binding, r: Binding)
    decreases es
  {
    if es == [] then r == b
    else
      match es[0]
      case Match(p) =>
        exists g :: g in facts && MatchGround(p, g, b).Some? &&
          Solves(x, facts, world, es[1..], MatchGround(p, g, b).value, r)
      case Filter(e) => x.filter(e, b) && Solves(x, facts, world, es[1..], b, r)
      case Not(body) =>
        (!exists n :: Solves(x, world, world, body, b, n)) && Solves(x, facts, world, es[1..], b, r)
      case Bind(e, v) => Solves(x, facts, world, es[1..], b[v := x.bind(e, b)], r)
  }

  // ---------------------------------------------------------------------------
  // Dependencies between rules
  // ---------------------------------------------------------------------------

  function PositivePatterns(es: seq<Element>): seq<Pattern> {
    if es == [] then []
    else (if es[0].Match? then [es[0].pattern] else []) + PositivePatterns(es[1..])
  }

  /** The triple patterns directly inside the NOT blocks of a body. A NOT inside a NOT
      contributes nothing, as in the code. */
  function NegativePatterns(es: seq<Element>): seq<Pattern> {
    if es == [] then []
    else (if es[0].Not? then PositivePatterns(es[0].body) else []) + NegativePatterns(es[1..])
  }

  function PredicateIri(p: Pattern): string {
    match p.p
    case Iri(value) => value
    case Variable(_) => "?var"
    case _ => ""
  }

  predicate PatternsOverlap(head: seq<Pattern>, body: seq<Pattern>) {
    exists h, b :: 0 <= h < |head| && 0 <= b < |body| && PredicateIri(head[h]) != "" &&
      (PredicateIri(head[h]) == PredicateIri(body[b]) || PredicateIri(head[h]) == "?var" || PredicateIri(body[b]) == "?var")
  }

  predicate TermCouldMatch(a: Term, b: Term) {
    a.Variable? || b.Variable? || TermKey(a) == TermKey(b)
  }

  predicate PatternCouldMatch(a: Pattern, b: Pattern) {
    TermCouldMatch(a.s, b.s) && TermCouldMatch(a.p, b.p) && TermCouldMatch(a.o, b.o)
  }

  predicate PatternsCouldMatch(head: seq<Pattern>, negated: seq<Pattern>) {
    exists h, b :: 0 <= h < |head| && 0 <= b < |negated| && PatternCouldMatch(head[h], negated[b])
  }

  /** The edges of `rule` to the first `a` rules. */
  function EdgesOf(rules: seq<Rule>, rule: Rule, a: nat): (r: seq<Edge>)
    requires a <= |rules|
  {
    if a == 0 then []
    else
      EdgesOf(rules, rule, a - 1)
      + (if PatternsOverlap(rules[a - 1].head, PositivePatterns(rule.body)) then [Edge(a - 1, false)] else [])
      + (if PatternsCouldMatch(rules[a - 1].head, NegativePatterns(rule.body)) then [Edge(a - 1, true)] else [])
  }

  function DepsOf(rules: seq<Rule>): (r: Deps) {
    seq(|rules|, b requires 0 <= b < |rules| => EdgesOf(rules, rules[b], |rules|))
  }

  lemma {:induction false} EdgesOfComplete(rules: seq<Rule>, rule: Rule, a: nat)
    requires a <= |rules|
    ensures forall e :: e in EdgesOf(rules, rule, a) ==> e.to < a
    ensures forall i: nat :: i < a && PatternsOverlap(rules[i].head, PositivePatterns(rule.body)) ==>
      Edge(i, false) in EdgesOf(rules, rule, a)
    ensures forall i: nat :: i < a && PatternsCouldMatch(rules[i].head, NegativePatterns(rule.body)) ==>
      Edge(i, true) in EdgesOf(rules, rule, a)
  {
    if a > 0 {
      EdgesOfComplete(rules, rule, a - 1);
    }
  }

  lemma DepsOfWellFormed(rules: seq<Rule>)
    ensures WellFormed(DepsOf(rules))
  {
    forall b, k | 0 <= b < |rules| && 0 <= k < |DepsOf(rules)[b]| ensures DepsOf(rules)[b][k].to < |rules| {
      EdgesOfComplete(rules, rules[b], |rules|);
      assert DepsOf(rules)[b][k] in EdgesOf(rules, rules[b], |rules|);
    }
  }

  /** What a valid level assignment says about two rules. */
  lemma LevelsOrderRules(rules: seq<Rule>, level: Level, b: nat, a: nat)
    requires WellFormed(DepsOf(rules)) && Respects(DepsOf(rules), level)
    requires b < |rules| && a < |rules|
    ensures PatternsOverlap(rules[a].head, PositivePatterns(rules[b].body)) ==> level[a] <= level[b]
    ensures PatternsCouldMatch(rules[a].head, NegativePatterns(rules[b].body)) ==> level[a] < level[b]
  {
    var deps := DepsOf(rules);
    EdgesOfComplete(rules, rules[b], |rules|);
    if PatternsOverlap(rules[a].head, PositivePatterns(rules[b].body)) {
      var k :| 0 <= k < |deps[b]| && deps[b][k] == Edge(a, false);
    }
    if PatternsCouldMatch(rules[a].head, NegativePatterns(rules[b].body)) {
      var k :| 0 <= k < |deps[b]| && deps[b][k] == Edge(a, true);
    }
  }

  // ---------------------------------------------------------------------------
  // Which triples a pattern can see
  // ---------------------------------------------------------------------------

  predicate TermFits(t: Term, key: string) {
    t.Variable? || TermKey(t) == key
  }

  predicate Fits(p: Pattern, g: Ground) {
    TermFits(p.s, g.s) && TermFits(p.p, g.p) && TermFits(p.o, g.o)
  }

  predicate FitsAny(ps: seq<Pattern>, g: Ground) {
    exists i :: 0 <= i < |ps| && Fits(ps[i], g)
  }

  ghost predicate NoNestedNot(es: seq<Element>) {
    forall i, j :: 0 <= i < |es| && es[i].Not? && 0 <= j < |es[i].body| ==> !es[i].body[j].Not?
  }

  /** A body only ever looks at triples its own patterns fit: solutions carry over to
      any facts that keep the fitting ones and any world that agrees on what the NOT
      patterns fit. This is where "NOT inside NOT is not collected" matters. */
  lemma {:induction false} SolvesLocal(x: Expressions, facts: iset<Ground>, world: iset<Ground>,
                                       facts': iset<Ground>, world': iset<Ground>,
                                       es: seq<Element>, b: Binding, r: Binding)
    requires Solves(x, facts, world, es, b, r) && NoNestedNot(es)
    requires forall g :: g in facts && FitsAny(PositivePatterns(es), g) ==> g in facts'
    requires forall g :: FitsAny(NegativePatterns(es), g) ==> (g in world <==> g in world')
    ensures Solves(x, facts', world', es, b, r)
    decreases es
  {
    if es != [] {
      var rest := es[1..];
      assert NoNestedNot(rest) by {
        forall i, j | 0 <= i < |rest| && rest[i].Not? && 0 <= j < |rest[i].body| ensures !rest[i].body[j].Not? {
          assert rest[i] == es[i + 1];
        }
      }
      FitsAnyRest(es);
      match es[0] {
        case Match(p) =>
          var g :| g in facts && MatchGround(p, g, b).Some? &&
            Solves(x, facts, world, rest, MatchGround(p, g, b).value, r);
          assert PositivePatterns(es)[0] == p;
          assert FitsAny(PositivePatterns(es), g);
          SolvesLocal(x, facts, world, facts', world', rest, MatchGround(p, g, b).value, r);
        case Filter(e) =>
          SolvesLocal(x, facts, world, facts', world', rest, b, r);
        case Not(body) =>
          forall n | Solves(x, world', world', body, b, n) ensures Solves(x, world, world, body, b, n) {
            NoNotHasNoNegatives(body);
            SolvesLocal(x, world', world', world, world, body, b, n);
          }
          SolvesLocal(x, facts, world, facts', world', rest, b, r);
        case Bind(e, v) =>
          SolvesLocal(x, facts, world, facts', world', rest, b[v := x.bind(e, b)], r);
      }
    }
  }

  lemma FitsAnyRest(es: seq<Element>)
    requires es != []
    ensures forall g :: FitsAny(PositivePatterns(es[1..]), g) ==> FitsAny(PositivePatterns(es), g)
    ensures forall g :: FitsAny(NegativePatterns(es[1..]), g) ==> FitsAny(NegativePatterns(es), g)
    ensures es[0].Not? ==> forall g :: FitsAny(PositivePatterns(es[0].body), g) ==> FitsAny(NegativePatterns(es), g)
  {
    FitsAnyConcat(if es[0].Match? then [es[0].pattern] else [], PositivePatterns(es[1..]));
    FitsAnyConcat(if es[0].Not? then PositivePatterns(es[0].body) else [], NegativePatterns(es[1..]));
  }

  lemma FitsAnyConcat(ps: seq<Pattern>, qs: seq<Pattern>)
    ensures forall g :: FitsAny(ps, g) || FitsAny(qs, g) ==> FitsAny(ps + qs, g)
  {
    forall g | FitsAny(ps, g) || FitsAny(qs, g) ensures FitsAny(ps + qs, g) {
      if FitsAny(ps, g) {
        var i :| 0 <= i < |ps| && Fits(ps[i], g);
        assert Fits((ps + qs)[i], g);
      } else {
        var i :| 0 <= i < |qs| && Fits(qs[i], g);
        assert Fits((ps + qs)[|ps| + i], g);
      }
    }
  }

  lemma {:induction false} NoNotHasNoNegatives(es: seq<Element>)
    requires forall j :: 0 <= j < |es| ==> !es[j].Not?
    ensures NegativePatterns(es) == []
  {
    if es != [] {
      NoNotHasNoNegatives(es[1..]);
    }
  }

  /** A triple produced by a head and seen by a negated pattern is a negative
      dependency. */
  lemma NegativeEdgeSound(head: Pattern, b: Binding, g: Ground, p: Pattern)
    requires Instantiate(head, b) == Some(g) && Fits(p, g)
    ensures PatternCouldMatch(head, p)
  {
  }

  /** A head the dependency test can read: its predicate is a variable or a non-empty
      IRI. */
  predicate ReadableHead(p: Pattern) {
    p.p.Variable? || (p.p.Iri? && p.p.value != "")
  }

  /** The same triple seen by a positive pattern is a positive dependency, provided the
      head is readable and the pattern's predicate is not a triple term (whose key an
      odd IRI could spell). */
  lemma PositiveEdgeSound(head: Pattern, b: Binding, g: Ground, p: Pattern)
    requires Instantiate(head, b) == Some(g) && Fits(p, g)
    requires ReadableHead(head) && !p.p.TripleTerm?
    ensures PredicateIri(head) != ""
    ensures PredicateIri(head) == PredicateIri(p) || PredicateIri(head) == "?var" || PredicateIri(p) == "?var"
  {
    if head.p.Iri? && !p.p.Variable? {
      assert TermKey(head.p)[0] == '<';
      assert p.p.Iri?;
      assert TermKey(p.p)[1..|TermKey(p.p)| - 1] == p.p.value;
      assert TermKey(head.p)[1..|TermKey(head.p)| - 1] == head.p.value;
    }
  }
}
