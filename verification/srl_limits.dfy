/** A rule whose evaluation no number of rounds completes: BIND makes a new term out of every
    term it meets, so the engine always stops short of the stable model. */
module SrlLimits {
  import opened Common
  import opened Stratification
  import opened SrlRules
  import opened SrlModels
  import opened SrlEngine
  import opened SrlKeys
  import opened SrlTerms
  import opened SrlGraphs

  // ---------------------------------------------------------------------------
  // What BIND computes
  // ---------------------------------------------------------------------------

  predicate IsSpace(c: char) {
    c in {'\t', '\n', '\r', ' '} || (c as int) in {0xB, 0xC, 0x85, 0xA0, 0x1680, 0x2028, 0x2029, 0x202F, 0x205F, 0x3000} ||
    0x2000 <= c as int <= 0x200A
  }

  function Trim(text: string): string {
    if text == "" then ""
    else if IsSpace(text[0]) then Trim(text[1..])
    else if IsSpace(text[|text| - 1]) then Trim(text[..|text| - 1])
    else text
  }

  predicate IsLetter(c: char) {
    'a' <= c <= 'z' || 'A' <= c <= 'Z' || c == '_'
  }

  predicate IsWord(c: char) {
    IsLetter(c) || '0' <= c <= '9'
  }

  /** The length of the longest run of word characters at the start. */
  function WordLength(text: string): (n: nat)
    ensures n <= |text|
  {
    if text == "" || !IsWord(text[0]) then 0 else 1 + WordLength(text[1..])
  }

  /** A question mark, a letter and the word characters after it are a variable; it is replaced
      by what it is bound to, if anything. */
  function Substitute(text: string, b: Binding): string
    decreases |text|
  {
    if text == "" then ""
    else if text[0] == '?' && |text| > 1 && IsLetter(text[1]) then
      var n := 1 + WordLength(text[2..]);
      var name := text[1..1 + n];
      (if name in b then b[name] else text[..1 + n]) + Substitute(text[1 + n..], b)
    else [text[0]] + Substitute(text[1..], b)
  }

  function EvalBind(e: string, b: Binding): string {
    Substitute(Trim(e), b)
  }

  /** The engine's expressions, whatever FILTER does. */
  ghost predicate BindsAsCoded(x: Expressions) {
    forall e, b :: x.bind(e, b) == EvalBind(e, b)
  }

  lemma PrefixedWithOne(b: Binding)
    requires "y" in b
    ensures EvalBind("1?y", b) == "1" + b["y"]
  {
    var text, rest := "1?y", "?y";
    assert text[0] == '1' && text[1..] == rest && Trim(text) == text;
    assert rest[0] == '?' && rest[1] == 'y' && rest[2..] == "" && rest[1..2] == "y";
    assert Substitute(rest, b) == b["y"] + Substitute(rest[2..], b);
  }

  // ---------------------------------------------------------------------------
  // The rule and what it builds
  // ---------------------------------------------------------------------------

  /** From ?x <p> ?y conclude ?x <p> ?z, where ?z is ?y with a 1 in front. */
  function Successor(): Rule {
    Rule([Pattern(Variable("x"), Iri("p"), Variable("z"))],
         [Match(Pattern(Variable("x"), Iri("p"), Variable("y"))), Bind("1?y", "z")])
  }

  function Start(): set<DataTriple> {
    {DataTriple(IriTerm("a"), IriTerm("p"), IriTerm("b"))}
  }

  function Ones(n: nat): (r: string)
    ensures |r| == n
  {
    if n == 0 then "" else "1" + Ones(n - 1)
  }

  function Floor(n: nat): (g: Ground)
    ensures |g.o| == n + 3
  {
    Ground("<a>", "<p>", Ones(n) + "<b>")
  }

  ghost predicate IsFloor(g: Ground, n: nat) {
    exists k: nat :: k <= n && g == Floor(k)
  }

  ghost function Tower(n: nat): iset<Ground> {
    iset g | IsFloor(g, n)
  }

  lemma StartIsFloor()
    ensures Lift(Encoded(Start())) == Tower(0)
  {
    var t := DataTriple(IriTerm("a"), IriTerm("p"), IriTerm("b"));
    assert EncodeTriple(t) == Ground("<a>", "<p>", "<b>");
    assert Ones(0) + "<b>" == "<b>";
    assert Floor(0) == EncodeTriple(t);
    forall g ensures g in Lift(Encoded(Start())) <==> IsFloor(g, 0) {
      assert IsFloor(g, 0) <==> g == Floor(0);
    }
  }

  /** What matching the body's pattern binds. */
  lemma PatternBinds(p: Pattern, h: Ground)
    requires p == Pattern(Variable("x"), Iri("p"), Variable("y"))
    ensures MatchGround(p, h, map[]) == if h.p == "<p>" then Some(map["x" := h.s, "y" := h.o]) else None
  {
    assert "x"[0] != "y"[0];
    assert TermKey(p.p) == "<p>";
  }

  lemma BindLast(x: Expressions, facts: iset<Ground>, world: iset<Ground>, es: seq<Element>, m: Binding, b: Binding)
    requires BindsAsCoded(x) && es == [Bind("1?y", "z")] && "y" in m
    ensures Solves(x, facts, world, es, m, b) <==> b == m["z" := "1" + m["y"]]
  {
    PrefixedWithOne(m);
    assert es[1..] == [];
  }

  lemma HeadInstance(head: Pattern, h: Ground)
    requires head == Pattern(Variable("x"), Iri("p"), Variable("z"))
    ensures Instantiate(head, map["x" := h.s, "y" := h.o]["z" := "1" + h.o]) == Some(Ground(h.s, "<p>", "1" + h.o))
  {
    assert "x"[0] != "z"[0];
    assert TermKey(head.p) == "<p>";
  }

  lemma SuccessorDerived(x: Expressions, rule: Rule, facts: iset<Ground>, world: iset<Ground>, g: Ground) returns (h: Ground)
    requires BindsAsCoded(x) && rule == Successor() && Derives(x, rule, facts, world, g)
    ensures h in facts && h.p == "<p>" && g == Ground(h.s, "<p>", "1" + h.o)
  {
    var es := rule.body;
    var b, k :| Solves(x, facts, world, es, map[], b) && 0 <= k < |rule.head| && Instantiate(rule.head[k], b) == Some(g);
    var p := es[0].pattern;
    h :| h in facts && MatchGround(p, h, map[]).Some? && Solves(x, facts, world, es[1..], MatchGround(p, h, map[]).value, b);
    PatternBinds(p, h);
    BindLast(x, facts, world, es[1..], MatchGround(p, h, map[]).value, b);
    HeadInstance(rule.head[0], h);
  }

  lemma SuccessorDerives(x: Expressions, rule: Rule, facts: iset<Ground>, world: iset<Ground>, h: Ground)
    requires BindsAsCoded(x) && rule == Successor() && h in facts && h.p == "<p>"
    ensures Derives(x, rule, facts, world, Ground(h.s, "<p>", "1" + h.o))
  {
    var es := rule.body;
    var p := es[0].pattern;
    PatternBinds(p, h);
    var m := MatchGround(p, h, map[]).value;
    var b := m["z" := "1" + h.o];
    BindLast(x, facts, world, es[1..], m, b);
    assert Solves(x, facts, world, es, map[], b);
    HeadInstance(rule.head[0], h);
  }

  lemma NextFloorUp(n: nat)
    ensures Floor(n + 1) == Ground("<a>", "<p>", "1" + Floor(n).o)
  {
    assert "1" + Ones(n) + "<b>" == "1" + (Ones(n) + "<b>");
  }

  lemma NextFloor(x: Expressions, rules: seq<Rule>, n: nat, g: Ground)
    requires BindsAsCoded(x) && rules == [Successor()]
    ensures IsFloor(g, n) || Consequence(x, rules, {0}, Tower(n), g) <==> IsFloor(g, n + 1)
  {
    if Consequence(x, rules, {0}, Tower(n), g) {
      DerivedIsFloor(x, rules[0], n, g);
    }
    if IsFloor(g, n + 1) && !IsFloor(g, n) {
      var k: nat :| k <= n + 1 && g == Floor(k);
      FloorIsDerived(x, rules[0], n, Tower(n));
      OnlyRule(x, rules, Tower(n), Floor(n + 1));
      assert k == n + 1;
    }
  }

  lemma OnlyRule(x: Expressions, rules: seq<Rule>, facts: iset<Ground>, g: Ground)
    requires |rules| == 1 && Derives(x, rules[0], facts, facts, g)
    ensures Consequence(x, rules, {0}, facts, g)
  {
    var i: nat := 0;
    assert i in {0} && Derives(x, rules[i], facts, facts, g);
  }

  lemma DerivedIsFloor(x: Expressions, rule: Rule, n: nat, g: Ground)
    requires BindsAsCoded(x) && rule == Successor() && Derives(x, rule, Tower(n), Tower(n), g)
    ensures IsFloor(g, n + 1)
  {
    var h := SuccessorDerived(x, rule, Tower(n), Tower(n), g);
    var k: nat :| k <= n && h == Floor(k);
    NextFloorUp(k);
    assert k + 1 <= n + 1 && g == Floor(k + 1);
  }

  lemma FloorIsDerived(x: Expressions, rule: Rule, n: nat, facts: iset<Ground>)
    requires BindsAsCoded(x) && rule == Successor() && Floor(n) in facts
    ensures Derives(x, rule, facts, facts, Floor(n + 1))
  {
    NextFloorUp(n);
    SuccessorDerives(x, rule, facts, facts, Floor(n));
  }

  lemma OneRound(x: Expressions, rules: seq<Rule>, n: nat)
    requires BindsAsCoded(x) && rules == [Successor()]
    ensures Tower(n) + Consequences(x, rules, {0}, Tower(n)) == Tower(n + 1)
  {
    forall g ensures g in Tower(n) + Consequences(x, rules, {0}, Tower(n)) <==> g in Tower(n + 1) {
      NextFloor(x, rules, n, g);
    }
  }

  lemma {:induction false} RoundsFollow(x: Expressions, rules: seq<Rule>, which: set<nat>, stages: seq<iset<Ground>>, n: nat)
    requires n < |stages|
    requires forall i :: 0 <= i < |stages| - 1 ==> stages[i + 1] == stages[i] + Consequences(x, rules, which, stages[i])
    ensures Rounds(x, rules, which, stages[0], n) == stages[n]
  {
    if n > 0 {
      RoundsFollow(x, rules, which, stages, n - 1);
      assert stages[n - 1 + 1] == stages[n - 1] + Consequences(x, rules, which, stages[n - 1]);
    }
  }

  lemma RoundsBuildTower(x: Expressions, rules: seq<Rule>, n: nat)
    requires BindsAsCoded(x) && rules == [Successor()]
    ensures Rounds(x, rules, {0}, Tower(0), n) == Tower(n)
  {
    var stages := seq(n + 1, i requires 0 <= i <= n => Tower(i));
    forall i | 0 <= i < |stages| - 1 ensures stages[i + 1] == stages[i] + Consequences(x, rules, {0}, stages[i]) {
      OneRound(x, rules, i);
    }
    RoundsFollow(x, rules, {0}, stages, n);
  }

  /** However many rounds a stratum is given, it has not reached its fixed point. */
  lemma NoRoundIsLast(x: Expressions, rules: seq<Rule>, n: nat)
    requires BindsAsCoded(x) && rules == [Successor()]
    ensures var end := Rounds(x, rules, {0}, Lift(Encoded(Start())), n); !Closed(x, rules, {0}, end, end)
  {
    StartIsFloor();
    RoundsBuildTower(x, rules, n);
    TowerIsOpen(x, rules, n);
  }

  lemma TowerIsOpen(x: Expressions, rules: seq<Rule>, n: nat)
    requires BindsAsCoded(x) && rules == [Successor()]
    ensures !Closed(x, rules, {0}, Tower(n), Tower(n))
  {
    FloorIsDerived(x, rules[0], n, Tower(n));
    var g := Floor(n + 1);
    forall k: nat | k <= n ensures Floor(k) != g {
      assert |Floor(k).o| == k + 3;
    }
    assert g !in Tower(n);
  }

  lemma {:induction false} NoNegativeEdges(rules: seq<Rule>, rule: Rule, a: nat)
    requires a <= |rules| && NegativePatterns(rule.body) == []
    ensures forall e :: e in EdgesOf(rules, rule, a) ==> !e.negative
  {
    if a > 0 {
      NoNegativeEdges(rules, rule, a - 1);
    }
  }

  lemma SuccessorIsAccepted(rules: seq<Rule>)
    requires rules == [Successor()]
    ensures WellFormed(DepsOf(rules)) && Levels(DepsOf(rules)) == Accepted([0])
  {
    DepsOfWellFormed(rules);
    var deps := DepsOf(rules);
    var body := rules[0].body;
    assert body[1..] == [Bind("1?y", "z")] && body[1..][1..] == [];
    assert NegativePatterns(body) == [];
    NoNegativeEdges(rules, rules[0], 1);
    EdgesOfComplete(rules, rules[0], 1);
    assert Respects(deps, [0]);
    StratifiableIsAccepted(deps);
    assert Below(Levels(deps).level, [0]);
  }

  /** The engine accepts the rule and reports no error, yet from one triple of IRIs it returns
      a set that is not a stable model. */
  lemma CutRunIsNotStable(x: Expressions, rules: seq<Rule>)
    requires BindsAsCoded(x) && rules == [Successor()]
    ensures WellFormed(DepsOf(rules)) && Levels(DepsOf(rules)).Accepted?
    ensures var level, data := Levels(DepsOf(rules)).level, Lift(Encoded(Start()));
      !StableModel(x, rules, data, CappedRun(x, rules, level, data, Top(level)))
  {
    SuccessorIsAccepted(rules);
    NoRoundIsLast(x, rules, MAX_ROUNDS);
    OneStratum(x, rules, Levels(DepsOf(rules)).level, Lift(Encoded(Start())));
  }

  /** With one rule at level 0 the whole run is the one stratum, and stable means closed. */
  lemma OneStratum(x: Expressions, rules: seq<Rule>, level: Level, data: iset<Ground>)
    requires |rules| == 1 && level == [0]
    ensures CappedRun(x, rules, level, data, Top(level)) == Rounds(x, rules, {0}, data, MAX_ROUNDS)
    ensures forall m :: StableModel(x, rules, data, m) ==> Closed(x, rules, {0}, m, m)
  {
    assert level[1..] == [];
    assert At(level, 0) == {0} == Indices(|rules|);
    assert Top(level[1..]) == 0;
    var s: nat := 0;
    assert CappedRun(x, rules, level, data, s) == data;
    assert Top(level) == s + 1;
  }
}
