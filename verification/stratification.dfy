/** Level assignment over a rule dependency graph (shacl/srl_stratify.go:43-90).

    A rule `b` has an edge to every rule it depends on; an edge is negative when
    the dependency goes through a NOT. `Levels` is the loop of `Stratify` as the
    code runs it: relaxation passes over one shared sequence, at most n + 1 of
    them, an overflow test after each changing pass, and a last test that looks at
    negative edges only. */
module Stratification {
  import opened Common

  datatype Edge = Edge(to: nat, negative: bool)

  type Deps = seq<seq<Edge>>

  type Level = seq<nat>

  datatype Outcome = Accepted(level: Level) | NotStratifiable

  predicate WellFormed(deps: Deps) {
    forall b, k :: 0 <= b < |deps| && 0 <= k < |deps[b]| ==> deps[b][k].to < |deps|
  }

  function Weight(e: Edge): nat {
    if e.negative then 1 else 0
  }

  /** `level` places every rule at or above what it depends on, and strictly above
      what it negates. */
  ghost predicate Respects(deps: Deps, level: Level)
    requires WellFormed(deps)
  {
    |level| == |deps| &&
    forall b, k :: 0 <= b < |deps| && 0 <= k < |deps[b]| ==>
      level[deps[b][k].to] + Weight(deps[b][k]) <= level[b]
  }

  ghost predicate Stratifiable(deps: Deps)
    requires WellFormed(deps)
  {
    exists level :: Respects(deps, level)
  }

  ghost predicate Below(low: Level, high: Level) {
    |low| == |high| && forall b :: 0 <= b < |low| ==> low[b] <= high[b]
  }

  /** The pointwise least assignment that respects the dependencies. */
  ghost predicate IsLeast(deps: Deps, level: Level)
    requires WellFormed(deps)
  {
    Respects(deps, level) &&
    forall other :: Respects(deps, other) ==> Below(level, other)
  }

  // ---------------------------------------------------------------------------
  // The loop, as functions
  // ---------------------------------------------------------------------------

  function RelaxEdge(level: Level, b: nat, e: Edge): (r: Level)
    requires b < |level| && e.to < |level|
  {
    if level[b] < level[e.to] + Weight(e) then level[b := level[e.to] + Weight(e)] else level
  }

  /** Relaxes the first `k` edges of rule `b`, in order. */
  function RelaxRule(deps: Deps, level: Level, b: nat, k: nat): (r: Level)
    requires WellFormed(deps) && |level| == |deps| && b < |deps| && k <= |deps[b]|
    ensures Below(level, r)
    ensures forall c :: 0 <= c < |level| && c != b ==> r[c] == level[c]
  {
    if k == 0 then level else RelaxEdge(RelaxRule(deps, level, b, k - 1), b, deps[b][k - 1])
  }

  /** Relaxes the rules `0..b`, in order, over the same sequence. */
  function Pass(deps: Deps, level: Level, b: nat): (r: Level)
    requires WellFormed(deps) && |level| == |deps| && b <= |deps|
    ensures Below(level, r)
    ensures forall c :: b <= c < |level| ==> r[c] == level[c]
  {
    if b == 0 then level
    else
      var before := Pass(deps, level, b - 1);
      RelaxRule(deps, before, b - 1, |deps[b - 1]|)
  }

  predicate Overflows(level: Level) {
    exists b :: 0 <= b < |level| && level[b] > |level|
  }

  function Iterate(deps: Deps, level: Level, passes: nat): (r: Outcome)
    requires WellFormed(deps) && |level| == |deps|
    ensures r.Accepted? ==> |r.level| == |deps|
    decreases passes
  {
    if passes == 0 then Accepted(level)
    else
      var next := Pass(deps, level, |deps|);
      if next == level then Accepted(level)
      else if Overflows(next) then NotStratifiable
      else Iterate(deps, next, passes - 1)
  }

  predicate NegativeEdgesDescend(deps: Deps, level: Level)
    requires WellFormed(deps) && |level| == |deps|
  {
    forall b, k :: 0 <= b < |deps| && 0 <= k < |deps[b]| && deps[b][k].negative ==>
      level[deps[b][k].to] < level[b]
  }

  function Zeros(n: nat): (r: Level) {
    seq(n, _ => 0)
  }

  function Levels(deps: Deps): (r: Outcome)
    requires WellFormed(deps)
    ensures r.Accepted? ==> |r.level| == |deps|
  {
    var settled := Iterate(deps, Zeros(|deps|), |deps| + 1);
    if settled.Accepted? && !NegativeEdgesDescend(deps, settled.level) then NotStratifiable else settled
  }

  // ---------------------------------------------------------------------------
  // The loop, in place
  // ---------------------------------------------------------------------------

  /** The edges of one rule, relaxed in order over the shared `strata` buffer. */
  method RelaxInPlace(deps: Deps, b: nat, strata: array<nat>) returns (changed: bool)
    requires WellFormed(deps) && strata.Length == |deps| && b < |deps|
    modifies strata
    ensures strata[..] == RelaxRule(deps, old(strata[..]), b, |deps[b]|)
    ensures changed <==> strata[..] != old(strata[..])
  {
    changed := false;
    ghost var entry := strata[..];
    for k := 0 to |deps[b]|
      invariant strata[..] == RelaxRule(deps, entry, b, k)
      invariant changed <==> strata[..] != entry
    {
      ghost var here := strata[..];
      var e := deps[b][k];
      var required := strata[e.to] + Weight(e);
      if strata[b] < required {
        strata[b] := required;
        changed := true;
        assert strata[..][b] > here[b] >= entry[b];
      }
      assert strata[..] == RelaxEdge(here, b, e);
    }
  }

  lemma RisesStay(low: Level, mid: Level, high: Level)
    requires Below(low, mid) && Below(mid, high)
    ensures high == low <==> mid == low && high == mid
  {
    if high == low {
      assert forall b :: 0 <= b < |low| ==> mid[b] == low[b];
    }
  }

  /** One pass of the refinement. */
  method RunPass(deps: Deps, strata: array<nat>) returns (changed: bool)
    requires WellFormed(deps) && strata.Length == |deps|
    modifies strata
    ensures strata[..] == Pass(deps, old(strata[..]), |deps|)
    ensures changed <==> strata[..] != old(strata[..])
  {
    changed := false;
    ghost var before := strata[..];
    for b := 0 to |deps|
      invariant strata[..] == Pass(deps, before, b)
      invariant changed <==> strata[..] != before
    {
      ghost var entry := strata[..];
      var risen := RelaxInPlace(deps, b, strata);
      RisesStay(before, entry, strata[..]);
      changed := changed || risen;
    }
  }

  method RunPasses(deps: Deps) returns (r: Outcome)
    requires WellFormed(deps)
    ensures r == Iterate(deps, Zeros(|deps|), |deps| + 1)
  {
    var n := |deps|;
    var strata := new nat[n](_ => 0);
    assert strata[..] == Zeros(n);
    var iter := 0;
    while iter < n + 1
      invariant iter <= n + 1
      invariant Iterate(deps, Zeros(n), n + 1) == Iterate(deps, strata[..], n + 1 - iter)
    {
      var changed := RunPass(deps, strata);
      if !changed {
        break;
      }
      if exists b :: 0 <= b < n && strata[b] > n {
        assert Overflows(strata[..]);
        return NotStratifiable;
      }
      assert !Overflows(strata[..]);
      iter := iter + 1;
    }
    r := Accepted(strata[..]);
  }

  method CheckNegativeEdges(deps: Deps, strata: Level) returns (ok: bool)
    requires WellFormed(deps) && |strata| == |deps|
    ensures ok <==> NegativeEdgesDescend(deps, strata)
  {
    for b := 0 to |deps|
      invariant forall c, k :: 0 <= c < b && 0 <= k < |deps[c]| && deps[c][k].negative ==>
        strata[deps[c][k].to] < strata[c]
    {
      for k := 0 to |deps[b]|
        invariant forall j :: 0 <= j < k && deps[b][j].negative ==> strata[deps[b][j].to] < strata[b]
      {
        if deps[b][k].negative && strata[b] <= strata[deps[b][k].to] {
          return false;
        }
      }
    }
    ok := true;
  }

  method AssignLevels(deps: Deps) returns (r: Outcome)
    requires WellFormed(deps)
    ensures r == Levels(deps)
  {
    r := RunPasses(deps);
    if r.Accepted? {
      var ok := CheckNegativeEdges(deps, r.level);
      if !ok {
        r := NotStratifiable;
      }
    }
  }

  // ---------------------------------------------------------------------------
  // One pass
  // ---------------------------------------------------------------------------

  lemma {:induction false} RelaxRuleSettles(deps: Deps, level: Level, b: nat, k: nat, j: nat)
    requires WellFormed(deps) && |level| == |deps| && b < |deps| && j < k <= |deps[b]|
    requires deps[b][j].to != b
    ensures level[deps[b][j].to] + Weight(deps[b][j]) <= RelaxRule(deps, level, b, k)[b]
  {
    if j < k - 1 {
      RelaxRuleSettles(deps, level, b, k - 1, j);
    }
  }

  /** A pass never rises above an assignment that respects the dependencies. */
  lemma {:induction false} RelaxRuleBelow(deps: Deps, level: Level, b: nat, k: nat, bound: Level)
    requires WellFormed(deps) && |level| == |deps| && b < |deps| && k <= |deps[b]|
    requires Respects(deps, bound) && Below(level, bound)
    ensures Below(RelaxRule(deps, level, b, k), bound)
  {
    if k > 0 {
      RelaxRuleBelow(deps, level, b, k - 1, bound);
    }
  }

  lemma {:induction false} PassBelow(deps: Deps, level: Level, b: nat, bound: Level)
    requires WellFormed(deps) && |level| == |deps| && b <= |deps|
    requires Respects(deps, bound) && Below(level, bound)
    ensures Below(Pass(deps, level, b), bound)
  {
    if b > 0 {
      PassBelow(deps, level, b - 1, bound);
      RelaxRuleBelow(deps, Pass(deps, level, b - 1), b - 1, |deps[b - 1]|, bound);
    }
  }

  /** Relaxation only stops moving when every edge of the rule is satisfied. */
  lemma {:induction false} RelaxRuleStill(deps: Deps, level: Level, b: nat, k: nat)
    requires WellFormed(deps) && |level| == |deps| && b < |deps| && k <= |deps[b]|
    requires RelaxRule(deps, level, b, k) == level
    ensures forall j :: 0 <= j < k ==> level[deps[b][j].to] + Weight(deps[b][j]) <= level[b]
  {
    if k > 0 {
      var before := RelaxRule(deps, level, b, k - 1);
      assert before == level by {
        forall c | 0 <= c < |level| ensures before[c] == level[c] {}
      }
      RelaxRuleStill(deps, level, b, k - 1);
    }
  }

  lemma {:induction false} PassStill(deps: Deps, level: Level, b: nat)
    requires WellFormed(deps) && |level| == |deps| && b <= |deps|
    requires Pass(deps, level, b) == level
    ensures forall c, k :: 0 <= c < b && 0 <= k < |deps[c]| ==>
      level[deps[c][k].to] + Weight(deps[c][k]) <= level[c]
  {
    if b > 0 {
      var before := Pass(deps, level, b - 1);
      assert before == level by {
        forall c | 0 <= c < |level| ensures before[c] == level[c] {}
      }
      PassStill(deps, level, b - 1);
      RelaxRuleStill(deps, level, b - 1, |deps[b - 1]|);
    }
  }

  lemma UnchangedPassRespects(deps: Deps, level: Level)
    requires WellFormed(deps) && |level| == |deps|
    requires Pass(deps, level, |deps|) == level
    ensures Respects(deps, level)
  {
    PassStill(deps, level, |deps|);
  }

  // ---------------------------------------------------------------------------
  // The least assignment
  // ---------------------------------------------------------------------------

  ghost function Sum(level: Level): nat {
    if level == [] then 0 else level[0] + Sum(level[1..])
  }

  ghost function Meet(a: Level, b: Level): (r: Level)
    requires |a| == |b|
  {
    seq(|a|, i requires 0 <= i < |a| => if a[i] < b[i] then a[i] else b[i])
  }

  lemma {:induction false} SumStrict(low: Level, high: Level, at: nat)
    requires Below(low, high) && at < |low| && low[at] < high[at]
    ensures Sum(low) < Sum(high)
  {
    if at == 0 {
      SumMonotone(low[1..], high[1..]);
    } else {
      SumStrict(low[1..], high[1..], at - 1);
    }
  }

  lemma {:induction false} SumMonotone(low: Level, high: Level)
    requires Below(low, high)
    ensures Sum(low) <= Sum(high)
  {
    if low != [] {
      SumMonotone(low[1..], high[1..]);
    }
  }

  lemma {:induction false} LeastExists(deps: Deps, level: Level) returns (least: Level)
    requires WellFormed(deps) && Respects(deps, level)
    ensures IsLeast(deps, least)
    decreases Sum(level)
  {
    if IsLeast(deps, level) {
      least := level;
    } else {
      var other :| Respects(deps, other) && !Below(level, other);
      var meet := Meet(level, other);
      var at :| 0 <= at < |level| && other[at] < level[at];
      SumStrict(meet, level, at);
      assert Respects(deps, meet);
      least := LeastExists(deps, meet);
    }
  }

  ghost function Under(level: Level, b: nat): set<nat>
    requires b < |level|
  {
    set a: nat | a < |level| && level[a] < level[b]
  }

  ghost function Indices(n: nat): (r: set<nat>)
    ensures forall a: nat :: a in r <==> a < n
    ensures |r| == n
  {
    if n == 0 then {} else Indices(n - 1) + {n - 1}
  }

  lemma ProperSubsetSize<T>(a: set<T>, b: set<T>, x: T)
    requires a <= b && x in b && x !in a
    ensures |a| < |b|
  {
    SubsetSize(a + {x}, b);
  }

  /** Counting the rules below a rule squeezes any valid assignment under n, so the
      overflow test of the loop never fires on a stratifiable rule set. */
  lemma LeastIsSmall(deps: Deps, least: Level, b: nat)
    requires WellFormed(deps) && IsLeast(deps, least) && b < |deps|
    ensures least[b] < |deps|
  {
    var squeezed := seq(|deps|, c requires 0 <= c < |deps| => |Under(least, c)|);
    forall c, k | 0 <= c < |deps| && 0 <= k < |deps[c]|
      ensures squeezed[deps[c][k].to] + Weight(deps[c][k]) <= squeezed[c]
    {
      var a := deps[c][k].to;
      if deps[c][k].negative {
        ProperSubsetSize(Under(least, a), Under(least, c), a);
      } else {
        SubsetSize(Under(least, a), Under(least, c));
      }
    }
    assert Respects(deps, squeezed);
    ProperSubsetSize(Under(least, b), Indices(|deps|), b);
  }

  // ---------------------------------------------------------------------------
  // Convergence
  // ---------------------------------------------------------------------------

  ghost function Unsettled(level: Level, least: Level): set<nat>
    requires |level| == |least|
  {
    set b: nat | b < |level| && level[b] < least[b]
  }

  lemma {:induction false} PassKeepsRelaxed(deps: Deps, level: Level, b: nat, upTo: nat)
    requires WellFormed(deps) && |level| == |deps| && b < upTo <= |deps|
    ensures Pass(deps, level, upTo)[b] == RelaxRule(deps, Pass(deps, level, b), b, |deps[b]|)[b]
  {
    if b < upTo - 1 {
      PassKeepsRelaxed(deps, level, b, upTo - 1);
    }
  }

  /** Every pass over an assignment still below the least one settles a rule: were
      none settled, lowering every unsettled rule by one would give a smaller valid
      assignment. */
  lemma PassSettlesOne(deps: Deps, level: Level, least: Level)
    requires WellFormed(deps) && IsLeast(deps, least) && Below(level, least) && level != least
    ensures var next := Pass(deps, level, |deps|);
      Below(next, least) && |Unsettled(next, least)| < |Unsettled(level, least)|
  {
    var next := Pass(deps, level, |deps|);
    PassBelow(deps, level, |deps|, least);
    assert Unsettled(next, least) <= Unsettled(level, least);
    if Unsettled(next, least) == Unsettled(level, least) {
      var stuck := Unsettled(level, least);
      assert stuck != {} by {
        var b :| 0 <= b < |level| && level[b] != least[b];
        assert b in stuck;
      }
      var lower := seq(|deps|, c requires 0 <= c < |deps| => if c in stuck then least[c] - 1 else least[c]);
      assert !Below(least, lower) by {
        var b :| b in stuck;
        assert lower[b] < least[b];
      }
      forall b, k | 0 <= b < |deps| && 0 <= k < |deps[b]|
        ensures lower[deps[b][k].to] + Weight(deps[b][k]) <= lower[b]
      {
        var a := deps[b][k].to;
        assert least[a] + Weight(deps[b][k]) <= least[b];
        if b in stuck && a !in stuck {
          PassKeepsRelaxed(deps, level, b, |deps|);
          RelaxRuleSettles(deps, Pass(deps, level, b), b, |deps[b]|, k);
          assert b in Unsettled(next, least);
        }
      }
      assert Respects(deps, lower);
      assert false;
    } else {
      var b :| b in Unsettled(level, least) && b !in Unsettled(next, least);
      ProperSubsetSize(Unsettled(next, least), Unsettled(level, least), b);
    }
  }

  lemma UnchangedIsLeast(deps: Deps, level: Level, least: Level)
    requires WellFormed(deps) && IsLeast(deps, least) && Below(level, least) && Pass(deps, level, |deps|) == level
    ensures level == least
  {
    UnchangedPassRespects(deps, level);
    assert forall b :: 0 <= b < |level| ==> level[b] == least[b];
  }

  lemma ChangingPassAdvances(deps: Deps, level: Level, least: Level)
    requires WellFormed(deps) && IsLeast(deps, least) && Below(level, least) && Pass(deps, level, |deps|) != level
    ensures var next := Pass(deps, level, |deps|);
      Below(next, least) && |Unsettled(next, least)| < |Unsettled(level, least)| && !Overflows(next)
  {
    var next := Pass(deps, level, |deps|);
    PassBelow(deps, level, |deps|, least);
    if level == least {
      RisesStay(level, next, least);
    }
    PassSettlesOne(deps, level, least);
    forall b | 0 <= b < |next| ensures next[b] <= |next| {
      LeastIsSmall(deps, least, b);
    }
  }

  lemma {:induction false} IterateReachesLeast(deps: Deps, level: Level, passes: nat, least: Level)
    requires WellFormed(deps) && IsLeast(deps, least) && Below(level, least)
    requires |Unsettled(level, least)| < passes
    ensures Iterate(deps, level, passes) == Accepted(least)
    decreases passes
  {
    var next := Pass(deps, level, |deps|);
    if next == level {
      UnchangedIsLeast(deps, level, least);
    } else {
      ChangingPassAdvances(deps, level, least);
      IterateReachesLeast(deps, next, passes - 1, least);
    }
  }

  /** On every stratifiable rule set the loop ends in an unchanged pass within its
      n + 1 passes and returns the pointwise least assignment; it never errs. */
  lemma StratifiableIsAccepted(deps: Deps)
    requires WellFormed(deps) && Stratifiable(deps)
    ensures Levels(deps).Accepted? && IsLeast(deps, Levels(deps).level)
  {
    var level :| Respects(deps, level);
    var least := LeastExists(deps, level);
    var start := Zeros(|deps|);
    SubsetSize(Unsettled(start, least), Indices(|deps|));
    IterateReachesLeast(deps, start, |deps| + 1, least);
  }

  // ---------------------------------------------------------------------------
  // Cycles through NOT
  // ---------------------------------------------------------------------------

  ghost predicate HasEdge(deps: Deps, b: nat, a: nat) {
    b < |deps| && exists k :: 0 <= k < |deps[b]| && deps[b][k].to == a
  }

  ghost predicate IsWalk(deps: Deps, w: seq<nat>) {
    w != [] && w[0] < |deps| && forall i :: 0 <= i < |w| - 1 ==> HasEdge(deps, w[i], w[i + 1])
  }

  ghost predicate Reaches(deps: Deps, b: nat, a: nat) {
    exists w :: IsWalk(deps, w) && w[0] == b && w[|w| - 1] == a
  }

  /** Some rule negates a rule that depends on it again. */
  ghost predicate HasNotCycle(deps: Deps) {
    exists b: nat, k: nat :: b < |deps| && k < |deps[b]| && deps[b][k].negative && Reaches(deps, deps[b][k].to, b)
  }

  lemma {:induction false} LevelsFallAlongWalks(deps: Deps, level: Level, w: seq<nat>)
    requires WellFormed(deps) && Respects(deps, level) && IsWalk(deps, w)
    ensures w[|w| - 1] < |deps| && level[w[|w| - 1]] <= level[w[0]]
  {
    if |w| > 1 {
      assert HasEdge(deps, w[0], w[1]);
      forall i | 0 <= i < |w| - 2 ensures HasEdge(deps, w[1..][i], w[1..][i + 1]) {
        assert HasEdge(deps, w[i + 1], w[i + 2]);
      }
      LevelsFallAlongWalks(deps, level, w[1..]);
    }
  }

  ghost predicate ReachesThroughNot(deps: Deps, b: nat, a: nat) {
    exists x: nat, k: nat :: x < |deps| && k < |deps[x]| && deps[x][k].negative &&
      Reaches(deps, b, x) && Reaches(deps, deps[x][k].to, a)
  }

  ghost function ThroughNot(deps: Deps, b: nat): set<nat> {
    set a: nat | a < |deps| && ReachesThroughNot(deps, b, a)
  }

  lemma StepThenReach(deps: Deps, b: nat, c: nat, a: nat)
    requires HasEdge(deps, b, c) && Reaches(deps, c, a)
    ensures Reaches(deps, b, a)
  {
    var w :| IsWalk(deps, w) && w[0] == c && w[|w| - 1] == a;
    var longer := [b] + w;
    assert forall i :: 0 <= i < |longer| - 1 ==> HasEdge(deps, longer[i], longer[i + 1]);
    assert longer[|longer| - 1] == a;
  }

  lemma ReachTransitive(deps: Deps, b: nat, c: nat, a: nat)
    requires Reaches(deps, b, c) && Reaches(deps, c, a)
    ensures Reaches(deps, b, a)
  {
    var v :| IsWalk(deps, v) && v[0] == b && v[|v| - 1] == c;
    var w :| IsWalk(deps, w) && w[0] == c && w[|w| - 1] == a;
    var both := v + w[1..];
    forall i | 0 <= i < |both| - 1 ensures HasEdge(deps, both[i], both[i + 1]) {
      if i < |v| - 1 {
        assert HasEdge(deps, v[i], v[i + 1]);
      } else {
        assert HasEdge(deps, w[i - |v| + 1], w[i - |v| + 2]);
      }
    }
    assert IsWalk(deps, both) && both[0] == b && both[|both| - 1] == a;
  }

  lemma ReachSelf(deps: Deps, b: nat)
    requires b < |deps|
    ensures Reaches(deps, b, b)
  {
    assert IsWalk(deps, [b]) && [b][0] == b && [b][|[b]| - 1] == b;
  }

  /** A valid assignment exists exactly when no dependency cycle goes through a NOT.
      Without such a cycle, "how many rules are reached through a NOT" is one. */
  lemma StratifiableIffNoNotCycle(deps: Deps)
    requires WellFormed(deps)
    ensures Stratifiable(deps) <==> !HasNotCycle(deps)
  {
    if Stratifiable(deps) && HasNotCycle(deps) {
      var level :| Respects(deps, level);
      var b: nat, k: nat :| b < |deps| && k < |deps[b]| && deps[b][k].negative && Reaches(deps, deps[b][k].to, b);
      var w :| IsWalk(deps, w) && w[0] == deps[b][k].to && w[|w| - 1] == b;
      LevelsFallAlongWalks(deps, level, w);
      assert false;
    }
    if !HasNotCycle(deps) {
      var level := seq(|deps|, b requires 0 <= b < |deps| => |ThroughNot(deps, b)|);
      forall b, k | 0 <= b < |deps| && 0 <= k < |deps[b]|
        ensures level[deps[b][k].to] + Weight(deps[b][k]) <= level[b]
      {
        EdgeShrinksThroughNot(deps, b, k);
      }
      assert Respects(deps, level);
    }
  }

  lemma EdgeShrinksThroughNot(deps: Deps, b: nat, k: nat)
    requires WellFormed(deps) && !HasNotCycle(deps) && b < |deps| && k < |deps[b]|
    ensures |ThroughNot(deps, deps[b][k].to)| + Weight(deps[b][k]) <= |ThroughNot(deps, b)|
  {
    var a := deps[b][k].to;
    assert HasEdge(deps, b, a);
    forall y | y in ThroughNot(deps, a) ensures y in ThroughNot(deps, b) {
      var x: nat, j: nat :| x < |deps| && j < |deps[x]| && deps[x][j].negative &&
        Reaches(deps, a, x) && Reaches(deps, deps[x][j].to, y);
      StepThenReach(deps, b, a, x);
    }
    if deps[b][k].negative {
      ReachSelf(deps, b);
      ReachSelf(deps, a);
      assert a in ThroughNot(deps, b);
      if a in ThroughNot(deps, a) {
        var x: nat, j: nat :| x < |deps| && j < |deps[x]| && deps[x][j].negative &&
          Reaches(deps, a, x) && Reaches(deps, deps[x][j].to, a);
        ReachTransitive(deps, deps[x][j].to, a, x);
        assert false;
      }
      ProperSubsetSize(ThroughNot(deps, a), ThroughNot(deps, b), a);
    } else {
      SubsetSize(ThroughNot(deps, a), ThroughNot(deps, b));
    }
  }

  /** What `Levels` decides, on every dependency graph: it returns a valid (and then
      the least) assignment exactly when no cycle goes through a NOT. An error
      therefore always means such a cycle. */
  lemma LevelsCorrectIffNoNotCycle(deps: Deps)
    requires WellFormed(deps)
    ensures (Levels(deps).Accepted? && Respects(deps, Levels(deps).level)) <==> !HasNotCycle(deps)
    ensures !HasNotCycle(deps) ==> IsLeast(deps, Levels(deps).level)
    ensures Levels(deps).NotStratifiable? ==> HasNotCycle(deps)
  {
    StratifiableIffNoNotCycle(deps);
    if Stratifiable(deps) {
      StratifiableIsAccepted(deps);
    }
  }

  function Ring(): (r: Deps) {
    [[Edge(1, true)], [Edge(2, false)], [Edge(3, false)], [Edge(0, false)]]
  }

  /** The converse of "an error means a cycle" fails: a ring of four rules with one
      NOT runs into the pass limit and is accepted although it has a NOT cycle. */
  lemma AcceptedWithNotCycle()
    ensures WellFormed(Ring()) && HasNotCycle(Ring()) && Levels(Ring()).Accepted?
  {
    RingHasNotCycle();
    RingAccepted(Ring());
  }

  lemma RingAccepted(ring: Deps)
    requires ring == Ring()
    ensures Levels(ring).Accepted?
  {
    RingLevels(ring);
  }

  lemma RingLevels(ring: Deps)
    requires ring == Ring()
    ensures WellFormed(ring) && Levels(ring) == Accepted([2, 1, 2, 2])
  {
    var run := RingRun(ring);
    RunOfPasses(ring, run);
    assert Zeros(|ring|) == run[0];
    assert NegativeEdgesDescend(ring, run[5]);
  }

  lemma RingRun(ring: Deps) returns (run: seq<Level>)
    requires ring == Ring()
    ensures |run| == 6 && run[0] == [0, 0, 0, 0] && run[5] == [2, 1, 2, 2]
    ensures forall i :: 0 <= i < 5 ==> ChangingPass(ring, run[i], run[i + 1])
  {
    run := [[0, 0, 0, 0], [1, 0, 0, 1], [1, 0, 1, 1], [1, 1, 1, 1], [2, 1, 1, 2], [2, 1, 2, 2]];
    forall i | 0 <= i < 5 ensures ChangingPass(ring, run[i], run[i + 1]) {
      RingPass(ring, run[i], run[i + 1]);
    }
  }

  /** One pass of the loop that changes a level and raises none above n. */
  ghost predicate ChangingPass(deps: Deps, level: Level, next: Level) {
    WellFormed(deps) && |level| == |deps| &&
    next == Pass(deps, level, |deps|) && next != level && !Overflows(next)
  }

  lemma {:induction false} RunOfPasses(deps: Deps, run: seq<Level>)
    requires WellFormed(deps) && run != [] && |run[0]| == |deps|
    requires forall i :: 0 <= i < |run| - 1 ==> ChangingPass(deps, run[i], run[i + 1])
    ensures Iterate(deps, run[0], |run| - 1) == Accepted(run[|run| - 1])
  {
    if |run| > 1 {
      assert ChangingPass(deps, run[0], run[1]);
      forall i | 0 <= i < |run[1..]| - 1 ensures ChangingPass(deps, run[1..][i], run[1..][i + 1]) {
        assert ChangingPass(deps, run[i + 1], run[i + 2]);
      }
      RunOfPasses(deps, run[1..]);
    }
  }

  lemma RingHasNotCycle()
    ensures HasNotCycle(Ring())
  {
    var ring: Deps, back := Ring(), [1, 2, 3, 0];
    assert ring[1][0].to == 2 && ring[2][0].to == 3 && ring[3][0].to == 0;
    assert IsWalk(ring, back) && back[0] == 1 && back[|back| - 1] == 0;
    assert ring[0][0].negative && Reaches(ring, ring[0][0].to, 0);
  }

  lemma RingPass(ring: Deps, level: Level, next: Level)
    requires ring == Ring() && |level| == |next| == 4
    requires next[0] == (if level[0] < level[1] + 1 then level[1] + 1 else level[0])
    requires next[1] == (if level[1] < level[2] then level[2] else level[1])
    requires next[2] == (if level[2] < level[3] then level[3] else level[2])
    requires next[3] == (if level[3] < next[0] then next[0] else level[3])
    requires next != level && !Overflows(next)
    ensures ChangingPass(ring, level, next)
  {
    SingleEdges(ring, level, ring[0][0], ring[1][0], ring[2][0], ring[3][0]);
  }

  /** A pass over four rules with one edge each. */
  lemma SingleEdges(deps: Deps, level: Level, e0: Edge, e1: Edge, e2: Edge, e3: Edge)
    requires WellFormed(deps) && |deps| == |level| == 4
    requires deps[0] == [e0] && deps[1] == [e1] && deps[2] == [e2] && deps[3] == [e3]
    ensures e0.to < 4 && e1.to < 4 && e2.to < 4 && e3.to < 4
    ensures Pass(deps, level, 4) == RelaxEdge(RelaxEdge(RelaxEdge(RelaxEdge(level, 0, e0), 1, e1), 2, e2), 3, e3)
  {
    assert deps[0][0] == e0 && deps[1][0] == e1 && deps[2][0] == e2 && deps[3][0] == e3;
    assert Pass(deps, level, 0) == level;
    SingleEdge(deps, level, level, 0, 1, e0);
    var l1 := RelaxEdge(level, 0, e0);
    SingleEdge(deps, level, l1, 1, 2, e1);
    var l2 := RelaxEdge(l1, 1, e1);
    SingleEdge(deps, level, l2, 2, 3, e2);
    SingleEdge(deps, level, RelaxEdge(l2, 2, e2), 3, 4, e3);
  }

  lemma SingleEdge(deps: Deps, level: Level, before: Level, b: nat, c: nat, e: Edge)
    requires WellFormed(deps) && |level| == |deps| && b < |deps| && c == b + 1 && deps[b] == [e] && e.to < |deps|
    requires before == Pass(deps, level, b)
    ensures Pass(deps, level, c) == RelaxEdge(before, b, e)
  {
    assert RelaxRule(deps, before, b, 0) == before;
    assert RelaxRule(deps, before, b, 1) == RelaxEdge(before, b, deps[b][0]);
  }
}
