/** Union-find with path halving and union by rank, over the keys of owl:sameAs terms
    (reasoning/unionfind.go). */
module UnionFinds {

  // ---------------------------------------------------------------------------
  // The equivalence a set of unions generates
  // ---------------------------------------------------------------------------

  ghost predicate Linked<K(!new)>(pairs: set<(K, K)>, a: K, b: K) {
    (a, b) in pairs || (b, a) in pairs
  }

  ghost predicate IsChain<K(!new)>(pairs: set<(K, K)>, w: seq<K>) {
    w != [] && forall i :: 0 <= i < |w| - 1 ==> Linked(pairs, w[i], w[i + 1])
  }

  /** The least equivalence relation that relates every pair: a chain of pairs, each
      read in either direction. */
  ghost predicate Equivalent<K(!new)>(pairs: set<(K, K)>, a: K, b: K) {
    exists w :: IsChain(pairs, w) && w[0] == a && w[|w| - 1] == b
  }

  lemma EquivalentRefl<K(!new)>(pairs: set<(K, K)>, a: K)
    ensures Equivalent(pairs, a, a)
  {
    assert IsChain(pairs, [a]) && [a][0] == a && [a][|[a]| - 1] == a;
  }

  lemma EquivalentLink<K(!new)>(pairs: set<(K, K)>, a: K, b: K)
    requires Linked(pairs, a, b)
    ensures Equivalent(pairs, a, b)
  {
    var w := [a, b];
    assert IsChain(pairs, w) && w[0] == a && w[|w| - 1] == b;
  }

  lemma EquivalentSym<K(!new)>(pairs: set<(K, K)>, a: K, b: K)
    requires Equivalent(pairs, a, b)
    ensures Equivalent(pairs, b, a)
  {
    var w :| IsChain(pairs, w) && w[0] == a && w[|w| - 1] == b;
    var v := seq(|w|, i requires 0 <= i < |w| => w[|w| - 1 - i]);
    forall i | 0 <= i < |v| - 1 ensures Linked(pairs, v[i], v[i + 1]) {
      assert Linked(pairs, w[|w| - 2 - i], w[|w| - 2 - i + 1]);
    }
    assert IsChain(pairs, v) && v[0] == b && v[|v| - 1] == a;
  }

  lemma EquivalentTrans<K(!new)>(pairs: set<(K, K)>, a: K, b: K, c: K)
    requires Equivalent(pairs, a, b) && Equivalent(pairs, b, c)
    ensures Equivalent(pairs, a, c)
  {
    var v :| IsChain(pairs, v) && v[0] == a && v[|v| - 1] == b;
    var w :| IsChain(pairs, w) && w[0] == b && w[|w| - 1] == c;
    var u := v + w[1..];
    forall i | 0 <= i < |u| - 1 ensures Linked(pairs, u[i], u[i + 1]) {
      if i < |v| - 1 {
        assert Linked(pairs, v[i], v[i + 1]);
      } else {
        assert Linked(pairs, w[i - |v| + 1], w[i - |v| + 2]);
      }
    }
    assert IsChain(pairs, u) && u[0] == a && u[|u| - 1] == c;
  }

  lemma EquivalentMonotone<K(!new)>(few: set<(K, K)>, many: set<(K, K)>, a: K, b: K)
    requires few <= many && Equivalent(few, a, b)
    ensures Equivalent(many, a, b)
  {
    var w :| IsChain(few, w) && w[0] == a && w[|w| - 1] == b;
    forall i | 0 <= i < |w| - 1 ensures Linked(many, w[i], w[i + 1]) {
      assert Linked(few, w[i], w[i + 1]);
    }
  }

  /** A labelling that is constant on every pair is constant on every chain. */
  lemma {:induction false} ChainKeepsLabel<K(!new)>(pairs: set<(K, K)>, name: map<K, K>, w: seq<K>)
    requires IsChain(pairs, w) && w[0] in name
    requires forall a, b :: Linked(pairs, a, b) && a in name ==> b in name && name[a] == name[b]
    ensures w[|w| - 1] in name && name[w[|w| - 1]] == name[w[0]]
  {
    if |w| > 1 {
      assert Linked(pairs, w[0], w[1]);
      var rest := w[1..];
      forall i | 0 <= i < |rest| - 1 ensures Linked(pairs, rest[i], rest[i + 1]) {
        assert Linked(pairs, w[i + 1], w[i + 2]);
      }
      ChainKeepsLabel(pairs, name, rest);
    }
  }

  // ---------------------------------------------------------------------------
  // Classes of a labelling
  // ---------------------------------------------------------------------------

  ghost function Class<K>(root: map<K, K>, r: K): set<K> {
    set k | k in root && root[k] == r
  }

  ghost function Pow2(n: nat): nat {
    if n == 0 then 1 else 2 * Pow2(n - 1)
  }

  lemma {:induction false} Pow2Monotone(m: nat, n: nat)
    requires m <= n
    ensures Pow2(m) <= Pow2(n)
  {
    if m < n {
      Pow2Monotone(m, n - 1);
    }
  }

  /** One node of the forest: its parent lies in the same class, closer to the root, and
      ranks grow strictly on the way. */
  ghost predicate NodeOk<K>(parent: map<K, K>, rank: map<K, nat>, root: map<K, K>, k: K) {
    k in parent && k in rank && k in root &&
    parent[k] in parent && parent[k] in rank && parent[k] in root && root[parent[k]] == root[k] &&
    root[k] in parent && root[k] in root && root[root[k]] == root[k] &&
    (parent[k] == k <==> root[k] == k) &&
    (parent[k] != k ==> rank[k] < rank[parent[k]])
  }

  /** `root` says, as a plain map, what the forest `parent` stores. */
  ghost predicate Forest<K(!new)>(parent: map<K, K>, rank: map<K, nat>, root: map<K, K>) {
    parent.Keys == rank.Keys == root.Keys &&
    forall k {:trigger NodeOk(parent, rank, root, k)} :: k in parent.Keys ==> NodeOk(parent, rank, root, k)
  }

  /** 2^rank of a root is at most the size of its class. */
  ghost predicate Balanced<K(!new)>(rank: map<K, nat>, root: map<K, K>) {
    forall k {:trigger Class(root, k)} :: k in root && root[k] == k && k in rank ==> Pow2(rank[k]) <= |Class(root, k)|
  }

  /** The structure answers for exactly the unions made. */
  ghost predicate Represents<K(!new)>(root: map<K, K>, pairs: set<(K, K)>) {
    (forall a, b :: (a, b) in pairs ==> a in root && b in root) &&
    (forall a, b :: a in root && b in root ==> (root[a] == root[b] <==> Equivalent(pairs, a, b)))
  }

  ghost function Above<K>(rank: map<K, nat>, k: K): set<K>
    requires k in rank
  {
    set x | x in rank && rank[x] > rank[k]
  }

  lemma AboveShrinks<K>(rank: map<K, nat>, low: K, high: K)
    requires low in rank && high in rank && rank[low] < rank[high]
    ensures |Above(rank, high)| < |Above(rank, low)|
  {
    var rest := Above(rank, low) - Above(rank, high);
    assert high in rest;
    assert Above(rank, low) == Above(rank, high) + rest;
  }

  /** Joining two classes under `winner`. */
  ghost function Merge<K>(root: map<K, K>, loser: K, winner: K): map<K, K> {
    map k | k in root :: if root[k] == loser then winner else root[k]
  }

  lemma MergeRepresents<K(!new)>(root: map<K, K>, pairs: set<(K, K)>, a: K, b: K, loser: K, winner: K)
    requires Represents(root, pairs) && a in root && b in root
    requires {loser, winner} == {root[a], root[b]}
    ensures Represents(Merge(root, loser, winner), pairs + {(a, b)})
  {
    var root', pairs' := Merge(root, loser, winner), pairs + {(a, b)};
    forall x, y | Linked(pairs', x, y) && x in root' ensures y in root' && root'[x] == root'[y] {
      if Linked(pairs, x, y) {
        EquivalentLink(pairs, x, y);
      }
    }
    forall x, y | x in root' && y in root' ensures root'[x] == root'[y] <==> Equivalent(pairs', x, y) {
      if Equivalent(pairs', x, y) {
        var w :| IsChain(pairs', w) && w[0] == x && w[|w| - 1] == y;
        ChainKeepsLabel(pairs', root', w);
      }
      if root'[x] == root'[y] {
        MergedAreEquivalent(root, pairs, a, b, loser, winner, x, y);
      }
    }
  }

  lemma MergedAreEquivalent<K(!new)>(root: map<K, K>, pairs: set<(K, K)>, a: K, b: K, loser: K, winner: K, x: K, y: K)
    requires Represents(root, pairs) && a in root && b in root && x in root && y in root
    requires {loser, winner} == {root[a], root[b]}
    requires Merge(root, loser, winner)[x] == Merge(root, loser, winner)[y]
    ensures Equivalent(pairs + {(a, b)}, x, y)
  {
    var pairs' := pairs + {(a, b)};
    if root[x] == root[y] {
      EquivalentMonotone(pairs, pairs', x, y);
    } else {
      EquivalentLink(pairs', a, b);
      EquivalentLink(pairs', b, a);
      if root[x] == root[a] {
        ThroughLink(root, pairs, pairs', x, a, b, y);
      } else {
        ThroughLink(root, pairs, pairs', x, b, a, y);
      }
    }
  }

  lemma ThroughLink<K(!new)>(root: map<K, K>, pairs: set<(K, K)>, pairs': set<(K, K)>, x: K, a: K, b: K, y: K)
    requires Represents(root, pairs) && pairs <= pairs' && Equivalent(pairs', a, b)
    requires x in root && a in root && b in root && y in root && root[x] == root[a] && root[b] == root[y]
    ensures Equivalent(pairs', x, y)
  {
    EquivalentMonotone(pairs, pairs', x, a);
    EquivalentMonotone(pairs, pairs', b, y);
    EquivalentTrans(pairs', x, a, b);
    EquivalentTrans(pairs', x, b, y);
  }

  lemma MergeForest<K(!new)>(parent: map<K, K>, rank: map<K, nat>, root: map<K, K>, loser: K, winner: K, rank': map<K, nat>)
    requires Forest(parent, rank, root)
    requires loser in parent && winner in parent && loser != winner && root[loser] == loser && root[winner] == winner
    requires rank[loser] <= rank[winner]
    requires rank' == rank[winner := if rank[loser] == rank[winner] then rank[winner] + 1 else rank[winner]]
    ensures Forest(parent[loser := winner], rank', Merge(root, loser, winner))
  {
    var parent', root' := parent[loser := winner], Merge(root, loser, winner);
    forall k | k in parent'.Keys ensures NodeOk(parent', rank', root', k) {
      assert NodeOk(parent, rank, root, k) && NodeOk(parent, rank, root, winner) && NodeOk(parent, rank, root, loser);
      assert NodeOk(parent, rank, root, parent[k]);
    }
  }

  lemma MergeBalanced<K(!new)>(rank: map<K, nat>, root: map<K, K>, loser: K, winner: K, rank': map<K, nat>)
    requires Balanced(rank, root) && rank.Keys == root.Keys
    requires loser in root && winner in root && loser != winner && root[loser] == loser && root[winner] == winner
    requires rank[loser] <= rank[winner]
    requires rank' == rank[winner := if rank[loser] == rank[winner] then rank[winner] + 1 else rank[winner]]
    ensures Balanced(rank', Merge(root, loser, winner))
  {
    var root' := Merge(root, loser, winner);
    assert Class(root', winner) == Class(root, winner) + Class(root, loser);
    assert Class(root, winner) !! Class(root, loser);
    forall k | k in root' && root'[k] == k && k in rank' ensures Pow2(rank'[k]) <= |Class(root', k)| {
      if k != winner {
        assert Class(root', k) == Class(root, k);
      }
    }
  }

  lemma AddForest<K(!new)>(parent: map<K, K>, rank: map<K, nat>, root: map<K, K>, k: K)
    requires Forest(parent, rank, root) && Balanced(rank, root) && k !in parent
    ensures Forest(parent[k := k], rank[k := 0], root[k := k])
    ensures Balanced(rank[k := 0], root[k := k])
  {
    var parent', rank', root' := parent[k := k], rank[k := 0], root[k := k];
    forall x | x in parent'.Keys ensures NodeOk(parent', rank', root', x) {
      if x != k {
        assert NodeOk(parent, rank, root, x);
      }
    }
    forall r | r in root' && root'[r] == r && r in rank' ensures Pow2(rank'[r]) <= |Class(root', r)| {
      if r == k {
        assert k in Class(root', k);
      } else {
        assert Class(root', r) == Class(root, r);
      }
    }
  }

  lemma HalveForest<K(!new)>(parent: map<K, K>, rank: map<K, nat>, root: map<K, K>, r: K)
    requires Forest(parent, rank, root) && r in parent && parent[r] in parent
    ensures Forest(parent[r := parent[parent[r]]], rank, root)
  {
    var parent' := parent[r := parent[parent[r]]];
    forall k | k in parent'.Keys ensures NodeOk(parent', rank, root, k) {
      assert NodeOk(parent, rank, root, k) && NodeOk(parent, rank, root, parent[k]);
      assert NodeOk(parent, rank, root, parent[parent[k]]);
    }
  }

  lemma AddRepresents<K(!new)>(root: map<K, K>, pairs: set<(K, K)>, k: K)
    requires Represents(root, pairs) && k !in root
    requires forall x :: x in root ==> root[x] != k
    ensures Represents(root[k := k], pairs)
  {
    var root' := root[k := k];
    forall a, b | Linked(pairs, a, b) && a in root' ensures b in root' && root'[a] == root'[b] {
      EquivalentLink(pairs, a, b);
    }
    forall a, b | a in root' && b in root' ensures root'[a] == root'[b] <==> Equivalent(pairs, a, b) {
      if Equivalent(pairs, a, b) {
        var w :| IsChain(pairs, w) && w[0] == a && w[|w| - 1] == b;
        ChainKeepsLabel(pairs, root', w);
      }
      if a == b {
        EquivalentRefl(pairs, a);
      }
    }
  }

  // ---------------------------------------------------------------------------
  // The structure
  // ---------------------------------------------------------------------------

  class UnionFind<K(==, !new)> {
    /** Breaks rank ties; the code compares keys as strings. */
    const less: (K, K) -> bool
    var parent: map<K, K>
    var rank: map<K, nat>
    ghost var root: map<K, K>
    ghost var pairs: set<(K, K)>

    ghost predicate Valid()
      reads this
    {
      Forest(parent, rank, root) && Balanced(rank, root) && Represents(root, pairs)
    }

    constructor (less: (K, K) -> bool)
      ensures Valid() && root == map[] && pairs == {}
    {
      this.less := less;
      parent, rank, root, pairs := map[], map[], map[], {};
    }

    method Add(k: K)
      requires Valid()
      modifies this
      ensures Valid() && pairs == old(pairs)
      ensures root == if k in old(root) then old(root) else old(root)[k := k]
    {
      if k !in parent {
        AddForest(parent, rank, root, k);
        assert forall x :: x in root.Keys ==> NodeOk(parent, rank, root, x);
        AddRepresents(root, pairs, k);
        parent, rank, root := parent[k := k], rank[k := 0], root[k := k];
      }
    }

    /** Path halving: no root changes, and the walk is logarithmic in the class size. */
    method FindKey(key: K) returns (r: K, ghost steps: nat)
      requires Valid()
      modifies this`parent
      ensures Valid()
      ensures key !in root ==> r == key && parent == old(parent)
      ensures key in root ==> r == root[key] && Pow2(steps) <= |Class(root, r)|
    {
      r, steps := key, 0;
      if key !in parent {
        return;
      }
      while parent[r] != r
        invariant r in parent && Forest(parent, rank, root) && root[r] == root[key]
        invariant steps <= rank[r]
        decreases |Above(rank, r)|
      {
        assert NodeOk(parent, rank, root, r) && NodeOk(parent, rank, root, parent[r]);
        AboveShrinks(rank, r, parent[parent[r]]);
        HalveForest(parent, rank, root, r);
        parent := parent[r := parent[parent[r]]];
        r := parent[r];
        steps := steps + 1;
      }
      assert NodeOk(parent, rank, root, r);
      Pow2Monotone(steps, rank[r]);
    }

    /** Puts one root under the other: the lower rank under the higher, ties by `less`. */
    method Link(rootA: K, rootB: K, ghost a: K, ghost b: K)
      requires Valid() && a in root && b in root && root[a] == rootA && root[b] == rootB && rootA != rootB
      modifies this
      ensures Valid() && pairs == old(pairs) + {(a, b)} && root.Keys == old(root.Keys)
    {
      assert NodeOk(parent, rank, root, a) && NodeOk(parent, rank, root, b);
      var loser, winner := rootB, rootA;
      if rank[rootA] < rank[rootB] || (rank[rootA] == rank[rootB] && !less(rootA, rootB)) {
        loser, winner := rootA, rootB;
      }
      var raised := if rank[loser] == rank[winner] then rank[winner] + 1 else rank[winner];
      MergeForest(parent, rank, root, loser, winner, rank[winner := raised]);
      MergeBalanced(rank, root, loser, winner, rank[winner := raised]);
      MergeRepresents(root, pairs, a, b, loser, winner);
      parent := parent[loser := winner];
      rank := rank[winner := raised];
      root := Merge(root, loser, winner);
      pairs := pairs + {(a, b)};
    }

    /** The roots of two keys, which are added if they are new. */
    method Roots(a: K, b: K) returns (rootA: K, rootB: K)
      requires Valid()
      modifies this
      ensures Valid() && pairs == old(pairs) && root.Keys == old(root.Keys) + {a, b}
      ensures rootA == root[a] && rootB == root[b]
    {
      Add(a);
      Add(b);
      ghost var steps: nat;
      rootA, steps := FindKey(a);
      rootB, steps := FindKey(b);
    }

    method Union(a: K, b: K)
      requires Valid()
      modifies this
      ensures Valid() && pairs == old(pairs) + {(a, b)}
      ensures root.Keys == old(root.Keys) + {a, b}
    {
      var rootA, rootB := Roots(a, b);
      if rootA == rootB {
        SameClassRepresents(root, pairs, a, b);
        pairs := pairs + {(a, b)};
      } else {
        Link(rootA, rootB, a, b);
      }
    }

    /** Every key under its root. */
    method Group() returns (groups: map<K, seq<K>>)
      requires Valid()
      modifies this`parent
      ensures Valid() && Grouped(groups, root, root.Keys)
    {
      groups := map[];
      var todo := parent.Keys;
      while todo != {}
        invariant Valid() && todo <= root.Keys && Grouped(groups, root, root.Keys - todo)
        decreases |todo|
      {
        var k :| k in todo;
        var r, _ := FindKey(k);
        GroupOne(groups, root, root.Keys - todo, k);
        groups := AddToGroup(groups, r, k);
        assert root.Keys - (todo - {k}) == (root.Keys - todo) + {k};
        todo := todo - {k};
      }
      assert root.Keys - todo == root.Keys;
    }

    /** Exactly the classes with more than one member, each listed once. */
    method Classes() returns (result: seq<seq<K>>)
      requires Valid()
      modifies this`parent
      ensures Valid() && ListsClasses(root, result)
    {
      var groups := Group();
      result := CollectLarge(groups, root);
    }
  }

  method CollectLarge<K(==, !new)>(groups: map<K, seq<K>>, ghost root: map<K, K>) returns (result: seq<seq<K>>)
    requires Grouped(groups, root, root.Keys)
    ensures ListsClasses(root, result)
  {
    result := [];
    var todo := groups.Keys;
    ghost var taken: seq<K> := [];
    while todo != {}
      invariant todo <= groups.Keys && |taken| == |result|
      invariant forall c :: 0 <= c < |result| ==> taken[c] in groups.Keys - todo && result[c] == groups[taken[c]] && |result[c]| > 1
      invariant forall c, d :: 0 <= c < d < |result| ==> taken[c] != taken[d]
      invariant forall r :: r in groups.Keys - todo && |groups[r]| > 1 ==> r in taken
      decreases |todo|
    {
      var r :| r in todo;
      if |groups[r]| > 1 {
        result := result + [groups[r]];
        taken := taken + [r];
      }
      todo := todo - {r};
    }
    LargeGroupsAreClasses(groups, root, taken, result);
  }

  lemma LargeGroupsAreClasses<K(!new)>(groups: map<K, seq<K>>, root: map<K, K>, taken: seq<K>, result: seq<seq<K>>)
    requires Grouped(groups, root, root.Keys) && |taken| == |result|
    requires forall c :: 0 <= c < |result| ==> taken[c] in groups.Keys && result[c] == groups[taken[c]] && |result[c]| > 1
    requires forall c, d :: 0 <= c < d < |result| ==> taken[c] != taken[d]
    requires forall r :: r in groups.Keys && |groups[r]| > 1 ==> r in taken
    ensures ListsClasses(root, result)
  {
    forall c | 0 <= c < |result| ensures ListsClass(root, result[c]) {
      assert result[c][0] in groups[taken[c]];
    }
    forall a, b | a in root && b in root && a != b && root[a] == root[b] ensures Together(result, a, b) {
      assert a in groups[root[a]] && b in groups[root[a]];
      assert root[a] in taken;
      var c :| 0 <= c < |taken| && taken[c] == root[a];
      assert a in result[c] && b in result[c];
    }
  }

  ghost predicate Distinct<K(!new)>(s: seq<K>) {
    forall i, j :: 0 <= i < j < |s| ==> s[i] != s[j]
  }

  /** The groups built so far: the done keys, each under its root. */
  ghost predicate Grouped<K(!new)>(groups: map<K, seq<K>>, root: map<K, K>, done: set<K>) {
    (forall r :: r in groups ==> groups[r] != [] && Distinct(groups[r])) &&
    (forall r, k :: r in groups && k in groups[r] ==> k in done && k in root && root[k] == r) &&
    (forall k :: k in done && k in root ==> root[k] in groups && k in groups[root[k]])
  }

  function AddToGroup<K(==)>(groups: map<K, seq<K>>, r: K, k: K): map<K, seq<K>> {
    groups[r := (if r in groups then groups[r] else []) + [k]]
  }

  lemma GroupOne<K(!new)>(groups: map<K, seq<K>>, root: map<K, K>, done: set<K>, k: K)
    requires Grouped(groups, root, done) && k in root && k !in done
    ensures Grouped(AddToGroup(groups, root[k], k), root, done + {k})
  {
    var r := root[k];
    var grown := AddToGroup(groups, r, k);
    if r in groups {
      assert k !in groups[r];
    }
    forall j | j in done + {k} && j in root ensures root[j] in grown && j in grown[root[j]] {
      if j != k && root[j] == r {
        assert j in groups[r];
      }
    }
  }

  /** `members` lists one whole class of more than one key. */
  ghost predicate ListsClass<K(!new)>(root: map<K, K>, members: seq<K>) {
    |members| > 1 && Distinct(members) && members[0] in root &&
    forall k :: k in members <==> k in Class(root, root[members[0]])
  }

  ghost predicate Together<K(!new)>(result: seq<seq<K>>, a: K, b: K) {
    exists c :: 0 <= c < |result| && a in result[c] && b in result[c]
  }

  ghost predicate Disjoint<K(!new)>(result: seq<seq<K>>) {
    forall c, d, k :: 0 <= c < d < |result| && k in result[c] ==> k !in result[d]
  }

  /** `result` lists exactly the classes of more than one key, each once. */
  ghost predicate ListsClasses<K(!new)>(root: map<K, K>, result: seq<seq<K>>) {
    (forall c :: 0 <= c < |result| ==> ListsClass(root, result[c])) && Disjoint(result) &&
    (forall a, b :: a in root && b in root && a != b && root[a] == root[b] ==> Together(result, a, b))
  }

  lemma SameClassRepresents<K(!new)>(root: map<K, K>, pairs: set<(K, K)>, a: K, b: K)
    requires Represents(root, pairs) && a in root && b in root && root[a] == root[b]
    ensures Represents(root, pairs + {(a, b)})
  {
    MergeRepresents(root, pairs, a, b, root[a], root[b]);
    assert Merge(root, root[a], root[b]) == root;
  }
}
