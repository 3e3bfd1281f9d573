/** Names in RDF/XML output: splitting predicate IRIs, the namespace table and blank node
    labels (rdfxml/serializer_names.go, rdfxml/serializer.go). Text is valid Unicode. */
module XmlNames {
  import opened Common
  import Closures
  import StringOrder

  // ---------------------------------------------------------------------------
  // Names
  // ---------------------------------------------------------------------------

  predicate Within(c: char, low: int, high: int) {
    low <= c as int <= high
  }

  /** NameStartChar of XML 1.0, fifth edition, without the colon. The replacement character,
      which stands for undecodable text, is refused. */
  predicate IsNameStart(c: char) {
    c as int != 0xFFFD &&
    ('a' <= c <= 'z' || 'A' <= c <= 'Z' || c == '_' || Within(c, 0xC0, 0xD6) || Within(c, 0xD8, 0xF6) ||
     Within(c, 0xF8, 0x2FF) || Within(c, 0x370, 0x37D) || Within(c, 0x37F, 0x1FFF) || Within(c, 0x200C, 0x200D) ||
     Within(c, 0x2070, 0x218F) || Within(c, 0x2C00, 0x2FEF) || Within(c, 0x3001, 0xD7FF) ||
     Within(c, 0xF900, 0xFDCF) || Within(c, 0xFDF0, 0xFFFD) || Within(c, 0x10000, 0xEFFFF))
  }

  /** NameChar, likewise. */
  predicate IsNameChar(c: char) {
    IsNameStart(c) || c == '-' || c == '.' || '0' <= c <= '9' || c as int == 0xB7 ||
    Within(c, 0x300, 0x36F) || Within(c, 0x203F, 0x2040)
  }

  predicate AllNameChars(s: string) {
    forall i :: 0 <= i < |s| ==> IsNameChar(s[i])
  }

  predicate IsName(s: string) {
    s != "" && IsNameStart(s[0]) && AllNameChars(s)
  }

  predicate IsAscii(s: string) {
    forall i :: 0 <= i < |s| ==> s[i] as int < 0x80
  }

  /** The XML decoder is asked about names that are not ASCII; `decodes` is its answer. */
  predicate Accepts(decodes: string -> bool, s: string) {
    IsAscii(s) || decodes(s)
  }

  predicate IsNcName(decodes: string -> bool, s: string) {
    IsName(s) && Accepts(decodes, s)
  }

  lemma NoColon(s: string)
    requires AllNameChars(s)
    ensures ':' !in s
  {
    assert !IsNameChar(':');
  }

  // ---------------------------------------------------------------------------
  // Splitting an IRI
  // ---------------------------------------------------------------------------

  /** The longest suffix that is a name starts at `i`. */
  ghost predicate LongestTail(iri: string, i: nat) {
    i < |iri| && IsName(iri[i..]) && forall j :: 0 <= j < i ==> !IsName(iri[j..])
  }

  /** What the code splits off: the longest such suffix, if a namespace is left and the decoder
      accepts it. */
  ghost function SplitOf(decodes: string -> bool, iri: string): Option<(string, string)> {
    if exists i: nat :: LongestTail(iri, i) then
      var i: nat :| LongestTail(iri, i);
      if i > 0 && Accepts(decodes, iri[i..]) then Some((iri[..i], iri[i..])) else None
    else None
  }

  lemma TailUnique(iri: string, i: nat, j: nat)
    requires LongestTail(iri, i) && LongestTail(iri, j)
    ensures i == j
  {
  }

  method SplitIri(decodes: string -> bool, iri: string) returns (r: Option<(string, string)>)
    ensures r == SplitOf(decodes, iri)
  {
    var i := |iri|;
    while i > 0 && IsNameChar(iri[i - 1])
      invariant 0 <= i <= |iri| && AllNameChars(iri[i..])
    {
      i := i - 1;
      assert iri[i..] == [iri[i]] + iri[i + 1..];
    }
    ghost var low := i;
    assert forall j :: 0 <= j < low ==> !IsName(iri[j..]) by {
      forall j | 0 <= j < low ensures !IsName(iri[j..]) {
        assert iri[j..][low - 1 - j] == iri[low - 1];
      }
    }
    while i < |iri| && !IsNameStart(iri[i])
      invariant low <= i <= |iri| && AllNameChars(iri[i..])
      invariant forall j :: 0 <= j < i ==> !IsName(iri[j..])
    {
      assert iri[i..] == [iri[i]] + iri[i + 1..];
      i := i + 1;
    }
    if i < |iri| {
      assert LongestTail(iri, i);
      forall j: nat | LongestTail(iri, j) ensures j == i {
        TailUnique(iri, i, j);
      }
    }
    if i == 0 || i == |iri| || !Accepts(decodes, iri[i..]) {
      return None;
    }
    return Some((iri[..i], iri[i..]));
  }

  /** A split after `j` characters that XML would take. */
  ghost predicate Acceptable(decodes: string -> bool, iri: string, j: nat) {
    0 < j < |iri| && IsNcName(decodes, iri[j..])
  }

  /** The split is the acceptable one with the longest name, and there is none only if there
      is no acceptable one. */
  ghost predicate TakesLongest(decodes: string -> bool, iri: string) {
    var r := SplitOf(decodes, iri);
    if r.None? then forall j: nat :: !Acceptable(decodes, iri, j)
    else r.value.0 + r.value.1 == iri && Acceptable(decodes, iri, |r.value.0|) &&
         forall j: nat :: Acceptable(decodes, iri, j) ==> |r.value.0| <= j
  }

  /** The code looks at one suffix only, so it misses a shorter acceptable one exactly when the
      longest is the whole IRI or is refused by the decoder. */
  lemma TakesLongestIff(decodes: string -> bool, iri: string)
    ensures TakesLongest(decodes, iri) <==>
      forall i: nat, j: nat :: LongestTail(iri, i) && (i == 0 || !Accepts(decodes, iri[i..])) ==> !Acceptable(decodes, iri, j)
  {
    forall j: nat | Acceptable(decodes, iri, j) ensures exists i: nat :: LongestTail(iri, i) {
      var i := FirstTail(iri, j);
    }
    if i: nat :| LongestTail(iri, i) {
      forall j: nat | LongestTail(iri, j) ensures j == i {
        TailUnique(iri, i, j);
      }
      if i > 0 && Accepts(decodes, iri[i..]) {
        assert Acceptable(decodes, iri, i);
        assert SplitOf(decodes, iri) == Some((iri[..i], iri[i..]));
        assert iri[..i] + iri[i..] == iri;
      }
    }
  }

  lemma {:induction false} FirstTail(iri: string, j: nat) returns (i: nat)
    requires j < |iri| && IsName(iri[j..])
    ensures LongestTail(iri, i)
  {
    if k :| 0 <= k < j && IsName(iri[k..]) {
      i := FirstTail(iri, k);
    } else {
      i := j;
    }
  }

  /** On ASCII text the only failing family are texts that are names themselves and have a
      second place to start one; in particular IRIs with a scheme are split as promised. */
  lemma AsciiTakesLongestIff(decodes: string -> bool, iri: string)
    requires IsAscii(iri)
    ensures TakesLongest(decodes, iri) <==> !(IsName(iri) && exists j :: 0 < j < |iri| && IsNameStart(iri[j]))
    ensures ':' in iri ==> TakesLongest(decodes, iri)
  {
    TakesLongestIff(decodes, iri);
    forall i | 0 <= i < |iri| ensures Accepts(decodes, iri[i..]) {
    }
    assert iri[0..] == iri;
    if IsName(iri) {
      assert LongestTail(iri, 0);
      NoColon(iri);
      forall j: nat | 0 < j < |iri| ensures Acceptable(decodes, iri, j) <==> IsNameStart(iri[j]) {
        assert AllNameChars(iri[j..]);
      }
    }
  }

  /** A relative reference that is itself a name is not split, though it could be. */
  lemma BareNameMissed(decodes: string -> bool)
    ensures Acceptable(decodes, "ab", 1) && SplitOf(decodes, "ab").None? && !TakesLongest(decodes, "ab")
  {
    var iri := "ab";
    assert iri[0] == 'a' && iri[1] == 'b' && iri[0..] == iri && iri[1..] == "b";
    assert LongestTail(iri, 0);
    forall j: nat | LongestTail(iri, j) ensures j == 0 {
      TailUnique(iri, 0, j);
    }
    AsciiTakesLongestIff(decodes, iri);
    assert 0 < 1 < |iri| && IsNameStart(iri[1]);
  }

  // ---------------------------------------------------------------------------
  // Qualified names and their expansion
  // ---------------------------------------------------------------------------

  /** The position of the first colon, or the length. */
  function Cut(q: string): (n: nat)
    ensures n <= |q|
  {
    if q == "" || q[0] == ':' then 0 else 1 + Cut(q[1..])
  }

  /** How a reader expands a qualified name under namespace declarations. */
  function Expand(nsOf: map<string, string>, q: string): Option<string> {
    var n := Cut(q);
    if n == |q| || q[..n] !in nsOf then None else Some(nsOf[q[..n]] + q[n + 1..])
  }

  function Join(p: string, local: string): string {
    p + [':'] + local
  }

  lemma {:induction false} CutJoin(p: string, local: string)
    requires ':' !in p
    ensures Cut(Join(p, local)) == |p|
  {
    if p != "" {
      CutJoin(p[1..], local);
      assert Join(p, local)[1..] == Join(p[1..], local);
    }
  }

  /** `q` is a qualified name, both parts NCNames, that expands to `iri`. */
  ghost predicate Spells(decodes: string -> bool, nsOf: map<string, string>, q: string, iri: string) {
    Expand(nsOf, q) == Some(iri) && IsNcName(decodes, q[..Cut(q)]) && Cut(q) < |q| && IsNcName(decodes, q[Cut(q) + 1..])
  }

  lemma JoinSpells(decodes: string -> bool, nsOf: map<string, string>, p: string, local: string)
    requires p in nsOf && IsNcName(decodes, p) && IsNcName(decodes, local)
    ensures Spells(decodes, nsOf, Join(p, local), nsOf[p] + local)
  {
    NoColon(p);
    CutJoin(p, local);
    var q := Join(p, local);
    assert q[..|p|] == p && q[|p| + 1..] == local;
  }

  ghost predicate Extends<K, V>(m: map<K, V>, n: map<K, V>) {
    forall k :: k in m ==> k in n && n[k] == m[k]
  }

  // ---------------------------------------------------------------------------
  // The namespace table
  // ---------------------------------------------------------------------------

  ghost predicate Inverse(a: map<string, string>, b: map<string, string>) {
    forall x :: x in a ==> a[x] in b && b[a[x]] == x
  }

  lemma InversePair(a: map<string, string>, b: map<string, string>, x: string, y: string)
    requires Inverse(a, b) && y !in b
    ensures Inverse(a[x := y], b[y := x])
  {
  }

  predicate IsUsablePrefix(decodes: string -> bool, p: string) {
    IsNcName(decodes, p) && !(|p| >= 3 && p[0] in {'x', 'X'} && p[1] in {'m', 'M'} && p[2] in {'l', 'L'})
  }

  /** A namespace that leaves a local name of `iri`. */
  predicate Leaves(decodes: string -> bool, ns: string, iri: string) {
    ns != "" && ns <= iri && IsNcName(decodes, iri[|ns|..])
  }

  ghost predicate LongestBound(decodes: string -> bool, prefixOf: map<string, string>, iri: string, ns: string) {
    ns in prefixOf && Leaves(decodes, ns, iri) &&
    forall other :: other in prefixOf && Leaves(decodes, other, iri) ==> |other| <= |ns|
  }

  lemma LongestIsUnique(decodes: string -> bool, prefixOf: map<string, string>, iri: string, best: string)
    requires LongestBound(decodes, prefixOf, iri, best)
    ensures forall ns :: LongestBound(decodes, prefixOf, iri, ns) ==> ns == best
  {
    forall ns | LongestBound(decodes, prefixOf, iri, ns) ensures ns == best {
      assert |ns| == |best| && ns == iri[..|ns|] && best == iri[..|best|];
    }
  }

  /** The name a table with these namespaces gives an IRI: under the longest namespace that fits,
      else under the split-off namespace, else none. */
  ghost predicate Chosen(decodes: string -> bool, prefixOf: map<string, string>, iri: string, q: string) {
    && (q == "" <==> SplitOf(decodes, iri).None? && NoneLeaves(decodes, prefixOf, iri))
    && (forall ns :: LongestBound(decodes, prefixOf, iri, ns) ==> q == Join(prefixOf[ns], iri[|ns|..]))
  }

  ghost predicate NoneLeaves(decodes: string -> bool, prefixOf: map<string, string>, iri: string) {
    forall ns :: ns in prefixOf ==> !Leaves(decodes, ns, iri)
  }

  function Generated(stem: string, n: nat): string {
    stem + StringOrder.Itoa(n)
  }

  lemma GeneratedInjective(stem: string, m: nat, n: nat)
    requires Generated(stem, m) == Generated(stem, n)
    ensures m == n
  {
    assert Generated(stem, m)[|stem|..] == StringOrder.Itoa(m) && Generated(stem, n)[|stem|..] == StringOrder.Itoa(n);
    StringOrder.ItoaInjective(m, n);
  }

  lemma {:induction false} ItoaDigits(n: nat)
    ensures forall i :: 0 <= i < |StringOrder.Itoa(n)| ==> '0' <= StringOrder.Itoa(n)[i] <= '9'
  {
    if n >= 10 {
      ItoaDigits(n / 10);
    }
  }

  lemma GeneratedIsName(stem: string, n: nat)
    requires stem != "" && forall i :: 0 <= i < |stem| ==> 'a' <= stem[i] <= 'z'
    ensures IsName(Generated(stem, n)) && IsAscii(Generated(stem, n)) && IsLabelName(Generated(stem, n))
  {
    ItoaDigits(n);
    var g := Generated(stem, n);
    forall i | 0 <= i < |g| ensures 'a' <= g[i] <= 'z' || '0' <= g[i] <= '9' {
    }
  }

  /** The first generated name after `from` that is not taken, found by counting up. */
  method NextFree(stem: string, taken: set<string>, from: nat) returns (n: nat)
    ensures n > from && Generated(stem, n) !in taken
    ensures forall m :: from < m < n ==> Generated(stem, m) in taken
  {
    n := from + 1;
    ghost var tried: set<string> := {};
    while Generated(stem, n) in taken
      invariant n > from && tried <= taken && tried == GeneratedBetween(stem, from, n)
      invariant forall m :: from < m < n ==> Generated(stem, m) in taken
      decreases |taken - tried|
    {
      ghost var p := Generated(stem, n);
      NotTriedYet(stem, from, n);
      assert taken - (tried + {p}) == (taken - tried) - {p};
      tried := tried + {p};
      n := n + 1;
    }
  }

  ghost function GeneratedBetween(stem: string, from: nat, n: nat): set<string> {
    set m | from < m < n :: Generated(stem, m)
  }

  lemma NotTriedYet(stem: string, from: nat, n: nat)
    requires from < n
    ensures Generated(stem, n) !in GeneratedBetween(stem, from, n)
    ensures GeneratedBetween(stem, from, n + 1) == GeneratedBetween(stem, from, n) + {Generated(stem, n)}
  {
    forall m | from < m < n ensures Generated(stem, m) != Generated(stem, n) {
      if Generated(stem, m) == Generated(stem, n) {
        GeneratedInjective(stem, m, n);
      }
    }
  }

  class NsTable {
    const decodes: string -> bool
    var prefixOf: map<string, string>
    var nsOf: map<string, string>
    var next: nat
    var qnames: map<string, string>

    /** The maps are inverse to each other and every prefix can be declared. */
    ghost predicate TableOk()
      reads this
    {
      Inverse(prefixOf, nsOf) && Inverse(nsOf, prefixOf) && forall p :: p in nsOf ==> IsUsablePrefix(decodes, p)
    }

    /** Moreover every name handed out so far spells the IRI it was asked for. */
    ghost predicate Valid()
      reads this
    {
      TableOk() && forall iri :: iri in qnames && qnames[iri] != "" ==> Spells(decodes, nsOf, qnames[iri], iri)
    }

    constructor (decodes: string -> bool, bindings: map<string, string>, reserved: map<string, string>)
      requires forall p :: p in reserved ==> IsUsablePrefix(decodes, p)
      requires forall p, q :: p in reserved && q in reserved && reserved[p] == reserved[q] ==> p == q
      ensures Valid() && this.decodes == decodes && qnames == map[]
      ensures Declares(decodes, bindings, reserved, bindings.Keys, nsOf)
    {
      this.decodes := decodes;
      this.next := 0;
      this.qnames := map[];
      this.nsOf := reserved;
      this.prefixOf := map[];
      new;
      Reserve(reserved);
      Bind(bindings, reserved);
    }

    method Reserve(reserved: map<string, string>)
      requires nsOf == reserved && prefixOf == map[]
      requires forall p, q :: p in reserved && q in reserved && reserved[p] == reserved[q] ==> p == q
      modifies this`prefixOf
      ensures Inverse(prefixOf, nsOf) && Inverse(nsOf, prefixOf)
    {
      var left := reserved.Keys;
      while left != {}
        invariant left <= reserved.Keys && Inverse(prefixOf, nsOf)
        invariant forall p :: p in reserved && p !in left ==> reserved[p] in prefixOf && prefixOf[reserved[p]] == p
        decreases |left|
      {
        var p :| p in left;
        prefixOf := prefixOf[reserved[p] := p];
        left := left - {p};
      }
    }

    /** In prefix order, so that of two prefixes for one namespace the lesser is kept. */
    method Bind(bindings: map<string, string>, reserved: map<string, string>)
      requires Valid() && qnames == map[] && nsOf == reserved
      modifies this`prefixOf, this`nsOf
      ensures Valid()
      ensures Declares(decodes, bindings, reserved, bindings.Keys, nsOf)
    {
      var ps := SortedKeys(bindings);
      for i := 0 to |ps|
        invariant TableOk() && Declares(decodes, bindings, reserved, Members(ps[..i]), nsOf)
      {
        BindOne(bindings, reserved, ps, i);
      }
      assert ps[..|ps|] == ps;
    }

    method BindOne(bindings: map<string, string>, reserved: map<string, string>, ps: seq<string>, i: nat)
      requires TableOk() && InOrder(bindings, ps) && i < |ps| && Declares(decodes, bindings, reserved, Members(ps[..i]), nsOf)
      modifies this`prefixOf, this`nsOf
      ensures TableOk() && Declares(decodes, bindings, reserved, Members(ps[..i + 1]), nsOf)
    {
      NextMember(bindings, ps, i);
      var prefix := ps[i];
      var ns := bindings[prefix];
      DeclaresNext(decodes, bindings, reserved, ps, i, nsOf, prefixOf);
      if ns != "" && IsUsablePrefix(decodes, prefix) && prefix !in nsOf && ns !in prefixOf {
        InversePair(prefixOf, nsOf, ns, prefix);
        InversePair(nsOf, prefixOf, prefix, ns);
        prefixOf, nsOf := prefixOf[ns := prefix], nsOf[prefix := ns];
      }
    }

    /** The qualified name of an IRI, or "" when it has none. Declarations only grow. */
    method Qname(iri: string) returns (q: string)
      requires Valid()
      modifies this`prefixOf, this`nsOf, this`next, this`qnames
      ensures Valid() && Extends(old(prefixOf), prefixOf) && Extends(old(nsOf), nsOf) && Extends(old(qnames), qnames)
      ensures iri in qnames && q == qnames[iri] && (q != "" ==> Spells(decodes, nsOf, q, iri))
      ensures iri !in old(qnames) ==> Chosen(decodes, old(prefixOf), iri, q)
    {
      if iri in qnames {
        return qnames[iri];
      }
      q := NewQname(iri);
      SpellingsKept(decodes, old(nsOf), nsOf);
      qnames := qnames[iri := q];
    }

    /** The name of an IRI not met before. */
    method NewQname(iri: string) returns (q: string)
      requires TableOk()
      modifies this`prefixOf, this`nsOf, this`next
      ensures TableOk() && Extends(old(prefixOf), prefixOf) && Extends(old(nsOf), nsOf)
      ensures (q != "" ==> Spells(decodes, nsOf, q, iri)) && Chosen(decodes, old(prefixOf), iri, q)
    {
      q := LookupBound(iri);
      if q == "" {
        var split := SplitIri(decodes, iri);
        if split.Some? {
          SplitParts(decodes, iri);
          var p := PrefixFor(split.value.0);
          q := Join(p, split.value.1);
          JoinSpells(decodes, nsOf, p, split.value.1);
        }
      }
    }

    /** The name under the longest declared namespace that leaves a local name. */
    method LookupBound(iri: string) returns (q: string)
      requires TableOk()
      ensures q == "" <==> NoneLeaves(decodes, prefixOf, iri)
      ensures forall ns :: LongestBound(decodes, prefixOf, iri, ns) ==> q == Join(prefixOf[ns], iri[|ns|..])
      ensures q != "" ==> Spells(decodes, nsOf, q, iri)
    {
      var best := BestBound(iri);
      if best == "" {
        return "";
      }
      q := Join(prefixOf[best], iri[|best|..]);
      assert best + iri[|best|..] == iri;
      JoinSpells(decodes, nsOf, prefixOf[best], iri[|best|..]);
      LongestIsUnique(decodes, prefixOf, iri, best);
    }

    /** The loop over the declared namespaces, in any order. */
    method BestBound(iri: string) returns (best: string)
      ensures best == "" ==> NoneLeaves(decodes, prefixOf, iri)
      ensures best != "" ==> LongestBound(decodes, prefixOf, iri, best)
    {
      best := "";
      var left := prefixOf.Keys;
      while left != {}
        invariant left <= prefixOf.Keys
        invariant best == "" || (best in prefixOf && Leaves(decodes, best, iri))
        invariant forall ns :: ns in prefixOf && ns !in left && Leaves(decodes, ns, iri) ==> |ns| <= |best|
        decreases |left|
      {
        var ns :| ns in left;
        left := left - {ns};
        if |ns| > |best| && ns <= iri && IsNcName(decodes, iri[|ns|..]) {
          best := ns;
        }
      }
    }

    /** The prefix of a namespace, a generated one if it has none. */
    method PrefixFor(ns: string) returns (p: string)
      requires TableOk()
      modifies this`prefixOf, this`nsOf, this`next
      ensures TableOk() && Extends(old(prefixOf), prefixOf) && Extends(old(nsOf), nsOf)
      ensures p in nsOf && nsOf[p] == ns
    {
      if ns in prefixOf {
        return prefixOf[ns];
      }
      next := NextFree("ns", nsOf.Keys, next);
      p := Generated("ns", next);
      GeneratedIsName("ns", next);
      assert p[0] == 'n';
      prefixOf := prefixOf[ns := p];
      nsOf := nsOf[p := ns];
    }

    /** Over any calls, every name returned expands under the final declarations to the IRI it
        was asked for. */
    method QnameAll(iris: seq<string>) returns (qs: seq<string>)
      requires Valid()
      modifies this`prefixOf, this`nsOf, this`next, this`qnames
      ensures Valid() && Extends(old(prefixOf), prefixOf) && Extends(old(nsOf), nsOf)
      ensures |qs| == |iris|
      ensures forall i :: 0 <= i < |iris| ==> qs[i] == "" || Spells(decodes, nsOf, qs[i], iris[i])
    {
      qs := [];
      for i := 0 to |iris|
        invariant Valid() && Extends(old(prefixOf), prefixOf) && Extends(old(nsOf), nsOf) && |qs| == i
        invariant forall j :: 0 <= j < i ==> iris[j] in qnames && qs[j] == qnames[iris[j]]
      {
        var q := Qname(iris[i]);
        qs := qs + [q];
      }
    }
  }

  /** Adding declarations changes no expansion. */
  lemma SpellingsKept(decodes: string -> bool, nsOf: map<string, string>, now: map<string, string>)
    requires Extends(nsOf, now)
    ensures forall q, iri :: Spells(decodes, nsOf, q, iri) ==> Spells(decodes, now, q, iri)
  {
  }

  lemma SplitParts(decodes: string -> bool, iri: string)
    requires SplitOf(decodes, iri).Some?
    ensures var (ns, local) := SplitOf(decodes, iri).value; ns + local == iri && IsNcName(decodes, local)
  {
    var i: nat :| LongestTail(iri, i);
    forall j: nat | LongestTail(iri, j) ensures j == i {
      TailUnique(iri, i, j);
    }
    assert iri[..i] + iri[i..] == iri;
  }

  // ---------------------------------------------------------------------------
  // Which bindings are declared
  // ---------------------------------------------------------------------------

  ghost function Members(s: seq<string>): set<string> {
    set x | x in s
  }

  ghost function BoundTo(bindings: map<string, string>, reserved: map<string, string>, p: string): string {
    if p in reserved then reserved[p] else if p in bindings then bindings[p] else ""
  }

  ghost predicate IsCandidate(decodes: string -> bool, bindings: map<string, string>, reserved: map<string, string>, p: string) {
    p in bindings && bindings[p] != "" && IsUsablePrefix(decodes, p) && p !in reserved &&
    forall q :: q in reserved ==> reserved[q] != bindings[p]
  }

  /** `p` is the least candidate for its namespace among `among`. */
  ghost predicate IsDeclared(decodes: string -> bool, bindings: map<string, string>, reserved: map<string, string>, among: set<string>, p: string) {
    p in among && IsCandidate(decodes, bindings, reserved, p) &&
    forall q :: q in among && IsCandidate(decodes, bindings, reserved, q) && bindings[q] == bindings[p] ==> StringOrder.Le(p, q)
  }

  /** The declarations are the reserved ones and the least candidates of `among`. */
  ghost predicate Declares(decodes: string -> bool, bindings: map<string, string>, reserved: map<string, string>, among: set<string>, nsOf: map<string, string>) {
    && (forall p :: p in nsOf <==> p in reserved || IsDeclared(decodes, bindings, reserved, among, p))
    && (forall p :: p in nsOf ==> nsOf[p] == BoundTo(bindings, reserved, p))
  }

  /** The keys in order. */
  method SortedKeys(bindings: map<string, string>) returns (ps: seq<string>)
    ensures InOrder(bindings, ps)
  {
    var keys: seq<string> := [];
    var left := bindings.Keys;
    while left != {}
      invariant left <= bindings.Keys && Members(keys) == bindings.Keys - left
      invariant forall i, j :: 0 <= i < j < |keys| ==> keys[i] != keys[j]
      decreases |left|
    {
      var p :| p in left;
      assert Members(keys + [p]) == Members(keys) + {p};
      assert bindings.Keys - (left - {p}) == (bindings.Keys - left) + {p};
      keys := keys + [p];
      left := left - {p};
    }
    ps := StringOrder.Sort(keys);
    StringOrder.SortSorted(keys);
    SortKeepsDistinct(keys, ps);
  }

  lemma SortKeepsDistinct(a: seq<string>, b: seq<string>)
    requires multiset(a) == multiset(b) && forall i, j :: 0 <= i < j < |a| ==> a[i] != a[j]
    ensures Members(a) == Members(b) && forall i, j :: 0 <= i < j < |b| ==> b[i] != b[j]
  {
    forall x ensures x in a <==> x in b {
      assert x in a <==> x in multiset(a);
      assert x in b <==> x in multiset(b);
    }
    forall i, j | 0 <= i < j < |b| ensures b[i] != b[j] {
      CountsOnce(a, b[i]);
      CountsTwice(b, i, j);
    }
  }

  lemma CountsTwice(b: seq<string>, i: nat, j: nat)
    requires i < j < |b|
    ensures b[i] == b[j] ==> multiset(b)[b[i]] >= 2
  {
    assert b == b[..j] + [b[j]] + b[j + 1..];
    assert b[i] in multiset(b[..j]) by {
      assert b[..j][i] == b[i];
    }
  }

  lemma {:induction false} CountsOnce(a: seq<string>, x: string)
    requires forall i, j :: 0 <= i < j < |a| ==> a[i] != a[j]
    ensures multiset(a)[x] <= 1
  {
    if a != [] {
      assert a == [a[0]] + a[1..];
      CountsOnce(a[1..], x);
      if x == a[0] {
        assert x !in a[1..];
      }
    }
  }

  ghost predicate InOrder(bindings: map<string, string>, ps: seq<string>) {
    Members(ps) == bindings.Keys && StringOrder.Sorted(ps) && forall j, k :: 0 <= j < k < |ps| ==> ps[j] != ps[k]
  }

  lemma {:induction false} SomeDeclared(decodes: string -> bool, bindings: map<string, string>, reserved: map<string, string>,
                                        ps: seq<string>, i: nat, j: nat) returns (p: string)
    requires InOrder(bindings, ps) && j < i <= |ps| && IsCandidate(decodes, bindings, reserved, ps[j])
    ensures IsDeclared(decodes, bindings, reserved, Members(ps[..i]), p) && bindings[p] == bindings[ps[j]]
    decreases j
  {
    if k :| 0 <= k < j && IsCandidate(decodes, bindings, reserved, ps[k]) && bindings[ps[k]] == bindings[ps[j]] {
      p := SomeDeclared(decodes, bindings, reserved, ps, i, k);
    } else {
      p := ps[j];
      assert ps[..i][j] == p;
      forall q | q in Members(ps[..i]) && IsCandidate(decodes, bindings, reserved, q) && bindings[q] == bindings[p]
        ensures StringOrder.Le(p, q)
      {
        var k :| 0 <= k < i && ps[k] == q;
        StringOrder.LeRefl(p);
      }
    }
  }

  lemma NextMember(bindings: map<string, string>, ps: seq<string>, i: nat)
    requires InOrder(bindings, ps) && i < |ps|
    ensures ps[i] in bindings && ps[i] !in Members(ps[..i]) && Members(ps[..i + 1]) == Members(ps[..i]) + {ps[i]}
    ensures forall q :: q in Members(ps[..i]) ==> StringOrder.Le(q, ps[i])
  {
    assert ps[i] in Members(ps);
    assert ps[..i + 1] == ps[..i] + [ps[i]];
  }

  /** What the next prefix in order does to the declared ones. */
  lemma BindStep(decodes: string -> bool, bindings: map<string, string>, reserved: map<string, string>, ps: seq<string>, i: nat,
                 nsOf: map<string, string>, prefixOf: map<string, string>)
    requires InOrder(bindings, ps) && i < |ps|
    requires Inverse(prefixOf, nsOf) && Inverse(nsOf, prefixOf)
    requires Declares(decodes, bindings, reserved, Members(ps[..i]), nsOf)
    ensures ps[i] in bindings
    ensures IsDeclared(decodes, bindings, reserved, Members(ps[..i + 1]), ps[i]) <==>
      bindings[ps[i]] != "" && IsUsablePrefix(decodes, ps[i]) && ps[i] !in nsOf && bindings[ps[i]] !in prefixOf
  {
    NextMember(bindings, ps, i);
    var next := ps[i];
    var ns := bindings[next];
    forall j | 0 <= j < i && IsCandidate(decodes, bindings, reserved, ps[j]) && bindings[ps[j]] == ns ensures ns in prefixOf {
      var p := SomeDeclared(decodes, bindings, reserved, ps, i, j);
      assert p in nsOf && nsOf[p] == ns;
    }
    if ns in prefixOf && IsDeclared(decodes, bindings, reserved, Members(ps[..i + 1]), next) {
      var q := prefixOf[ns];
      assert nsOf[q] == ns;
      if q !in reserved {
        StringOrder.LeAntisymmetric(next, q);
      }
      assert false;
    }
    if ns != "" && IsUsablePrefix(decodes, next) && next !in nsOf && ns !in prefixOf {
      assert IsCandidate(decodes, bindings, reserved, next);
      forall q | q in Members(ps[..i + 1]) && IsCandidate(decodes, bindings, reserved, q) && bindings[q] == ns
        ensures StringOrder.Le(next, q)
      {
        StringOrder.LeRefl(next);
      }
    }
  }

  ghost function WithBinding(decodes: string -> bool, nsOf: map<string, string>, prefixOf: map<string, string>, prefix: string, ns: string): map<string, string> {
    if ns != "" && IsUsablePrefix(decodes, prefix) && prefix !in nsOf && ns !in prefixOf then nsOf[prefix := ns] else nsOf
  }

  lemma DeclaresNext(decodes: string -> bool, bindings: map<string, string>, reserved: map<string, string>, ps: seq<string>, i: nat,
                     nsOf: map<string, string>, prefixOf: map<string, string>)
    requires InOrder(bindings, ps) && i < |ps| && ps[i] in bindings
    requires Inverse(prefixOf, nsOf) && Inverse(nsOf, prefixOf)
    requires Declares(decodes, bindings, reserved, Members(ps[..i]), nsOf)
    ensures Declares(decodes, bindings, reserved, Members(ps[..i + 1]), WithBinding(decodes, nsOf, prefixOf, ps[i], bindings[ps[i]]))
  {
    var now := WithBinding(decodes, nsOf, prefixOf, ps[i], bindings[ps[i]]);
    forall p ensures p in now <==> p in reserved || IsDeclared(decodes, bindings, reserved, Members(ps[..i + 1]), p) {
      DeclaredKey(decodes, bindings, reserved, ps, i, nsOf, prefixOf, p);
    }
  }

  lemma DeclaredKey(decodes: string -> bool, bindings: map<string, string>, reserved: map<string, string>, ps: seq<string>, i: nat,
                    nsOf: map<string, string>, prefixOf: map<string, string>, p: string)
    requires InOrder(bindings, ps) && i < |ps| && ps[i] in bindings
    requires Inverse(prefixOf, nsOf) && Inverse(nsOf, prefixOf)
    requires Declares(decodes, bindings, reserved, Members(ps[..i]), nsOf)
    ensures p in WithBinding(decodes, nsOf, prefixOf, ps[i], bindings[ps[i]]) <==>
      p in reserved || IsDeclared(decodes, bindings, reserved, Members(ps[..i + 1]), p)
  {
    if p != ps[i] {
      DeclaredStays(decodes, bindings, reserved, ps, i, p);
    } else {
      BindStep(decodes, bindings, reserved, ps, i, nsOf, prefixOf);
      NextMember(bindings, ps, i);
    }
  }

  lemma DeclaredStays(decodes: string -> bool, bindings: map<string, string>, reserved: map<string, string>, ps: seq<string>, i: nat, p: string)
    requires InOrder(bindings, ps) && i < |ps| && p != ps[i]
    ensures IsDeclared(decodes, bindings, reserved, Members(ps[..i + 1]), p) <==> IsDeclared(decodes, bindings, reserved, Members(ps[..i]), p)
  {
    NextMember(bindings, ps, i);
  }

  // ---------------------------------------------------------------------------
  // Blank node labels
  // ---------------------------------------------------------------------------

  /** The NCName test of the RDF/XML reader, which takes only ASCII at the start. */
  predicate IsLabelName(s: string) {
    s != "" && ('a' <= s[0] <= 'z' || 'A' <= s[0] <= 'Z' || s[0] == '_') &&
    forall i :: 1 <= i < |s| ==> IsNameChar(s[i]) || s[i] as int == 0xFFFD
  }

  ghost function LabelsOf(t: Closures.Term): set<string> {
    match t
    case Blank(id) => {id}
    case Quoted(s, p, o) => LabelsOf(s) + LabelsOf(o)
    case _ => {}
  }

  method CollectLabels(t: Closures.Term, labels: set<string>) returns (r: set<string>)
    ensures r == labels + LabelsOf(t)
  {
    match t {
      case Blank(id) => r := labels + {id};
      case Quoted(s, p, o) =>
        r := CollectLabels(s, labels);
        r := CollectLabels(o, r);
      case _ => r := labels;
    }
  }

  class NodeLabels {
    ghost const original: set<string>
    var labels: set<string>
    var relabeled: map<string, string>
    var nextLabel: nat

    ghost predicate Valid()
      reads this
    {
      && original <= labels
      && (forall l :: l in relabeled ==> !IsLabelName(l) && relabeled[l] in labels && relabeled[l] !in original && IsLabelName(relabeled[l]))
      && (forall l, m :: l in relabeled && m in relabeled && relabeled[l] == relabeled[m] ==> l == m)
    }

    constructor (labels: set<string>)
      ensures Valid() && original == labels && relabeled == map[]
    {
      this.original, this.labels, this.relabeled, this.nextLabel := labels, labels, map[], 0;
    }

    /** The label written for a blank node of the graph. */
    ghost function IdOf(l: string): Option<string>
      reads this
    {
      if IsLabelName(l) then Some(l) else if l in relabeled then Some(relabeled[l]) else None
    }

    method NodeId(l: string) returns (id: string)
      requires Valid() && l in original
      modifies this`labels, this`relabeled, this`nextLabel
      ensures Valid() && IdOf(l) == Some(id) && IsLabelName(id) && Extends(old(relabeled), relabeled)
    {
      if IsLabelName(l) {
        return l;
      }
      if l in relabeled {
        return relabeled[l];
      }
      nextLabel := NextFree("genid", labels, nextLabel);
      id := Generated("genid", nextLabel);
      GeneratedIsName("genid", nextLabel);
      labels := labels + {id};
      relabeled := relabeled[l := id];
    }

    /** Over any calls, equal labels get equal names and different labels different ones. */
    method NodeIds(ls: seq<string>) returns (ids: seq<string>)
      requires Valid() && forall i :: 0 <= i < |ls| ==> ls[i] in original
      modifies this`labels, this`relabeled, this`nextLabel
      ensures Valid() && |ids| == |ls|
      ensures forall i :: 0 <= i < |ls| ==> IsLabelName(ids[i])
      ensures forall i, j :: 0 <= i < |ls| && 0 <= j < |ls| ==> (ids[i] == ids[j] <==> ls[i] == ls[j])
    {
      ids := [];
      for i := 0 to |ls|
        invariant Valid() && |ids| == i
        invariant forall j :: 0 <= j < i ==> IsLabelName(ids[j]) && IdOf(ls[j]) == Some(ids[j])
      {
        var id := NodeId(ls[i]);
        ids := ids + [id];
      }
    }
  }
}
