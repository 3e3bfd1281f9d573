/** Sorting strings the way slices.Sort does, and decimal numerals. */
module StringOrder {

  /** Lexicographic order. */
  predicate Le(a: string, b: string) {
    a == [] || (b != [] && (a[0] < b[0] || (a[0] == b[0] && Le(a[1..], b[1..]))))
  }

  lemma {:induction false} LeTotal(a: string, b: string)
    ensures Le(a, b) || Le(b, a)
  {
    if a != [] && b != [] && a[0] == b[0] {
      LeTotal(a[1..], b[1..]);
    }
  }

  lemma {:induction false} LeAntisymmetric(a: string, b: string)
    requires Le(a, b) && Le(b, a)
    ensures a == b
  {
    if a != [] {
      LeAntisymmetric(a[1..], b[1..]);
      assert a == [a[0]] + a[1..] && b == [b[0]] + b[1..];
    }
  }

  lemma {:induction false} LeTransitive(a: string, b: string, c: string)
    requires Le(a, b) && Le(b, c)
    ensures Le(a, c)
  {
    if a != [] && a[0] == b[0] == c[0] {
      LeTransitive(a[1..], b[1..], c[1..]);
    }
  }

  ghost predicate Sorted(s: seq<string>) {
    forall i, j :: 0 <= i < j < |s| ==> Le(s[i], s[j])
  }

  function Insert(x: string, s: seq<string>): (r: seq<string>)
    ensures multiset(r) == multiset(s) + multiset{x}
  {
    if s == [] || Le(x, s[0]) then [x] + s
    else
      assert s == [s[0]] + s[1..];
      [s[0]] + Insert(x, s[1..])
  }

  function Sort(s: seq<string>): (r: seq<string>)
    ensures multiset(r) == multiset(s)
  {
    if s == [] then []
    else
      assert s == [s[0]] + s[1..];
      Insert(s[0], Sort(s[1..]))
  }

  lemma {:induction false} InsertSorted(x: string, s: seq<string>)
    requires Sorted(s)
    ensures Sorted(Insert(x, s))
  {
    if s != [] {
      if Le(x, s[0]) {
        forall j | 0 <= j < |s| ensures Le(x, s[j]) {
          if j > 0 {
            LeTransitive(x, s[0], s[j]);
          }
        }
      } else {
        LeTotal(x, s[0]);
        InsertSorted(x, s[1..]);
        var rest := Insert(x, s[1..]);
        forall j | 0 <= j < |rest| ensures Le(s[0], rest[j]) {
          assert rest[j] in multiset(rest);
          assert rest[j] == x || rest[j] in s[1..];
        }
      }
    }
  }

  lemma {:induction false} SortSorted(s: seq<string>)
    ensures Sorted(Sort(s))
  {
    if s != [] {
      SortSorted(s[1..]);
      InsertSorted(s[0], Sort(s[1..]));
    }
  }

  lemma TailContents(a: seq<string>)
    requires a != []
    ensures multiset(a[1..]) == multiset(a) - multiset{a[0]}
  {
    assert a == [a[0]] + a[1..];
  }

  lemma FirstIsLeast(a: seq<string>, x: string)
    requires Sorted(a) && x in a
    ensures Le(a[0], x)
  {
    LeRefl(a[0]);
  }

  lemma {:induction false} SortedUnique(a: seq<string>, b: seq<string>)
    requires Sorted(a) && Sorted(b) && multiset(a) == multiset(b)
    ensures a == b
  {
    assert |a| == |multiset(a)| == |multiset(b)| == |b|;
    if a != [] {
      assert a[0] in multiset(b) && b[0] in multiset(a);
      FirstIsLeast(a, b[0]);
      FirstIsLeast(b, a[0]);
      LeAntisymmetric(a[0], b[0]);
      TailContents(a);
      TailContents(b);
      SortedUnique(a[1..], b[1..]);
    }
  }

  lemma {:induction false} LeRefl(a: string)
    ensures Le(a, a)
  {
    if a != [] {
      LeRefl(a[1..]);
    }
  }

  /** The order of the input does not show in the sorted output. */
  lemma SortDependsOnContents(a: seq<string>, b: seq<string>)
    requires multiset(a) == multiset(b)
    ensures Sort(a) == Sort(b)
  {
    SortSorted(a);
    SortSorted(b);
    SortedUnique(Sort(a), Sort(b));
  }

  // ---------------------------------------------------------------------------
  // Numerals
  // ---------------------------------------------------------------------------

  function Digit(d: nat): char
    requires d < 10
  {
    "0123456789"[d]
  }

  /** strconv.Itoa for non-negative numbers. */
  function Itoa(n: nat): (r: string)
    ensures r != []
  {
    if n < 10 then [Digit(n)] else Itoa(n / 10) + [Digit(n % 10)]
  }

  lemma {:induction false} ItoaInjective(m: nat, n: nat)
    requires Itoa(m) == Itoa(n)
    ensures m == n
  {
    var a, b := Itoa(m), Itoa(n);
    assert a[|a| - 1] == Digit(m % 10) && b[|b| - 1] == Digit(n % 10);
    DigitInjective(m % 10, n % 10);
    if m >= 10 && n >= 10 {
      assert a[..|a| - 1] == Itoa(m / 10) && b[..|b| - 1] == Itoa(n / 10);
      ItoaInjective(m / 10, n / 10);
    }
  }

  lemma DigitInjective(c: nat, d: nat)
    requires c < 10 && d < 10 && Digit(c) == Digit(d)
    ensures c == d
  {
    assert "0123456789"[0] == '0' && "0123456789"[1] == '1' && "0123456789"[2] == '2' && "0123456789"[3] == '3'
        && "0123456789"[4] == '4' && "0123456789"[5] == '5' && "0123456789"[6] == '6' && "0123456789"[7] == '7'
        && "0123456789"[8] == '8' && "0123456789"[9] == '9';
  }

  // ---------------------------------------------------------------------------
  // Separators
  // ---------------------------------------------------------------------------

  /** Two texts that start with separator-free parts split at the same place. */
  lemma FirstSeparator(c: char, s: string, t: string, s': string, t': string)
    requires c !in s && c !in s' && s + [c] + t == s' + [c] + t'
    ensures s == s' && t == t'
  {
    var a, b := s + [c] + t, s' + [c] + t';
    assert a[|s|] == c && b[|s'|] == c;
    assert forall i :: 0 <= i < |s| ==> a[i] == s[i] != c;
    assert forall i :: 0 <= i < |s'| ==> b[i] == s'[i] != c;
    assert |s| == |s'|;
    assert a[..|s|] == s && b[..|s'|] == s';
    assert a[|s| + 1..] == t && b[|s'| + 1..] == t';
  }
}
