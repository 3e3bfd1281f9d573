/** Writing a decoded triple to the graph that is returned: a subject must be an IRI or a blank
    node, a predicate becomes an IRI whatever it was, and a literal keeps its language tag only
    in the form the library knows (shacl/rdf.go, term/literal.go). */
module SrlTerms {
  import opened Common
  import opened SrlRules
  import opened SrlKeys

  datatype DataTriple = DataTriple(s: DataTerm, p: DataTerm, o: DataTerm)

  // ---------------------------------------------------------------------------
  // Language tags
  // ---------------------------------------------------------------------------

  predicate IsLetter(c: char) {
    'a' <= c <= 'z' || 'A' <= c <= 'Z'
  }

  /** The rest of a tag after `n` characters of a subtag; the first one has letters only. */
  predicate TagFrom(tag: string, n: nat, first: bool) {
    if tag == "" then 1 <= n <= 8
    else if tag[0] == '-' then 1 <= n <= 8 && TagFrom(tag[1..], 0, false)
    else (IsLetter(tag[0]) || (!first && '0' <= tag[0] <= '9')) && TagFrom(tag[1..], n + 1, first)
  }

  /** Subtags of one to eight letters, or digits after the first, joined by dashes. */
  predicate ValidTag(tag: string) {
    TagFrom(tag, 0, true)
  }

  function LowerChar(c: char): char {
    if 'A' <= c <= 'Z' then c - 'A' + 'a' else c
  }

  function Lower(text: string): (r: string)
    ensures |r| == |text|
  {
    if text == "" then "" else [LowerChar(text[0])] + Lower(text[1..])
  }

  /** Where the first two dashes in a row are; the length if there are none. */
  function DoubleDash(text: string): (n: nat)
    ensures n == |text| || n + 2 <= |text|
  {
    if |text| < 2 then |text| else if text[0] == '-' && text[1] == '-' then 0 else 1 + DoubleDash(text[1..])
  }

  function LanguageOf(tag: string): string {
    tag[..DoubleDash(tag)]
  }

  function DirectionOf(tag: string): string {
    var n := DoubleDash(tag); if n < |tag| then tag[n + 2..] else ""
  }

  predicate IsDirection(dir: string) {
    dir == "ltr" || dir == "rtl"
  }

  /** The tag of the literal that is stored: an invalid language is dropped with its direction, a
      valid one goes to lower case, an unknown direction is dropped. */
  function StoredTag(tag: string): string {
    if !ValidTag(LanguageOf(tag)) then ""
    else Lower(LanguageOf(tag)) + if IsDirection(DirectionOf(tag)) then "--" + DirectionOf(tag) else ""
  }

  /** A valid language in lower case, with nothing or a direction after two dashes. */
  predicate NormalTag(tag: string) {
    ValidTag(LanguageOf(tag)) && Lower(LanguageOf(tag)) == LanguageOf(tag) &&
    (DoubleDash(tag) == |tag| || IsDirection(DirectionOf(tag)))
  }

  lemma {:induction false} LowerTwice(text: string)
    ensures Lower(Lower(text)) == Lower(text)
  {
    if text != "" {
      LowerTwice(text[1..]);
      assert Lower(text)[1..] == Lower(text[1..]);
    }
  }

  lemma {:induction false} LowerIsValid(tag: string, n: nat, first: bool)
    requires TagFrom(tag, n, first)
    ensures TagFrom(Lower(tag), n, first)
  {
    if tag != "" {
      assert Lower(tag)[1..] == Lower(tag[1..]);
      if tag[0] == '-' {
        LowerIsValid(tag[1..], 0, false);
      } else {
        LowerIsValid(tag[1..], n + 1, first);
      }
    }
  }

  /** A valid tag has no two dashes in a row, and none where a direction is put after it. */
  lemma {:induction false} DashesAfter(tag: string, rest: string, n: nat, first: bool)
    requires TagFrom(tag, n, first) && (rest == "" || "--" <= rest)
    ensures DoubleDash(tag + rest) == |tag|
    decreases |tag|
  {
    if tag == "" {
      assert tag + rest == rest;
    } else {
      assert (tag + rest)[1..] == tag[1..] + rest;
      if tag[0] == '-' {
        DashesAfter(tag[1..], rest, 0, false);
      } else {
        DashesAfter(tag[1..], rest, n + 1, first);
      }
    }
  }

  lemma TagParts(lang: string, rest: string)
    requires ValidTag(lang) && (rest == "" || "--" <= rest)
    ensures DoubleDash(lang + rest) == |lang| && LanguageOf(lang + rest) == lang
    ensures DirectionOf(lang + rest) == if rest == "" then "" else rest[2..]
  {
    DashesAfter(lang, rest, 0, true);
    var tag := lang + rest;
    assert tag[..|lang|] == lang;
    if rest != "" {
      assert tag[|lang| + 2..] == rest[2..];
    }
  }

  lemma StoredTagIsNormal(tag: string)
    requires StoredTag(tag) != ""
    ensures NormalTag(StoredTag(tag)) && StoredTag(StoredTag(tag)) == StoredTag(tag)
  {
    var lang, dir := LanguageOf(tag), DirectionOf(tag);
    LowerIsValid(lang, 0, true);
    LowerTwice(lang);
    var rest := if IsDirection(dir) then "--" + dir else "";
    assert IsDirection(dir) ==> rest[2..] == dir;
    TagParts(Lower(lang), rest);
  }

  /** A tag is kept exactly when it is normal. */
  lemma TagKeptIff(tag: string)
    requires tag != ""
    ensures StoredTag(tag) == tag <==> NormalTag(tag)
  {
    if StoredTag(tag) == tag {
      StoredTagIsNormal(tag);
    }
    if NormalTag(tag) {
      var n := DoubleDash(tag);
      assert n < |tag| ==> tag == tag[..n] + tag[n..n + 2] + tag[n + 2..];
      DashesThere(tag);
      assert n == |tag| ==> tag[..n] == tag && DirectionOf(tag) == "";
    }
  }

  lemma {:induction false} DashesThere(tag: string)
    ensures var n := DoubleDash(tag); n < |tag| ==> tag[n..n + 2] == "--"
  {
    if |tag| >= 2 && !(tag[0] == '-' && tag[1] == '-') {
      DashesThere(tag[1..]);
      var n := DoubleDash(tag[1..]);
      assert n < |tag| - 1 ==> tag[1..][n..n + 2] == tag[n + 1..n + 3];
    }
  }

  // ---------------------------------------------------------------------------
  // Terms and triples
  // ---------------------------------------------------------------------------

  function Text(t: DataTerm): string {
    match t
    case IriTerm(value) => value
    case LiteralTerm(lexical, _, _) => lexical
    case BlankTerm(id) => id
  }

  /** The term that is read back from the graph after it was written. A blank node without a
      label gets a new one. */
  function StoredTerm(t: DataTerm, newLabel: string): DataTerm {
    match t
    case IriTerm(_) => t
    case BlankTerm(id) => if id == "" then BlankTerm(newLabel) else t
    case LiteralTerm(lexical, datatypeIri, language) =>
      if language == "" then LiteralTerm(lexical, if datatypeIri == "" then XSD_STRING else datatypeIri, "")
      else if StoredTag(language) == "" then LiteralTerm(lexical, XSD_STRING, "")
      else LiteralTerm(lexical, if IsDirection(DirectionOf(language)) then DIR_LANG_STRING else LANG_STRING, StoredTag(language))
  }

  /** The triple that is read back; None stands for the panic on a subject that is a literal. */
  function StoredTriple(t: DataTriple, sLabel: string, oLabel: string): Option<DataTriple> {
    if t.s.LiteralTerm? then None
    else Some(DataTriple(StoredTerm(t.s, sLabel), IriTerm(Text(t.p)), StoredTerm(t.o, oLabel)))
  }

  /** Terms that come back as they were, in each position of a triple. */
  predicate SubjectKept(t: DataTerm) {
    t.IriTerm? || (t.BlankTerm? && t.id != "")
  }

  predicate ObjectKept(t: DataTerm) {
    SubjectKept(t) || (t.LiteralTerm? && (t.language == "" || NormalTag(t.language)))
  }

  predicate TripleKept(t: DataTriple) {
    SubjectKept(t.s) && t.p.IriTerm? && ObjectKept(t.o)
  }

  /** What is read back is always kept when written again. */
  lemma StoredTermIsKept(t: DataTerm, newLabel: string)
    requires newLabel != ""
    ensures ObjectKept(StoredTerm(t, newLabel)) && (!t.LiteralTerm? ==> SubjectKept(StoredTerm(t, newLabel)))
  {
    if t.LiteralTerm? && t.language != "" && StoredTag(t.language) != "" {
      StoredTagIsNormal(t.language);
    }
  }

  lemma StoredTripleIsKept(t: DataTriple, sLabel: string, oLabel: string)
    requires sLabel != "" && oLabel != "" && StoredTriple(t, sLabel, oLabel).Some?
    ensures TripleKept(StoredTriple(t, sLabel, oLabel).value)
  {
    StoredTermIsKept(t.s, sLabel);
    StoredTermIsKept(t.o, oLabel);
  }

  /** A term that a key stands for comes back as it was exactly when it is of the right kind. */
  lemma TermKeptIff(t: DataTerm, newLabel: string)
    requires t == Canonical(t) && newLabel != ""
    ensures StoredTerm(t, newLabel) == t <==> ObjectKept(t)
  {
    if t.LiteralTerm? && t.language != "" {
      TagKeptIff(t.language);
      if NormalTag(t.language) {
        DirectionShows(t.language);
      }
    } else if t.BlankTerm? && t.id == "" {
      assert StoredTerm(t, newLabel) != t;
    }
  }

  lemma DirectionShows(tag: string)
    requires NormalTag(tag)
    ensures HasDoubleDash(tag) <==> IsDirection(DirectionOf(tag))
  {
    var n := DoubleDash(tag);
    if n < |tag| {
      DashesThere(tag);
      assert tag[n] == tag[n..n + 2][0] && tag[n + 1] == tag[n..n + 2][1];
    } else {
      NoDashes(tag);
      assert DirectionOf(tag) == "";
    }
  }

  lemma {:induction false} NoDashes(tag: string)
    requires DoubleDash(tag) == |tag|
    ensures !HasDoubleDash(tag)
  {
    if |tag| >= 2 {
      NoDashes(tag[1..]);
      forall i | 0 <= i < |tag| - 1 ensures !(tag[i] == '-' && tag[i + 1] == '-') {
        if i > 0 {
          assert tag[1..][i - 1] == tag[i] && tag[1..][i] == tag[i + 1];
        }
      }
    }
  }

  lemma TripleKeptIff(t: DataTriple, sLabel: string, oLabel: string)
    requires t == DataTriple(Canonical(t.s), Canonical(t.p), Canonical(t.o)) && sLabel != "" && oLabel != ""
    ensures StoredTriple(t, sLabel, oLabel) == Some(t) <==> TripleKept(t)
  {
    TermKeptIff(t.s, sLabel);
    TermKeptIff(t.o, oLabel);
  }
}
