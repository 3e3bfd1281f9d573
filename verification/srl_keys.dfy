/** The string keys under which the SRL engine stores terms, and their decoding
    (shacl/srl_eval.go:239-372). Text is a sequence of Unicode characters. */
module SrlKeys {
  import opened Common
  import opened SrlRules

  const XSD_STRING: string := "http://www.w3.org/2001/XMLSchema#string"
  const LANG_STRING: string := "http://www.w3.org/1999/02/22-rdf-syntax-ns#langString"
  const DIR_LANG_STRING: string := "http://www.w3.org/1999/02/22-rdf-syntax-ns#dirLangString"

  /** A term of the data graph. */
  datatype DataTerm =
    | IriTerm(value: string)
    | LiteralTerm(lexical: string, datatypeIri: string, language: string)
    | BlankTerm(id: string)

  function Encode(t: DataTerm): string {
    match t
    case IriTerm(value) => "<" + value + ">"
    case LiteralTerm(lexical, datatypeIri, language) =>
      if language != "" then "\"" + Escape(lexical) + "\"@" + language
      else "\"" + Escape(lexical) + "\"^^<" + (if datatypeIri == "" then XSD_STRING else datatypeIri) + ">"
    case BlankTerm(id) => "_:" + id
  }

  /** The term a key stands for: the datatype of a literal is implied by its language, or
      is xsd:string when absent. */
  function Canonical(t: DataTerm): DataTerm {
    match t
    case LiteralTerm(lexical, datatypeIri, language) =>
      if language != "" then LiteralTerm(lexical, LanguageDatatype(language), language)
      else if datatypeIri == "" then LiteralTerm(lexical, XSD_STRING, "")
      else t
    case _ => t
  }

  function LanguageDatatype(language: string): string {
    if HasDoubleDash(language) then DIR_LANG_STRING else LANG_STRING
  }

  predicate HasDoubleDash(text: string) {
    exists i :: 0 <= i < |text| - 1 && text[i] == '-' && text[i + 1] == '-'
  }

  predicate HasSuffix(text: string, suffix: string) {
    |suffix| <= |text| && text[|text| - |suffix|..] == suffix
  }

  // ---------------------------------------------------------------------------
  // Decoding, as functions
  // ---------------------------------------------------------------------------

  function UnescapeChar(c: char): char {
    match c
    case 'n' => '\n'
    case 'r' => '\r'
    case 't' => '\t'
    case _ => c
  }

  function Unescape(text: string): string {
    if text == [] then []
    else if text[0] == '\\' && |text| > 1 then [UnescapeChar(text[1])] + Unescape(text[2..])
    else [text[0]] + Unescape(text[1..])
  }

  /** The index of the closing quote, scanning from `i`; past the end when there is none. */
  function ClosingQuote(key: string, i: nat): nat
    decreases |key| - i
  {
    if i >= |key| then i
    else if key[i] == '\\' then ClosingQuote(key, i + 2)
    else if key[i] == '"' then i
    else ClosingQuote(key, i + 1)
  }

  function LiteralOf(lexical: string, rest: string): DataTerm {
    if "^^<" <= rest && HasSuffix(rest, ">") then
      assert |rest| >= 4 by { assert rest[2] == '<'; }
      LiteralTerm(lexical, rest[3..|rest| - 1], "")
    else if "@" <= rest then LiteralTerm(lexical, LanguageDatatype(rest[1..]), rest[1..])
    else LiteralTerm(lexical, XSD_STRING, "")
  }

  /** None where the code would index past the key: a literal key without its closing
      quote, which `Encode` never makes. */
  function Decode(key: string): (r: Option<DataTerm>) {
    if "<" <= key && HasSuffix(key, ">") then
      assert |key| >= 2 by { assert key[0] == '<'; }
      Some(IriTerm(key[1..|key| - 1]))
    else if "_:" <= key then Some(BlankTerm(key[2..]))
    else if "\"" <= key then
      var i := ClosingQuote(key, 1);
      if i >= |key| then None else
      ClosingQuoteAfter(key, 1);
      Some(LiteralOf(Unescape(key[1..i]), key[i + 1..]))
    else Some(IriTerm(key))
  }

  lemma {:induction false} ClosingQuoteAfter(key: string, i: nat)
    ensures ClosingQuote(key, i) >= i
    decreases |key| - i
  {
    if i < |key| {
      if key[i] == '\\' {
        ClosingQuoteAfter(key, i + 2);
      } else if key[i] != '"' {
        ClosingQuoteAfter(key, i + 1);
      }
    }
  }

  // ---------------------------------------------------------------------------
  // Decoding, as the code scans
  // ---------------------------------------------------------------------------

  method EscapeLiteralValue(text: string) returns (escaped: string)
    ensures escaped == Escape(text)
  {
    escaped := "";
    for i := 0 to |text|
      invariant escaped + Escape(text[i..]) == Escape(text)
    {
      EscapeFrom(text, i);
      ConcatAssoc(escaped, EscapeChar(text[i]), Escape(text[i + 1..]));
      escaped := escaped + EscapeChar(text[i]);
    }
  }

  method UnescapeLiteralValue(text: string) returns (plain: string)
    ensures plain == Unescape(text)
  {
    plain := "";
    var i := 0;
    while i < |text|
      invariant 0 <= i <= |text|
      invariant plain + Unescape(text[i..]) == Unescape(text)
    {
      UnescapeFrom(text, i);
      if text[i] == '\\' && i + 1 < |text| {
        ConcatAssoc(plain, [UnescapeChar(text[i + 1])], Unescape(text[i + 2..]));
        plain := plain + [UnescapeChar(text[i + 1])];
        i := i + 2;
      } else {
        ConcatAssoc(plain, [text[i]], Unescape(text[i + 1..]));
        plain := plain + [text[i]];
        i := i + 1;
      }
    }
  }

  lemma EscapeFrom(text: string, i: nat)
    requires i < |text|
    ensures Escape(text[i..]) == EscapeChar(text[i]) + Escape(text[i + 1..])
  {
    assert text[i..][1..] == text[i + 1..];
  }

  lemma UnescapeFrom(text: string, i: nat)
    requires i < |text|
    ensures Unescape(text[i..]) ==
      if text[i] == '\\' && i + 1 < |text| then [UnescapeChar(text[i + 1])] + Unescape(text[i + 2..])
      else [text[i]] + Unescape(text[i + 1..])
  {
    if i + 1 < |text| {
      assert text[i..][2..] == text[i + 2..];
    }
    assert text[i..][1..] == text[i + 1..];
  }

  method ParseKeyLiteral(key: string) returns (t: Option<DataTerm>)
    requires "\"" <= key
    ensures t == Decode(key)
  {
    assert key[0] == '"';
    var i := 1;
    while i < |key| && key[i] != '"'
      invariant 1 <= i
      invariant ClosingQuote(key, 1) == ClosingQuote(key, i)
    {
      if key[i] == '\\' {
        i := i + 2;
      } else {
        i := i + 1;
      }
    }
    if i >= |key| {
      return None;
    }
    var lexical := UnescapeLiteralValue(key[1..i]);
    t := Some(LiteralOf(lexical, key[i + 1..]));
  }

  // ---------------------------------------------------------------------------
  // Round trip
  // ---------------------------------------------------------------------------

  lemma {:induction false} UnescapeEscape(text: string)
    ensures Unescape(Escape(text)) == text
  {
    if text != [] {
      UnescapeEscape(text[1..]);
      var rest := Escape(text[1..]);
      var whole := EscapeChar(text[0]) + rest;
      if |EscapeChar(text[0])| == 2 {
        assert whole[2..] == rest;
      } else {
        assert whole[1..] == rest;
      }
    }
  }

  lemma {:induction false} ClosingQuoteFound(before: string, text: string, rest: string)
    ensures ClosingQuote(before + Escape(text) + "\"" + rest, |before|) == |before| + |Escape(text)|
    decreases |text|
  {
    var key := before + Escape(text) + "\"" + rest;
    if text != [] {
      var c := EscapeChar(text[0]);
      var longer := before + c;
      assert key == longer + Escape(text[1..]) + "\"" + rest;
      ClosingQuoteFound(longer, text[1..], rest);
      assert key[|before|] == c[0];
    }
  }

  lemma LiteralKeyDecodes(lexical: string, tail: string)
    ensures Decode("\"" + Escape(lexical) + "\"" + tail) == Some(LiteralOf(lexical, tail))
  {
    ClosingQuoteFound("\"", lexical, tail);
    UnescapeEscape(lexical);
    QuotedDecodes(Escape(lexical), tail, "\"" + Escape(lexical) + "\"" + tail);
  }

  lemma QuotedDecodes(quoted: string, tail: string, key: string)
    requires key == "\"" + quoted + "\"" + tail && ClosingQuote(key, 1) == 1 + |quoted|
    ensures Decode(key) == Some(LiteralOf(Unescape(quoted), tail))
  {
    BetweenQuotes(key, quoted, tail, '"');
    assert key[0] == '"';
  }

  lemma BetweenQuotes(key: string, text: string, tail: string, quote: char)
    requires key == [quote] + text + [quote] + tail
    ensures |key| == |text| + |tail| + 2 && key[0] == quote && key[1..1 + |text|] == text && key[2 + |text|..] == tail
  {
  }

  lemma LanguageKeyDecodes(lexical: string, language: string)
    ensures Decode("\"" + Escape(lexical) + "\"@" + language) ==
      Some(LiteralTerm(lexical, LanguageDatatype(language), language))
  {
    LiteralKeyDecodes(lexical, "@" + language);
    LanguageTail(lexical, language);
    RegroupLanguage("\"" + Escape(lexical), language);
  }

  lemma LanguageTail(lexical: string, language: string)
    ensures LiteralOf(lexical, "@" + language) == LiteralTerm(lexical, LanguageDatatype(language), language)
  {
    var tail := "@" + language;
    assert tail[0] == '@' && "^^<"[0] == '^';
    assert tail[1..] == language;
  }

  lemma RegroupLanguage(a: string, b: string)
    ensures a + "\"@" + b == a + "\"" + ("@" + b)
  {
  }

  lemma TypedTail(lexical: string, datatypeIri: string)
    ensures LiteralOf(lexical, "^^<" + datatypeIri + ">") == LiteralTerm(lexical, datatypeIri, "")
  {
    var tail := "^^<" + datatypeIri + ">";
    assert tail[3..|tail| - 1] == datatypeIri;
  }

  lemma TypedKeyDecodes(lexical: string, datatypeIri: string)
    ensures Decode("\"" + Escape(lexical) + "\"^^<" + datatypeIri + ">") == Some(LiteralTerm(lexical, datatypeIri, ""))
  {
    LiteralKeyDecodes(lexical, "^^<" + datatypeIri + ">");
    TypedTail(lexical, datatypeIri);
    Regroup("\"" + Escape(lexical), datatypeIri);
  }

  lemma Regroup(a: string, b: string)
    ensures a + "\"^^<" + b + ">" == a + "\"" + ("^^<" + b + ">")
  {
  }

  /** Decoding an encoded key gives back the term, for every term and any text in it. */
  lemma RoundTrip(t: DataTerm)
    ensures Decode(Encode(t)) == Some(Canonical(t))
  {
    var key := Encode(t);
    match t {
      case IriTerm(value) =>
        assert key[1..|key| - 1] == value;
      case BlankTerm(id) =>
        assert key[0] == '_' && key[1] == ':' && key[2..] == id;
      case LiteralTerm(lexical, datatypeIri, language) =>
        if language != "" {
          LanguageKeyDecodes(lexical, language);
        } else {
          TypedKeyDecodes(lexical, if datatypeIri == "" then XSD_STRING else datatypeIri);
        }
    }
  }

  /** Two terms share a key exactly when they are the same term, so the engine's
      string-keyed set of triples loses and merges nothing. */
  lemma EncodeInjective(a: DataTerm, b: DataTerm)
    ensures Encode(a) == Encode(b) <==> Canonical(a) == Canonical(b)
  {
    RoundTrip(a);
    RoundTrip(b);
    assert Encode(Canonical(a)) == Encode(a);
    assert Encode(Canonical(b)) == Encode(b);
  }

  /** A constant of a rule as a data term; triple terms and variables are none. */
  function Constant(t: Term): Option<DataTerm> {
    match t
    case Iri(value) => Some(IriTerm(value))
    case Literal(lexical, datatypeIri, language) =>
      if language == "" && datatypeIri == "" then None else Some(LiteralTerm(lexical, datatypeIri, language))
    case BlankNode(id) => Some(BlankTerm(id))
    case _ => None
  }

  /** A constant in a rule matches a data term exactly when it denotes it. */
  lemma ConstantMatchesItself(t: Term, d: DataTerm, b: Binding)
    requires Constant(t).Some?
    ensures MatchTerm(t, Encode(d), b).Some? <==> Canonical(Constant(t).value) == Canonical(d)
  {
    assert TermKey(t) == Encode(Constant(t).value);
    EncodeInjective(Constant(t).value, d);
  }
}
