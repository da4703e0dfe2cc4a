/**
 * The request language as derivation trees, with the text a tree derives and the request it
 * denotes. Nothing here mentions the parser.
 */
module RequestGrammar {
  import opened Octets
  import opened RequestMachine

  /** A header field: a first line, or a field continued by a line that starts with SP or HT. */
  datatype Field =
    | First(name: bytes, value: bytes)
    | Folded(field: Field, indent: bytes, text: bytes)

  datatype Fields = NoFields | More(fields: Fields, field: Field)

  datatype Syntax = Syntax(verb: bytes, uri: bytes, major: bytes, minor: bytes, fields: Fields)

  predicate IsField(f: Field) {
    match f
    case First(name, value) => name != [] && AllToken(name) && AllText(value)
    case Folded(g, indent, text) => IsField(g) && IsFold(indent, text)
  }

  /** The text of a continuation line may be empty; it does not begin with a blank. */
  predicate IsFold(indent: bytes, text: bytes) {
    indent != [] && AllBlank(indent) && AllText(text) && (text != [] ==> text[0] != SP)
  }

  predicate AreFields(fs: Fields) {
    fs.More? ==> AreFields(fs.fields) && IsField(fs.field)
  }

  predicate IsSyntax(t: Syntax) {
    && t.verb != [] && AllToken(t.verb)
    && AllUri(t.uri)
    && t.major != [] && AllDigit(t.major)
    && t.minor != [] && AllDigit(t.minor)
    && AreFields(t.fields)
  }

  // The derived text.

  function FieldText(f: Field): bytes {
    match f
    case First(name, value) => name + [COLON, SP] + value
    case Folded(g, indent, text) => FieldText(g) + CRLF + indent + text
  }

  function FieldsText(fs: Fields): bytes {
    match fs
    case NoFields => []
    case More(before, f) => FieldsText(before) + FieldText(f) + CRLF
  }

  function RequestLine(t: Syntax): bytes {
    t.verb + [SP] + t.uri + [SP] + HTTP + t.major + [DOT] + t.minor + CRLF
  }

  function Text(t: Syntax): bytes {
    RequestLine(t) + FieldsText(t.fields) + CRLF
  }

  // The denoted request: the lines of a folded value are joined with nothing between them.

  function Denoted(f: Field): Header {
    match f
    case First(name, value) => Header(name, value)
    case Folded(g, _, text) => Header(Denoted(g).name, Denoted(g).value + text)
  }

  function Headers(fs: Fields): seq<Header> {
    match fs
    case NoFields => []
    case More(before, f) => Headers(before) + [Denoted(f)]
  }

  function Meaning(t: Syntax): RequestValue
    requires IsSyntax(t)
  {
    RequestValue(t.verb, t.uri, Numeral(t.major), Numeral(t.minor), Headers(t.fields))
  }

  ghost predicate Derives(t: Syntax, w: bytes, r: RequestValue) {
    IsSyntax(t) && Text(t) == w && Meaning(t) == r
  }

  /** The text `w` denotes the request `r`. */
  ghost predicate Denotes(w: bytes, r: RequestValue) {
    exists t :: Derives(t, w, r)
  }

  ghost predicate InLanguage(w: bytes) {
    exists t :: IsSyntax(t) && Text(t) == w
  }

  // The canonical form of a request: no folds and no leading zeros.

  predicate IsHeader(h: Header) { h.name != [] && AllToken(h.name) && AllText(h.value) }

  predicate AreHeaders(hs: seq<Header>) { forall i | 0 <= i < |hs| :: IsHeader(hs[i]) }

  predicate IsRequest(r: RequestValue) {
    && r.verb != [] && AllToken(r.verb) && AllUri(r.uri)
    && r.major >= 0 && r.minor >= 0 && AreHeaders(r.headers)
  }

  function HeaderLines(hs: seq<Header>): bytes {
    if hs == [] then []
    else
      var h := hs[|hs| - 1];
      HeaderLines(hs[..|hs| - 1]) + (h.name + [COLON, SP] + h.value) + CRLF
  }

  function Print(r: RequestValue): bytes
    requires IsRequest(r)
  {
    r.verb + [SP] + r.uri + [SP] + HTTP + Decimal(r.major) + [DOT] + Decimal(r.minor) + CRLF
    + HeaderLines(r.headers) + CRLF
  }

  /** One unfolded field for each header. */
  function Plain(hs: seq<Header>): Fields {
    if hs == [] then NoFields
    else
      var h := hs[|hs| - 1];
      More(Plain(hs[..|hs| - 1]), First(h.name, h.value))
  }

  lemma {:induction false} PlainText(hs: seq<Header>)
    requires AreHeaders(hs)
    ensures AreFields(Plain(hs)) && FieldsText(Plain(hs)) == HeaderLines(hs)
    ensures Headers(Plain(hs)) == hs
  {
    if hs != [] {
      PlainText(hs[..|hs| - 1]);
    }
  }

  /** Every well-formed request has a derivation of its canonical text. */
  lemma CanonicalDerives(r: RequestValue) returns (t: Syntax)
    requires IsRequest(r)
    ensures Derives(t, Print(r), r)
  {
    t := Syntax(r.verb, r.uri, Decimal(r.major), Decimal(r.minor), Plain(r.headers));
    PlainText(r.headers);
    DecimalDenotes(r.major);
    DecimalDenotes(r.minor);
  }

  lemma {:induction false} DenotedIsHeader(f: Field)
    requires IsField(f)
    ensures IsHeader(Denoted(f))
  {
    if f.Folded? {
      DenotedIsHeader(f.field);
    }
  }

  lemma {:induction false} HeadersAreHeaders(fs: Fields)
    requires AreFields(fs)
    ensures AreHeaders(Headers(fs))
  {
    if fs.More? {
      HeadersAreHeaders(fs.fields);
      DenotedIsHeader(fs.field);
    }
  }
}
