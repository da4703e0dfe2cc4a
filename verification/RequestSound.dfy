/** Every run of the parser builds a derivation tree of the bytes it has consumed. */
module RequestSound {
  import opened Octets
  import opened RequestMachine
  import opened RequestGrammar
  import opened RequestAccepts

  function Order(s: State): nat {
    match s
    case MethodStart => 0 case Method => 1 case Uri => 2
    case VersionH => 3 case VersionT1 => 4 case VersionT2 => 5 case VersionP => 6
    case VersionSlash => 7 case MajorStart => 8 case Major => 9 case MinorStart => 10
    case Minor => 11 case Newline1 => 12
    case _ => 13
  }

  /** The parts of a tree under construction that the parser has reached by state `s`. */
  predicate Shape(s: State, t: Syntax) {
    && AllToken(t.verb) && AllUri(t.uri) && AllDigit(t.major) && AllDigit(t.minor)
    && (t.verb != [] <==> Order(s) > 0)
    && (Order(s) < 2 ==> t.uri == [])
    && (t.major != [] <==> Order(s) > 8)
    && (t.minor != [] <==> Order(s) > 10)
    && (Order(s) < 13 ==> t.fields == NoFields)
    && AreFields(t.fields)
    && (s in {Lws, Name, BeforeValue, Value, Newline2} ==> t.fields.More? && Open(s, t.fields.field))
  }

  /** What state `s` says of the field it is in. */
  predicate Open(s: State, f: Field) {
    && IsField(f)
    && (s in {Name, BeforeValue} ==> f.First? && f.value == [])
    && (s == Lws ==> f.Folded? && f.text == [])
    && (s == Value && f.Folded? ==> f.text != [])
  }

  /** The text of the field that state `s` is in. */
  function OpenText(s: State, f: Field): bytes {
    match s
    case Name => if f.First? then f.name else []
    case BeforeValue => if f.First? then f.name + [COLON] else []
    case Newline2 => FieldText(f) + [CR]
    case _ => FieldText(f)
  }

  /** The request holds what the tree denotes so far. */
  predicate Holds(s: State, r: RequestValue, t: Syntax)
    requires AllDigit(t.major) && AllDigit(t.minor)
  {
    && r.verb == t.verb && r.uri == t.uri && r.headers == Headers(t.fields)
    && (Order(s) >= 8 ==> r.major == Numeral(t.major) && r.minor == Numeral(t.minor))
  }

  /** The bytes consumed on the way to `s`. */
  function SoFar(s: State, t: Syntax): bytes
    requires Shape(s, t)
  {
    var target := t.verb + [SP] + t.uri;
    match s
    case MethodStart => []
    case Method => t.verb
    case Uri => target
    case VersionH => target + [SP]
    case VersionT1 => target + [SP] + HTTP[..1]
    case VersionT2 => target + [SP] + HTTP[..2]
    case VersionP => target + [SP] + HTTP[..3]
    case VersionSlash => target + [SP] + HTTP[..4]
    case MajorStart => target + [SP] + HTTP
    case Major => target + [SP] + HTTP + t.major
    case MinorStart => target + [SP] + HTTP + t.major + [DOT]
    case Minor => target + [SP] + HTTP + t.major + [DOT] + t.minor
    case Newline1 => target + [SP] + HTTP + t.major + [DOT] + t.minor + [CR]
    case LineStart => RequestLine(t) + FieldsText(t.fields)
    case Newline3 => RequestLine(t) + FieldsText(t.fields) + [CR]
    case Lws | Name | BeforeValue | Value | Newline2 =>
      RequestLine(t) + FieldsText(t.fields.fields) + OpenText(s, t.fields.field)
  }

  function GrowField(s: State, f: Field, b: byte): Field {
    match f
    case First(name, value) =>
      if s == LineStart then Folded(f, [b], [])
      else if s == Name then First(name + [b], value) else First(name, value + [b])
    case Folded(g, indent, text) =>
      if s == LineStart then Folded(f, [b], [])
      else if s == Lws && IsBlank(b) then Folded(g, indent + [b], text)
      else Folded(g, indent, text + [b])
  }

  /** The tree after one more byte that does not end its part. */
  function Grow(s: State, t: Syntax, b: byte): Syntax {
    match s
    case MethodStart | Method => if b == SP then t else t.(verb := t.verb + [b])
    case Uri => if b == SP then t else t.(uri := t.uri + [b])
    case MajorStart | Major => if b == DOT then t else t.(major := t.major + [b])
    case MinorStart | Minor => if b == CR then t else t.(minor := t.minor + [b])
    case LineStart | Lws | Value | Name =>
      if b == CR || (b == COLON && s == Name) then t
      else if s == LineStart && IsToken(b) then t.(fields := More(t.fields, First([b], [])))
      else if t.fields.More? then
        t.(fields := More(t.fields.fields, GrowField(s, t.fields.field, b)))
      else t
    case _ => t
  }

  ghost predicate Builds(c: Config, t: Syntax, w: bytes) {
    Shape(c.state, t) && Holds(c.state, c.req, t) && SoFar(c.state, t) == w
  }

  lemma GrowTarget(c: Config, t: Syntax, w: bytes, b: byte)
    requires Order(c.state) < 3 && Builds(c, t, w) && Step(c, b).Go?
    ensures Builds(Step(c, b).next, Grow(c.state, t, b), w + [b])
  {
  }

  lemma GrowHttp(c: Config, t: Syntax, w: bytes, b: byte)
    requires 3 <= Order(c.state) < 8 && Builds(c, t, w) && Step(c, b).Go?
    ensures Builds(Step(c, b).next, t, w + [b])
  {
  }

  lemma GrowMajor(c: Config, t: Syntax, w: bytes, b: byte)
    requires c.state in {MajorStart, Major} && Builds(c, t, w) && IsDigit(b as int)
    ensures Step(c, b).Go? && Builds(Step(c, b).next, Grow(c.state, t, b), w + [b])
  {
    NumeralMore(t.major, b);
    assert SoFar(Major, Grow(c.state, t, b)) == w + [b];
  }

  lemma GrowMinor(c: Config, t: Syntax, w: bytes, b: byte)
    requires c.state in {MinorStart, Minor} && Builds(c, t, w) && IsDigit(b as int)
    ensures Step(c, b).Go? && Builds(Step(c, b).next, Grow(c.state, t, b), w + [b])
  {
    NumeralMore(t.minor, b);
    assert SoFar(Minor, Grow(c.state, t, b)) == w + [b];
  }

  lemma GrowDelimiter(c: Config, t: Syntax, w: bytes, b: byte)
    requires 8 <= Order(c.state) < 13 && Builds(c, t, w) && Step(c, b).Go? && !IsDigit(b as int)
    ensures Builds(Step(c, b).next, Grow(c.state, t, b), w + [b])
  {
    if c.state == Newline1 {
      assert w + [b] == RequestLine(t) + FieldsText(t.fields);
    }
  }

  // Header fields.

  lemma StartFold(t: Syntax, r: RequestValue, b: byte)
    requires Shape(LineStart, t) && Holds(LineStart, r, t) && t.fields.More? && IsBlank(b)
    ensures var u := t.(fields := More(t.fields.fields, Folded(t.fields.field, [b], [])));
            Shape(Lws, u) && Holds(Lws, r, u) && SoFar(Lws, u) == SoFar(LineStart, t) + [b]
  {
    var f, before := t.fields.field, FieldsText(t.fields.fields);
    assert RequestLine(t) + (before + FieldText(f) + CRLF) + [b]
        == RequestLine(t) + before + (FieldText(f) + CRLF + [b] + []);
    assert Denoted(f).value + [] == Denoted(f).value;
  }

  /** The byte that starts a field or a continuation line. */
  lemma GrowLineStart(c: Config, t: Syntax, w: bytes, b: byte)
    requires c.state == LineStart && Builds(c, t, w) && Step(c, b).Go?
    ensures Builds(Step(c, b).next, Grow(c.state, t, b), w + [b])
  {
    if b != CR && !IsToken(b) {
      StartFold(t, c.req, b);
    }
  }

  lemma GrowFirst(s: State, f: Field, b: byte)
    requires s in {Name, Value} && f.First? && Open(s, f)
    requires if s == Name then IsToken(b) else IsText(b)
    ensures Open(s, GrowField(s, f, b))
    ensures OpenText(s, GrowField(s, f, b)) == OpenText(s, f) + [b]
  {
  }

  lemma GrowFolded(s: State, f: Field, b: byte)
    requires s in {Lws, Value} && f.Folded? && Open(s, f) && (IsText(b) || (s == Lws && b == TAB))
    ensures var g := GrowField(s, f, b);
            && Open(if s == Lws && IsBlank(b) then Lws else Value, g)
            && FieldText(g) == FieldText(f) + [b]
            && Denoted(g).name == Denoted(f).name
            && Denoted(g).value == Denoted(f).value + if s == Lws && IsBlank(b) then [] else [b]
  {
  }

  /** The bytes that extend the field being read. */
  lemma GrowInField(c: Config, t: Syntax, w: bytes, b: byte)
    requires c.state in {Name, Lws, Value} && Builds(c, t, w)
    requires Step(c, b).Go? && b != CR && !(c.state == Name && b == COLON)
    ensures Builds(Step(c, b).next, Grow(c.state, t, b), w + [b])
  {
    var f := t.fields.field;
    var m := RequestLine(t) + FieldsText(t.fields.fields);
    if f.First? {
      GrowFirst(c.state, f, b);
    } else {
      GrowFolded(c.state, f, b);
    }
    PushLast(Headers(t.fields.fields), Denoted(f), [b]);
    assert m + OpenText(c.state, f) + [b] == m + (OpenText(c.state, f) + [b]);
  }

  /** The bytes that only end a part of a field line. */
  lemma GrowSeparator(c: Config, t: Syntax, w: bytes, b: byte)
    requires Builds(c, t, w) && Step(c, b).Go?
    requires c.state == BeforeValue || (c.state in {Lws, Value} && b == CR)
             || (c.state == Name && b == COLON)
    ensures Builds(Step(c, b).next, t, w + [b])
  {
    var s, f := Step(c, b).next.state, t.fields.field;
    var m := RequestLine(t) + FieldsText(t.fields.fields);
    if c.state == BeforeValue {
      assert f.name + [COLON] + [SP] == f.name + [COLON, SP] + [];
    }
    assert OpenText(s, f) == OpenText(c.state, f) + [b];
    assert m + OpenText(c.state, f) + [b] == m + OpenText(s, f);
  }

  lemma GrowNewline(c: Config, t: Syntax, w: bytes, b: byte)
    requires c.state == Newline2 && Builds(c, t, w) && Step(c, b).Go?
    ensures Builds(Step(c, b).next, t, w + [b])
  {
  }

  /** One byte of the run adds one byte to the tree under construction. */
  lemma Grows(c: Config, t: Syntax, w: bytes, b: byte)
    requires Builds(c, t, w) && Step(c, b).Go?
    ensures Builds(Step(c, b).next, Grow(c.state, t, b), w + [b])
  {
    match c.state
    case MethodStart | Method | Uri => GrowTarget(c, t, w, b);
    case VersionH | VersionT1 | VersionT2 | VersionP | VersionSlash => GrowHttp(c, t, w, b);
    case MajorStart | Major =>
      if IsDigit(b as int) { GrowMajor(c, t, w, b); } else { GrowDelimiter(c, t, w, b); }
    case MinorStart | Minor =>
      if IsDigit(b as int) { GrowMinor(c, t, w, b); } else { GrowDelimiter(c, t, w, b); }
    case Newline1 => GrowDelimiter(c, t, w, b);
    case LineStart => GrowLineStart(c, t, w, b);
    case Name | Lws | Value =>
      if b == CR || (c.state == Name && b == COLON) { GrowSeparator(c, t, w, b); }
      else { GrowInField(c, t, w, b); }
    case BeforeValue => GrowSeparator(c, t, w, b);
    case Newline2 => GrowNewline(c, t, w, b);
    case Newline3 =>
  }

  lemma Complete(c: Config, t: Syntax, w: bytes, b: byte)
    requires Builds(c, t, w) && Step(c, b) == Halt(Good)
    ensures Derives(t, w + [b], c.req)
  {
  }

  lemma OneMore(w: bytes, rest: bytes, n: nat)
    requires n < |rest|
    ensures w + [rest[0]] + rest[1..][..n] == w + rest[..n + 1]
  {
  }

  /** Soundness: what is accepted has a derivation that denotes the request built. */
  lemma {:induction false} Sound(c: Config, t: Syntax, w: bytes, rest: bytes) returns (u: Syntax)
    requires Builds(c, t, w) && Run(c, rest).verdict == Good
    ensures Derives(u, w + rest[..Run(c, rest).used], Run(c, rest).config.req)
    decreases rest
  {
    var b := rest[0];
    match Step(c, b)
    case Halt(_) =>
      Complete(c, t, w, b);
      assert rest[..1] == [b];
      u := t;
    case Go(next) =>
      Grows(c, t, w, b);
      u := Sound(next, Grow(c.state, t, b), w + [b], rest[1..]);
      OneMore(w, rest, Run(next, rest[1..]).used);
  }

  lemma StartBuilds(c: Config)
    requires Fresh(c)
    ensures Builds(c, Syntax([], [], [], [], NoFields), [])
  {
  }
}
