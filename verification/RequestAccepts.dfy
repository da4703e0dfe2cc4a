/** The parser accepts every derivable request and builds what it denotes. */
module RequestAccepts {
  import opened Octets
  import opened RequestMachine
  import opened RequestGrammar

  /** The bytes on which a state loops. */
  predicate Loops(s: State, b: byte) {
    match s
    case Method | Name => IsToken(b)
    case Uri => IsUri(b)
    case Major | Minor => IsDigit(b as int)
    case Value => IsText(b)
    case Lws => IsBlank(b)
    case _ => false
  }

  /** What a looping state does to the request with a run of its bytes. */
  function Absorb(s: State, r: RequestValue, w: bytes): RequestValue
    requires HasHeader(s, r.headers)
  {
    match s
    case Method => r.(verb := r.verb + w)
    case Uri => r.(uri := r.uri + w)
    case Name => r.(headers := PushName(r.headers, w))
    case Value => r.(headers := PushValue(r.headers, w))
    case Major => r.(major := Shift(r.major, w))
    case Minor => r.(minor := Shift(r.minor, w))
    case _ => r
  }

  function Shift(n: int, w: bytes): int {
    if w == [] then n else Shift(n, w[..|w| - 1]) * 10 + Digit(w[|w| - 1])
  }

  lemma {:induction false} ShiftZero(w: bytes)
    requires AllDigit(w)
    ensures Shift(0, w) == Numeral(w)
  {
    if w != [] {
      ShiftZero(w[..|w| - 1]);
    }
  }

  lemma {:induction false} ShiftFirst(w: bytes)
    requires w != [] && AllDigit(w)
    ensures Shift(Digit(w[0]), w[1..]) == Numeral(w)
  {
    var n := |w| - 1;
    if n == 0 {
      assert w[..n] == [];
    } else {
      assert w[1..][..n - 1] == w[..n][1..];
      ShiftFirst(w[..n]);
    }
  }

  lemma AbsorbNothing(s: State, r: RequestValue)
    requires HasHeader(s, r.headers)
    ensures Absorb(s, r, []) == r
  {
    assert r.verb + [] == r.verb && r.uri + [] == r.uri;
    if r.headers != [] {
      var last := r.headers[|r.headers| - 1];
      assert last.name + [] == last.name && last.value + [] == last.value;
      assert PushName(r.headers, []) == r.headers == PushValue(r.headers, []);
    }
  }

  lemma AbsorbMore(c: Config, v: bytes, b: byte)
    requires Loops(c.state, b)
    ensures Step(c.(req := Absorb(c.state, c.req, v)), b) ==
            Go(c.(req := Absorb(c.state, c.req, v + [b])))
  {
    var r := c.req;
    assert r.verb + v + [b] == r.verb + (v + [b]) && r.uri + v + [b] == r.uri + (v + [b]);
    assert (v + [b])[..|v|] == v;
    if c.state in {Name, Value} {
      var n := |r.headers| - 1;
      var last := r.headers[n];
      assert last.name + v + [b] == last.name + (v + [b]);
      assert last.value + v + [b] == last.value + (v + [b]);
      assert PushName(PushName(r.headers, v), [b]) == PushName(r.headers, v + [b]);
      assert PushValue(PushValue(r.headers, v), [b]) == PushValue(r.headers, v + [b]);
    }
  }

  lemma {:induction false} Loop(c: Config, w: bytes)
    requires forall i | 0 <= i < |w| :: Loops(c.state, w[i])
    ensures Drives(c, w, c.(req := Absorb(c.state, c.req, w)))
    decreases |w|
  {
    if w == [] {
      AbsorbNothing(c.state, c.req);
    } else {
      var v, b := w[..|w| - 1], w[|w| - 1];
      assert v + [b] == w;
      Loop(c, v);
      AbsorbMore(c, v, b);
      Chain(c, v, c.(req := Absorb(c.state, c.req, v)), [b], c.(req := Absorb(c.state, c.req, w)));
    }
  }

  /** A start byte that leads into a loop, and then the loop. */
  lemma StartLoop(c: Config, w: bytes, d: Config)
    requires w != [] && Step(c, w[0]) == Go(d)
    requires forall i | 1 <= i < |w| :: Loops(d.state, w[i])
    ensures Drives(c, w, d.(req := Absorb(d.state, d.req, w[1..])))
  {
    Loop(d, w[1..]);
  }

  lemma One(c: Config, a: byte, d: Config)
    requires Step(c, a) == Go(d)
    ensures Drives(c, [a], d)
  {
  }

  lemma Two(c: Config, a: byte, m: Config, b: byte, d: Config)
    requires Step(c, a) == Go(m) && Step(m, b) == Go(d)
    ensures Drives(c, [a, b], d)
  {
    One(c, a, m);
    One(m, b, d);
    Chain(c, [a], m, [b], d);
  }

  lemma HttpText(r: RequestValue)
    ensures Drives(At(VersionH, r), HTTP, At(MajorStart, r.(major := 0, minor := 0)))
  {
    Two(At(VersionH, r), UPPER_H, At(VersionT1, r), UPPER_T, At(VersionT2, r));
    Two(At(VersionT2, r), UPPER_T, At(VersionP, r), UPPER_P, At(VersionSlash, r));
    Chain(At(VersionH, r), [UPPER_H, UPPER_T], At(VersionT2, r), [UPPER_T, UPPER_P], At(VersionSlash, r));
    var d := At(MajorStart, r.(major := 0, minor := 0));
    One(At(VersionSlash, r), SLASH, d);
    Chain(At(VersionH, r), [UPPER_H, UPPER_T] + [UPPER_T, UPPER_P], At(VersionSlash, r), [SLASH], d);
    assert [UPPER_H, UPPER_T] + [UPPER_T, UPPER_P] + [SLASH] == HTTP;
  }

  lemma TargetText(r: RequestValue, verb: bytes, uri: bytes)
    requires r.verb == [] && r.uri == []
    requires verb != [] && AllToken(verb) && AllUri(uri)
    ensures Drives(At(MethodStart, r), verb + [SP] + uri + [SP],
                   At(VersionH, r.(verb := verb, uri := uri)))
  {
    var c := At(MethodStart, r);
    var c1 := At(Method, r.(verb := verb));
    var c2 := At(Uri, r.(verb := verb));
    var c3 := At(Uri, r.(verb := verb, uri := uri));
    StartLoop(c, verb, At(Method, r.(verb := [verb[0]])));
    assert [verb[0]] + verb[1..] == verb;
    Chain(c, verb, c1, [SP], c2);
    Loop(c2, uri);
    assert [] + uri == uri;
    Chain(c, verb + [SP], c2, uri, c3);
    Chain(c, verb + [SP] + uri, c3, [SP], At(VersionH, c3.req));
  }

  lemma MajorText(r: RequestValue, w: bytes)
    requires r.major == 0 && w != [] && AllDigit(w)
    ensures Drives(At(MajorStart, r), w + [DOT], At(MinorStart, r.(major := Numeral(w))))
  {
    var d := At(Major, r.(major := Numeral(w)));
    StartLoop(At(MajorStart, r), w, At(Major, r.(major := Digit(w[0]))));
    ShiftFirst(w);
    One(d, DOT, At(MinorStart, d.req));
    Chain(At(MajorStart, r), w, d, [DOT], At(MinorStart, d.req));
  }

  lemma MinorText(r: RequestValue, w: bytes)
    requires r.minor == 0 && w != [] && AllDigit(w)
    ensures Drives(At(MinorStart, r), w + CRLF, At(LineStart, r.(minor := Numeral(w))))
  {
    var d := At(Minor, r.(minor := Numeral(w)));
    StartLoop(At(MinorStart, r), w, At(Minor, r.(minor := Digit(w[0]))));
    ShiftFirst(w);
    Two(d, CR, At(Newline1, d.req), LF, At(LineStart, d.req));
    Chain(At(MinorStart, r), w, d, CRLF, At(LineStart, d.req));
  }

  lemma LineText(r: RequestValue, t: Syntax)
    requires r.verb == [] && r.uri == [] && IsSyntax(t)
    ensures Drives(At(MethodStart, r), RequestLine(t),
                   At(LineStart, Meaning(t).(headers := r.headers)))
  {
    var c := At(MethodStart, r);
    var v := r.(verb := t.verb, uri := t.uri);
    var z := v.(major := 0, minor := 0);
    var target := t.verb + [SP] + t.uri + [SP];
    var m := z.(major := Numeral(t.major));
    var d := At(LineStart, Meaning(t).(headers := r.headers));
    TargetText(r, t.verb, t.uri);
    HttpText(v);
    Chain(c, target, At(VersionH, v), HTTP, At(MajorStart, z));
    MajorText(z, t.major);
    Chain(c, target + HTTP, At(MajorStart, z), t.major + [DOT], At(MinorStart, m));
    MinorText(m, t.minor);
    Chain(c, target + HTTP + (t.major + [DOT]), At(MinorStart, m), t.minor + CRLF, d);
    assert target + HTTP + (t.major + [DOT]) + (t.minor + CRLF) == RequestLine(t);
  }

  // Header fields.

  function AfterField(f: Field): State {
    if f.Folded? && f.text == [] then Lws else Value
  }

  function WithHeader(r: RequestValue, h: Header): RequestValue {
    r.(headers := r.headers + [h])
  }

  lemma PushLast(hs: seq<Header>, h: Header, w: bytes)
    ensures PushName(hs + [h], w) == hs + [h.(name := h.name + w)]
    ensures PushValue(hs + [h], w) == hs + [h.(value := h.value + w)]
  {
  }

  lemma FirstLineText(r: RequestValue, name: bytes, value: bytes)
    requires IsField(First(name, value))
    ensures Drives(At(LineStart, r), name + [COLON, SP] + value,
                   At(Value, WithHeader(r, Header(name, value))))
  {
    var c := At(LineStart, r);
    var h := Header([name[0]], []);
    var n := WithHeader(r, Header(name, []));
    StartLoop(c, name, At(Name, WithHeader(r, h)));
    PushLast(r.headers, h, name[1..]);
    assert [name[0]] + name[1..] == name;
    Two(At(Name, n), COLON, At(BeforeValue, n), SP, At(Value, n));
    Chain(c, name, At(Name, n), [COLON, SP], At(Value, n));
    Loop(At(Value, n), value);
    PushLast(r.headers, Header(name, []), value);
    assert [] + value == value;
    Chain(c, name + [COLON, SP], At(Value, n), value, At(Value, WithHeader(r, Header(name, value))));
  }

  lemma FoldText(r: RequestValue, h: Header, indent: bytes, text: bytes)
    requires IsFold(indent, text)
    ensures Drives(At(LineStart, WithHeader(r, h)), indent + text,
                   At(if text == [] then Lws else Value,
                      WithHeader(r, Header(h.name, h.value + text))))
  {
    var q := WithHeader(r, h);
    var c := At(LineStart, q);
    StartLoop(c, indent, At(Lws, q));
    if text == [] {
      assert indent + text == indent && h.value + text == h.value;
    } else {
      var g := h.(value := h.value + [text[0]]);
      PushLast(r.headers, h, [text[0]]);
      StartLoop(At(Lws, q), text, At(Value, WithHeader(r, g)));
      PushLast(r.headers, g, text[1..]);
      assert h.value + [text[0]] + text[1..] == h.value + text;
      Chain(c, indent, At(Lws, q), text, At(Value, WithHeader(r, Header(h.name, h.value + text))));
    }
  }

  lemma {:induction false} FieldDrives(r: RequestValue, f: Field)
    requires IsField(f)
    ensures Drives(At(LineStart, r), FieldText(f), At(AfterField(f), WithHeader(r, Denoted(f))))
  {
    match f
    case First(name, value) => FirstLineText(r, name, value);
    case Folded(g, indent, text) =>
      var q := WithHeader(r, Denoted(g));
      FieldDrives(r, g);
      Two(At(AfterField(g), q), CR, At(Newline2, q), LF, At(LineStart, q));
      Chain(At(LineStart, r), FieldText(g), At(AfterField(g), q), CRLF, At(LineStart, q));
      FoldText(r, Denoted(g), indent, text);
      Chain(At(LineStart, r), FieldText(g) + CRLF, At(LineStart, q), indent + text,
            At(AfterField(f), WithHeader(r, Denoted(f))));
      assert FieldText(g) + CRLF + (indent + text) == FieldText(f);
  }

  lemma {:induction false} FieldsDrive(r: RequestValue, fs: Fields)
    requires AreFields(fs)
    ensures Drives(At(LineStart, r), FieldsText(fs),
                   At(LineStart, r.(headers := r.headers + Headers(fs))))
  {
    var c := At(LineStart, r);
    match fs
    case NoFields => assert r.headers + [] == r.headers;
    case More(before, f) =>
      var m := r.(headers := r.headers + Headers(before));
      var q := WithHeader(m, Denoted(f));
      FieldsDrive(r, before);
      FieldDrives(m, f);
      Chain(c, FieldsText(before), At(LineStart, m), FieldText(f), At(AfterField(f), q));
      Two(At(AfterField(f), q), CR, At(Newline2, q), LF, At(LineStart, q));
      Chain(c, FieldsText(before) + FieldText(f), At(AfterField(f), q), CRLF, At(LineStart, q));
      assert q.headers == r.headers + Headers(fs);
  }

  lemma BlankLine(r: RequestValue, rest: bytes)
    ensures Run(At(LineStart, r), CRLF + rest) == Parsed(Good, 2, At(Newline3, r))
  {
  }

  /** The header block: fields, a blank line, and then anything. */
  lemma BlockAccepted(r: RequestValue, fs: Fields, rest: bytes)
    requires AreFields(fs)
    ensures Run(At(LineStart, r), FieldsText(fs) + CRLF + rest) ==
            Parsed(Good, |FieldsText(fs)| + 2,
                   At(Newline3, r.(headers := r.headers + Headers(fs))))
  {
    var q := r.(headers := r.headers + Headers(fs));
    var w := FieldsText(fs);
    assert w + (CRLF + rest) == w + CRLF + rest;
    FieldsDrive(r, fs);
    BlankLine(q, rest);
    After(At(LineStart, r), w, At(LineStart, q), CRLF + rest);
  }

  /** A fresh parser on a cleared request; the version fields hold anything. */
  predicate Fresh(c: Config) {
    c.state == MethodStart && c.req.verb == [] && c.req.uri == [] && c.req.headers == []
  }

  /** Completeness: a derivable text is accepted whatever follows it, and what follows is not read. */
  lemma Accepts(c: Config, t: Syntax, rest: bytes)
    requires Fresh(c) && IsSyntax(t)
    ensures Run(c, Text(t) + rest) == Parsed(Good, |Text(t)|, At(Newline3, Meaning(t)))
  {
    var block := FieldsText(t.fields) + CRLF;
    var d := At(LineStart, Meaning(t).(headers := []));
    LineText(c.req, t);
    After(c, RequestLine(t), d, block + rest);
    assert RequestLine(t) + (block + rest) == Text(t) + rest;
    BlockAccepted(d.req, t.fields, rest);
    assert [] + Headers(t.fields) == Headers(t.fields);
  }
}
