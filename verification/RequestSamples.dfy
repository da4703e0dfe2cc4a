/** Single bytes, and one request in full, in characters. */
module RequestSamples {
  import opened Octets
  import opened RequestMachine
  import opened RequestGrammar
  import opened RequestAccepts

  /**
   * A byte of 128 or above becomes part of a target or of a header value, where a fold may end with
   * it. Anywhere else, as in a method or a header name, it is refused.
   */
  lemma HighByte(c: Config, b: byte)
    requires b >= 128
    ensures c.state == Uri ==> Step(c, b) == Go(c.(req := c.req.(uri := c.req.uri + [b])))
    ensures c.state in {Value, Lws} ==>
              var before, last := c.req.headers[..|c.req.headers| - 1], c.req.headers[|c.req.headers| - 1];
              Step(c, b) ==
              Go(At(Value, c.req.(headers := before + [Header(last.name, last.value + [b])])))
    ensures c.state !in {Uri, Value, Lws} ==> Step(c, b) == Halt(Bad)
  {
  }

  const SAMPLE_LINE := "GET /a HTTP/01.10\r\n"
  const SAMPLE_HOST := "Host: b\r\n c\r\n \t\r\n"
  const SAMPLE_EMPTY := "E: \r\n"

  /** A header over three lines, the last one blank. */
  function HostField(): Field {
    Folded(Folded(First(Ascii("Host"), Ascii("b")), Ascii(" "), Ascii("c")), Ascii(" \t"), [])
  }

  function EmptyField(): Field { First(Ascii("E"), []) }

  function SampleTree(): Syntax {
    Syntax(Ascii("GET"), Ascii("/a"), Ascii("01"), Ascii("10"), More(More(NoFields, HostField()), EmptyField()))
  }

  lemma LineText()
    ensures RequestLine(SampleTree()) == Ascii(SAMPLE_LINE)
  {
  }

  lemma HostText()
    ensures FieldText(HostField()) + CRLF == Ascii(SAMPLE_HOST)
  {
    var f, g := First(Ascii("Host"), Ascii("b")), HostField().field;
    assert FieldText(f) == Ascii("Host: b");
    assert FieldText(g) == Ascii("Host: b\r\n c");
  }

  lemma EmptyText()
    ensures FieldText(EmptyField()) + CRLF == Ascii(SAMPLE_EMPTY)
  {
  }

  lemma HostMeaning()
    ensures IsField(HostField()) && Denoted(HostField()) == Header(Ascii("Host"), Ascii("bc"))
  {
    var f, g := First(Ascii("Host"), Ascii("b")), HostField().field;
    VerbMeaning();
    assert IsField(f) && Denoted(f) == Header(Ascii("Host"), Ascii("b"));
    assert IsField(g) && Denoted(g) == Header(Ascii("Host"), Ascii("bc"));
  }

  lemma TwoDigits(w: bytes)
    requires |w| == 2 && AllDigit(w)
    ensures Numeral(w) == Digit(w[0]) * 10 + Digit(w[1])
  {
    assert w[..1] == [w[0]] && [w[0]][..0] == [];
    assert Numeral([w[0]]) == Digit(w[0]);
  }

  lemma LineMeaning()
    ensures var t := SampleTree();
            && t.verb != [] && AllToken(t.verb) && AllUri(t.uri) && AllDigit(t.major) && AllDigit(t.minor)
            && Numeral(t.major) == 1 && Numeral(t.minor) == 10
  {
    assert Ascii("01") == [48, 49] && Ascii("10") == [49, 48];
    TwoDigits(Ascii("01"));
    TwoDigits(Ascii("10"));
    assert Digit(48) == 0 && Digit(49) == 1;
    VerbMeaning();
  }

  lemma VerbMeaning()
    ensures AllToken(Ascii("GET")) && AllToken(Ascii("Host")) && AllUri(Ascii("/a"))
  {
    assert Ascii("GET") == [71, 69, 84] && Ascii("Host") == [72, 111, 115, 116];
  }

  lemma FieldsMeaning()
    ensures AreFields(SampleTree().fields)
    ensures Headers(SampleTree().fields) == [Header(Ascii("Host"), Ascii("bc")), Header(Ascii("E"), [])]
  {
    HostMeaning();
    var before := More(NoFields, HostField());
    assert AreFields(before) && Headers(before) == [Denoted(HostField())];
    assert IsField(EmptyField()) && Denoted(EmptyField()) == Header(Ascii("E"), []);
  }

  const SAMPLE := SAMPLE_LINE + (SAMPLE_HOST + SAMPLE_EMPTY + "\r\n")

  lemma SampleText()
    ensures Text(SampleTree()) == Ascii(SAMPLE)
  {
    LineText();
    HostText();
    EmptyText();
    var before := More(NoFields, HostField());
    assert FieldsText(before) == Ascii(SAMPLE_HOST);
    assert FieldsText(SampleTree().fields) == Ascii(SAMPLE_HOST) + Ascii(SAMPLE_EMPTY);
    AsciiAppend(SAMPLE_HOST, SAMPLE_EMPTY);
    AsciiAppend(SAMPLE_HOST + SAMPLE_EMPTY, "\r\n");
    AsciiAppend(SAMPLE_LINE, SAMPLE_HOST + SAMPLE_EMPTY + "\r\n");
  }

  /** A request with leading zeros, a fold, a blank continuation line and an empty value. */
  lemma Sample(c: Config, rest: bytes)
    requires Fresh(c)
    ensures Run(c, Ascii(SAMPLE) + rest) ==
            Parsed(Good, |SAMPLE|, At(Newline3, RequestValue(Ascii("GET"), Ascii("/a"), 1, 10,
              [Header(Ascii("Host"), Ascii("bc")), Header(Ascii("E"), [])])))
  {
    SampleText();
    LineMeaning();
    FieldsMeaning();
    Accepts(c, SampleTree(), rest);
  }
}
