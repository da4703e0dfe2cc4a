/** Replies and the bytes they are sent as. */
module Replies {
  import opened Octets
  import opened RequestMachine
  import opened RequestGrammar
  import opened RequestTheorems

  datatype Status =
    | Ok | Created | Accepted | NoContent
    | MultipleChoices | MovedPermanently | MovedTemporarily | NotModified
    | BadRequest | Unauthorized | Forbidden | NotFound
    | InternalServerError | NotImplemented | BadGateway | ServiceUnavailable

  datatype Reply = Reply(status: Status, headers: seq<Header>, content: bytes)

  function Phrase(s: Status): string {
    match s
    case Ok => "200 OK"
    case Created => "201 Created"
    case Accepted => "202 Accepted"
    case NoContent => "204 No Content"
    case MultipleChoices => "300 Multiple Choices"
    case MovedPermanently => "301 Moved Permanently"
    case MovedTemporarily => "302 Moved Temporarily"
    case NotModified => "304 Not Modified"
    case BadRequest => "400 Bad Request"
    case Unauthorized => "401 Unauthorized"
    case Forbidden => "403 Forbidden"
    case NotFound => "404 Not Found"
    case InternalServerError => "500 Internal Server Error"
    case NotImplemented => "501 Not Implemented"
    case BadGateway => "502 Bad Gateway"
    case ServiceUnavailable => "503 Service Unavailable"
  }

  function StatusLine(s: Status): bytes { Ascii("HTTP/1.0 ") + Ascii(Phrase(s)) + CRLF }

  /** The number of a status. */
  function Code(s: Status): nat {
    match s
    case Ok => 200
    case Created => 201
    case Accepted => 202
    case NoContent => 204
    case MultipleChoices => 300
    case MovedPermanently => 301
    case MovedTemporarily => 302
    case NotModified => 304
    case BadRequest => 400
    case Unauthorized => 401
    case Forbidden => 403
    case NotFound => 404
    case InternalServerError => 500
    case NotImplemented => 501
    case BadGateway => 502
    case ServiceUnavailable => 503
  }

  lemma ThreeDigits(w: bytes)
    requires |w| == 3 && AllDigit(w)
    ensures Numeral(w) == Digit(w[0]) * 100 + Digit(w[1]) * 10 + Digit(w[2])
  {
    assert w[..0] == [] && w[..0] + [w[0]] == w[..1] && w[..1] + [w[1]] == w[..2] && w[..2] + [w[2]] == w;
    NumeralMore(w[..0], w[0]);
    NumeralMore(w[..1], w[1]);
    NumeralMore(w[..2], w[2]);
  }

  lemma PhraseCode(s: Status)
    ensures var p := Phrase(s);
            && |p| > 4 && '2' <= p[0] <= '5' && p[1] == '0' && '0' <= p[2] <= '4' && p[3] == ' '
            && (p[0] as int - 48) * 100 + (p[2] as int - 48) == Code(s)
  {
    match s
    case Ok | Created | Accepted | NoContent =>
    case MultipleChoices | MovedPermanently | MovedTemporarily | NotModified =>
    case BadRequest | Unauthorized | Forbidden | NotFound =>
    case InternalServerError | NotImplemented | BadGateway | ServiceUnavailable =>
  }

  /** What a status line says, given its phrase. */
  predicate SaysCode(w: bytes, code: nat) {
    && |w| > 13 && w[..9] == Ascii("HTTP/1.0 ") && w[12] == SP
    && AllDigit(w[9..12]) && Numeral(w[9..12]) == code
  }

  lemma LineSaysCode(p: string, code: nat, rest: bytes)
    requires |p| > 4 && '2' <= p[0] <= '5' && p[1] == '0' && '0' <= p[2] <= '4' && p[3] == ' '
    requires (p[0] as int - 48) * 100 + (p[2] as int - 48) == code
    ensures SaysCode(Ascii("HTTP/1.0 ") + Ascii(p) + rest, code)
  {
    var w := Ascii("HTTP/1.0 ") + Ascii(p) + rest;
    assert w[9..12] == Ascii(p)[..3] && w[12] == Ascii(p)[3];
    CodeDigits(p);
  }

  lemma LineFirst(r: Reply)
    ensures Serialised(r) ==
            Ascii("HTTP/1.0 ") + Ascii(Phrase(r.status)) + (CRLF + HeaderLines(r.headers) + CRLF + r.content)
  {
    Reassociate(Ascii("HTTP/1.0 ") + Ascii(Phrase(r.status)), CRLF, HeaderLines(r.headers), r.content);
  }

  lemma Reassociate(p: bytes, q: bytes, u: bytes, v: bytes)
    ensures p + q + u + CRLF + v == p + (q + u + CRLF + v)
  {
  }

  /** A reply begins with the protocol and the number of its status, in three digits. */
  lemma StatusOnTheWire(r: Reply)
    ensures SaysCode(Serialised(r), Code(r.status))
  {
    LineFirst(r);
    PhraseCode(r.status);
    LineSaysCode(Phrase(r.status), Code(r.status), CRLF + HeaderLines(r.headers) + CRLF + r.content);
  }

  lemma CodeDigits(p: string)
    requires |p| > 4 && forall i | 0 <= i < 3 :: '0' <= p[i] <= '9'
    ensures var w := Ascii(p)[..3];
            && AllDigit(w)
            && Numeral(w) == (p[0] as int - 48) * 100 + (p[1] as int - 48) * 10 + (p[2] as int - 48)
  {
    var w := Ascii(p)[..3];
    assert forall i | 0 <= i < 3 :: w[i] as int == p[i] as int;
    ThreeDigits(w);
  }

  function Html(title: string, heading: string): string {
    "<html><head>" + ("<title>" + title + "</title>") + "</head><body>" + ("<h1>" + heading + "</h1>")
    + "</body></html>"
  }

  function Heading(s: Status): string { if s == NoContent then "204 Content" else Phrase(s) }

  /** The page of a stock reply; the one for 200 is empty and the one for 204 shortens its heading. */
  function PageText(s: Status): string {
    if s == Ok then "" else Html(Phrase(s)[4..], Heading(s))
  }

  function Page(s: Status): bytes { Ascii(PageText(s)) }

  ghost predicate Contains(w: string, part: string) { exists u, v :: w == u + part + v }

  lemma ContainsParts(a: string, b: string, c: string, d: string, e: string)
    ensures Contains(a + b + c + d + e, b) && Contains(a + b + c + d + e, d)
  {
    assert a + b + c + d + e == a + b + (c + d + e);
    assert a + b + c + d + e == (a + b + c) + d + e;
  }

  lemma HtmlShows(title: string, heading: string)
    ensures Contains(Html(title, heading), "<title>" + title + "</title>")
    ensures Contains(Html(title, heading), "<h1>" + heading + "</h1>")
  {
    ContainsParts("<html><head>", "<title>" + title + "</title>", "</head><body>",
                  "<h1>" + heading + "</h1>", "</body></html>");
  }

  /** A stock reply has its status and, but for 200, a page with its phrase as title and heading. */
  lemma StockReplyShows(s: Status)
    ensures StockReply(s).status == s && StockReply(s).content == Ascii(PageText(s))
    ensures s == Ok ==> PageText(s) == ""
    ensures s != Ok ==> Contains(PageText(s), "<title>" + Phrase(s)[4..] + "</title>")
    ensures s != Ok ==> Contains(PageText(s), "<h1>" + Heading(s) + "</h1>")
  {
    HtmlShows(Phrase(s)[4..], Heading(s));
  }

  function ContentHeaders(content: bytes, kind: string): seq<Header> {
    [Header(Ascii("Content-Length"), Decimal(|content|)), Header(Ascii("Content-Type"), Ascii(kind))]
  }

  function StockReply(s: Status): Reply {
    Reply(s, ContentHeaders(Page(s), "text/html"), Page(s))
  }

  function Flatten(buffers: seq<bytes>): bytes {
    if buffers == [] then [] else Flatten(buffers[..|buffers| - 1]) + buffers[|buffers| - 1]
  }

  /** The bytes of a reply as they are sent. */
  function Serialised(r: Reply): bytes {
    StatusLine(r.status) + HeaderLines(r.headers) + CRLF + r.content
  }

  lemma FlattenMore(buffers: seq<bytes>, b: bytes)
    ensures Flatten(buffers + [b]) == Flatten(buffers) + b
  {
  }

  /** Four buffers for each header. */
  function HeaderBuffers(hs: seq<Header>): seq<bytes> {
    if hs == [] then []
    else
      var h := hs[|hs| - 1];
      HeaderBuffers(hs[..|hs| - 1]) + [h.name, [COLON, SP], h.value, CRLF]
  }

  /** The buffers that `to_buffers` hands to the write operation. */
  function Buffers(r: Reply): seq<bytes> {
    [StatusLine(r.status)] + HeaderBuffers(r.headers) + [CRLF, r.content]
  }

  lemma HeaderBuffersMore(hs: seq<Header>, i: nat)
    requires i < |hs|
    ensures HeaderBuffers(hs[..i + 1]) ==
            HeaderBuffers(hs[..i]) + [hs[i].name, [COLON, SP], hs[i].value, CRLF]
  {
    assert hs[..i + 1][..i] == hs[..i];
  }

  method ToBuffers(r: Reply) returns (buffers: seq<bytes>)
    ensures buffers == Buffers(r) && Flatten(buffers) == Serialised(r)
  {
    buffers := [StatusLine(r.status)];
    for i := 0 to |r.headers|
      invariant buffers == [StatusLine(r.status)] + HeaderBuffers(r.headers[..i])
    {
      var h := r.headers[i];
      ghost var before := buffers;
      buffers := buffers + [h.name];
      buffers := buffers + [[COLON, SP]];
      buffers := buffers + [h.value];
      buffers := buffers + [CRLF];
      assert buffers == before + [h.name, [COLON, SP], h.value, CRLF];
      HeaderBuffersMore(r.headers, i);
    }
    assert r.headers[..|r.headers|] == r.headers;
    buffers := buffers + [CRLF];
    buffers := buffers + [r.content];
    assert buffers == Buffers(r);
    BuffersFlatten(r);
  }

  lemma {:induction false} HeadersFlatten(line: bytes, hs: seq<Header>)
    ensures Flatten([line] + HeaderBuffers(hs)) == line + HeaderLines(hs)
    decreases |hs|
  {
    if hs == [] {
      FlattenMore([], line);
      assert [] + [line] == [line] + HeaderBuffers(hs);
    } else {
      var n := |hs| - 1;
      HeadersFlatten(line, hs[..n]);
      FlattenHeader(line, HeaderBuffers(hs[..n]), HeaderLines(hs[..n]), hs[n]);
    }
  }

  lemma FlattenHeader(line: bytes, before: seq<bytes>, lines: bytes, h: Header)
    requires Flatten([line] + before) == line + lines
    ensures Flatten([line] + (before + [h.name, [COLON, SP], h.value, CRLF])) ==
            line + (lines + (h.name + [COLON, SP] + h.value) + CRLF)
  {
    AppendHeader([line] + before, h);
    assert [line] + (before + [h.name, [COLON, SP], h.value, CRLF]) ==
           [line] + before + [h.name] + [[COLON, SP]] + [h.value] + [CRLF];
    Regroup(line, lines, h.name, h.value);
  }

  /** One after the other the buffers are the bytes of the reply. */
  lemma BuffersFlatten(r: Reply)
    ensures Flatten(Buffers(r)) == Serialised(r)
  {
    var before := [StatusLine(r.status)] + HeaderBuffers(r.headers);
    HeadersFlatten(StatusLine(r.status), r.headers);
    FlattenMore(before, CRLF);
    FlattenMore(before + [CRLF], r.content);
    assert Buffers(r) == before + [CRLF] + [r.content];
  }

  lemma AppendHeader(buffers: seq<bytes>, h: Header)
    ensures Flatten(buffers + [h.name] + [[COLON, SP]] + [h.value] + [CRLF]) ==
            Flatten(buffers) + h.name + [COLON, SP] + h.value + CRLF
  {
    FlattenMore(buffers, h.name);
    FlattenMore(buffers + [h.name], [COLON, SP]);
    FlattenMore(buffers + [h.name] + [[COLON, SP]], h.value);
    FlattenMore(buffers + [h.name] + [[COLON, SP]] + [h.value], CRLF);
  }

  lemma Regroup(l: bytes, p: bytes, n: bytes, v: bytes)
    ensures l + p + n + [COLON, SP] + v + CRLF == l + (p + (n + [COLON, SP] + v) + CRLF)
  {
  }

  /**
   * The header block of a reply, read back by the request parser, gives the same headers and ends
   * exactly where the content begins.
   */
  lemma HeadersReadBack(r: Reply, start: RequestValue)
    requires AreHeaders(r.headers) && start.headers == []
    ensures var block := Serialised(r)[|StatusLine(r.status)|..];
            var p := Run(At(LineStart, start), block);
            && p.verdict == Good && p.config.req.headers == r.headers
            && block[p.used..] == r.content
  {
    var line, block := StatusLine(r.status), HeaderLines(r.headers) + CRLF;
    assert Serialised(r) == line + (block + r.content);
    HeaderBlockRoundTrip(start, r.headers, r.content);
  }

  predicate IsLetter(c: char) { 'A' <= c <= 'Z' || 'a' <= c <= 'z' || c == '-' }

  lemma LettersAreToken(s: string)
    requires forall i | 0 <= i < |s| :: IsLetter(s[i])
    ensures AllToken(Ascii(s))
  {
  }

  lemma DigitsAreText(w: bytes)
    requires AllDigit(w)
    ensures AllText(w)
  {
  }

  lemma ContentHeadersAreHeaders(content: bytes, kind: string)
    requires AllText(Ascii(kind))
    ensures AreHeaders(ContentHeaders(content, kind))
  {
    LettersAreToken("Content-Length");
    LettersAreToken("Content-Type");
    DigitsAreText(Decimal(|content|));
  }

  /** The receiver of a reply learns from its first header how many bytes follow the headers. */
  predicate SelfDelimiting(r: Reply) {
    && AreHeaders(r.headers) && |r.headers| == 2
    && r.headers[0].name == Ascii("Content-Length") && r.headers[1].name == Ascii("Content-Type")
    && AllDigit(r.headers[0].value) && Numeral(r.headers[0].value) == |r.content|
  }

  lemma ContentDelimited(status: Status, content: bytes, kind: string)
    requires AllText(Ascii(kind))
    ensures SelfDelimiting(Reply(status, ContentHeaders(content, kind), content))
  {
    DecimalDenotes(|content|);
    ContentHeadersAreHeaders(content, kind);
  }

  lemma PrintableIsText(s: string)
    requires forall i | 0 <= i < |s| :: 32 <= s[i] as int < 127
    ensures AllText(Ascii(s))
  {
  }

  lemma StockReplyDelimited(s: Status)
    ensures SelfDelimiting(StockReply(s)) && StockReply(s).status == s
  {
    PrintableIsText("text/html");
    ContentDelimited(s, Page(s), "text/html");
  }

  /** What is left after the headers has the length that the first header gives. */
  lemma DelimitedOnTheWire(r: Reply, start: RequestValue)
    requires SelfDelimiting(r) && start.headers == []
    ensures var block := Serialised(r)[|StatusLine(r.status)|..];
            var p := Run(At(LineStart, start), block);
            p.verdict == Good && |block| - p.used == Numeral(r.headers[0].value)
  {
    HeadersReadBack(r, start);
  }
}
