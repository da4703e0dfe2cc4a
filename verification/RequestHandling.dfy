/** From a parsed request to the reply for it. */
module RequestHandling {
  import opened Octets
  import opened RequestMachine
  import opened RequestParsing
  import opened Replies
  import opened Paths
  import opened UrlDecoding

  /** What a handler serves: a directory, the files there are, and the platform's odd pairs. */
  datatype Site = Site(root: bytes, files: bytes -> Option<bytes>, odd: OddPairs)

  function MimeType(extension: bytes): string {
    if extension == Ascii("gif") then "image/gif"
    else if extension == Ascii("htm") || extension == Ascii("html") then "text/html"
    else if extension == Ascii("jpg") then "image/jpeg"
    else if extension == Ascii("png") then "image/png"
    else "text/plain"
  }

  /** The name of the file for a decoded path, as the file system sees it. */
  function FileName(site: Site, path: bytes): bytes
    requires path != []
  {
    CString(site.root + WithIndex(path))
  }

  function Served(path: bytes, content: bytes): Reply
    requires path != []
  {
    Reply(Status.Ok, ContentHeaders(content, MimeType(Extension(WithIndex(path)))), content)
  }

  /** The reply to `req`, given the reply object that is filled in. */
  function Handle(site: Site, req: RequestValue, rep: Reply): Reply {
    match Decode(site.odd, req.uri)
    case None => StockReply(BadRequest)
    case Some(path) =>
      if !Admitted(path) then StockReply(BadRequest)
      else match site.files(FileName(site, path))
        case None => StockReply(NotFound)
        case Some(data) => Served(path, rep.content + data)
  }

  class RequestHandler {
    const site: Site

    constructor (site: Site)
      ensures this.site == site
    {
      this.site := site;
    }

    /** Appends a file in pieces of at most 512 bytes. */
    method AppendFile(content: bytes, data: bytes) returns (out: bytes)
      ensures out == content + data
    {
      out := content;
      var at := 0;
      while at < |data|
        invariant at <= |data| && out == content + data[..at]
      {
        var end := if at + 512 <= |data| then at + 512 else |data|;
        assert data[..at] + data[at..end] == data[..end];
        out := out + data[at..end];
        at := end;
      }
      assert data[..|data|] == data;
    }

    method ExtensionOf(path: bytes) returns (extension: bytes)
      requires path != [] && path[0] == SLASH
      ensures extension == Extension(path)
    {
      var slash := FindLast(path, SLASH);
      var dot := FindLast(path, DOT);
      extension := [];
      if dot != -1 && dot > slash {
        extension := path[dot + 1..];
      }
    }

    method HandleRequest(req: Request, rep: Reply) returns (out: Reply)
      ensures out == Handle(site, req.Contents(), rep)
    {
      var ok, path := UrlDecode(site.odd, req.uri);
      if !ok {
        return StockReply(BadRequest);
      }
      if path == [] || path[0] != SLASH || HasDotDot(path) {
        return StockReply(BadRequest);
      }
      var full := path;
      if full[|full| - 1] == SLASH {
        full := full + INDEX_HTML;
      }
      var extension := ExtensionOf(full);
      match site.files(CString(site.root + full)) {
        case None => return StockReply(NotFound);
        case Some(data) =>
          var content := AppendFile(rep.content, data);
          return Reply(Status.Ok, ContentHeaders(content, MimeType(extension)), content);
      }
    }
  }

  /** `target` is a way to write an admitted path. */
  ghost predicate WritesAdmitted(odd: OddPairs, target: bytes) {
    exists path, styles :: Admitted(path) && Chosen(odd, path, styles) && Encode(path, styles) == target
  }

  /** A request is refused as bad exactly when no encoder writes an admitted path as its target. */
  lemma BadIffNotAdmitted(site: Site, req: RequestValue, rep: Reply)
    ensures Handle(site, req, rep).status == BadRequest <==> !WritesAdmitted(site.odd, req.uri)
    ensures !WritesAdmitted(site.odd, req.uri) ==> Handle(site, req, rep) == StockReply(BadRequest)
  {
    var decoded := Decode(site.odd, req.uri);
    if decoded.Some? {
      DecodesIffEncoded(site.odd, req.uri, decoded.value);
    }
    if path, styles :| Admitted(path) && Chosen(site.odd, path, styles)
                       && Encode(path, styles) == req.uri {
      DecodeEncode(site.odd, path, styles);
    }
  }

  /** The file that an admitted path asks for; a path that ends in "/" asks for an index page. */
  function AskedFor(site: Site, path: bytes): Option<bytes>
    requires path != []
  {
    site.files(CString(site.root + if path[|path| - 1] == SLASH then path + Ascii("index.html") else path))
  }

  lemma IndexInCharacters()
    ensures INDEX_HTML == Ascii("index.html")
  {
  }

  /** However an admitted path is written, its file is served if there is one, and not found if not. */
  lemma FileServed(site: Site, req: RequestValue, rep: Reply, path: bytes, styles: seq<Style>)
    requires Admitted(path) && Chosen(site.odd, path, styles) && Encode(path, styles) == req.uri
    ensures match AskedFor(site, path)
            case Some(data) =>
              Handle(site, req, rep).status == Status.Ok && Handle(site, req, rep).content == rep.content + data
            case None => Handle(site, req, rep) == StockReply(NotFound)
  {
    IndexInCharacters();
    DecodeEncode(site.odd, path, styles);
  }

  /** A client that reads the header block of such a reply finds the whole file after it. */
  lemma FileOnTheWire(site: Site, req: RequestValue, path: bytes, styles: seq<Style>, start: RequestValue)
    requires Admitted(path) && Chosen(site.odd, path, styles) && Encode(path, styles) == req.uri
    requires AskedFor(site, path).Some? && start.headers == []
    ensures var r := Handle(site, req, Reply(Status.Ok, [], []));
            var block := Serialised(r)[|StatusLine(Status.Ok)|..];
            var p := Run(At(LineStart, start), block);
            p.verdict == Good && block[p.used..] == AskedFor(site, path).value
  {
    var blank := Reply(Status.Ok, [], []);
    FileServed(site, req, blank, path, styles);
    RepliesDelimited(site, req, blank);
    HeadersReadBack(Handle(site, req, blank), start);
    assert [] + AskedFor(site, path).value == AskedFor(site, path).value;
  }

  /** The types that a browser is told, by extension. */
  lemma MimeTypes(e: string)
    requires forall i | 0 <= i < |e| :: 0 <= e[i] as int < 256
    ensures MimeType(Ascii(e)) == if e in {"html", "htm"} then "text/html"
                                  else if e in {"gif", "png"} then "image/" + e
                                  else if e == "jpg" then "image/jpeg" else "text/plain"
  {
    forall a: string | a in {"html", "htm", "gif", "png", "jpg"} ensures Ascii(e) == Ascii(a) <==> e == a {
      SameAscii(e, a);
    }
  }

  lemma SameAscii(e: string, a: string)
    requires forall i | 0 <= i < |e| :: 0 <= e[i] as int < 256
    requires forall i | 0 <= i < |a| :: 0 <= a[i] as int < 256
    ensures Ascii(e) == Ascii(a) <==> e == a
  {
    if Ascii(e) == Ascii(a) {
      forall i | 0 <= i < |e| ensures e[i] == a[i] {
        assert Ascii(e)[i] == Ascii(a)[i];
      }
    }
  }

  /** Without a NUL in the path, the content type goes by the extension of the name that is opened. */
  lemma ContentTypeOfOpened(site: Site, req: RequestValue, rep: Reply, path: bytes)
    requires Admitted(path) && NUL !in path && NUL !in site.root
    requires Decode(site.odd, req.uri) == Some(path)
    ensures var r := Handle(site, req, rep);
            r.status == Status.Ok ==>
              r.headers == ContentHeaders(r.content, MimeType(Extension(FileName(site, path))))
  {
    var w := WithIndex(path);
    assert NUL !in INDEX_HTML;
    UncutKeepsExtension(w);
    ExtensionOfOpened(site.root, path);
  }

  /** For "/a", a NUL and ".gif" the file "/a" is served as a GIF image. */
  lemma ContentTypeOfCut(site: Site, req: RequestValue, rep: Reply, u: bytes, v: bytes)
    requires NUL !in site.root && u == [SLASH, 97] && v == [NUL] + [DOT] + GIF
    requires Decode(site.odd, req.uri) == Some(u + v)
    ensures var r := Handle(site, req, rep);
            r.status == Status.Ok ==> r.headers == ContentHeaders(r.content, "image/gif")
    ensures FileName(site, u + v) == site.root + u
    ensures MimeType(Extension(FileName(site, u + v))) == "text/plain"
  {
    CutLosesExtension(site.root, u, v);
    assert Ascii("gif") == GIF;
  }

  /** Files outside the document root have no influence on any reply. */
  lemma OnlyBelowRootMatters(site: Site, other: Site, req: RequestValue, rep: Reply)
    requires other.root == site.root && other.odd == site.odd
    requires forall f | Below(CString(site.root), f) :: other.files(f) == site.files(f)
    ensures Handle(other, req, rep) == Handle(site, req, rep)
  {
    match Decode(site.odd, req.uri)
    case None =>
    case Some(path) =>
      if Admitted(path) {
        OpenedBelowRoot(site.root, path);
      }
  }

  lemma MimeTypeIsText(extension: bytes)
    ensures AllText(Ascii(MimeType(extension)))
  {
    PrintableIsText(MimeType(extension));
  }

  /** Every reply carries the length of its content. */
  lemma RepliesDelimited(site: Site, req: RequestValue, rep: Reply)
    ensures SelfDelimiting(Handle(site, req, rep))
  {
    StockReplyDelimited(BadRequest);
    StockReplyDelimited(NotFound);
    var r := Handle(site, req, rep);
    if r.status == Status.Ok {
      var path :| Decode(site.odd, req.uri) == Some(path) && Admitted(path);
      var extension := Extension(WithIndex(path));
      MimeTypeIsText(extension);
      ContentDelimited(r.status, r.content, MimeType(extension));
    }
  }
}
