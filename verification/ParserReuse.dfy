/** What `reset` needs from its caller: it clears the parser's state but not the request. */
module ParserReuse {
  import opened Octets
  import opened RequestMachine
  import opened RequestGrammar
  import opened RequestAccepts
  import opened RequestTheorems

  /** The same position, but the first request had `verb` and `uri` in it from the start. */
  predicate Stale(verb: bytes, uri: bytes, c: Config, d: Config) {
    && c.state == d.state && c.req.headers == d.req.headers
    && c.req.verb == verb + d.req.verb && c.req.uri == uri + d.req.uri
  }

  lemma StaleStep(verb: bytes, uri: bytes, c: Config, d: Config, b: byte)
    requires Stale(verb, uri, c, d)
    ensures match Step(c, b)
            case Go(next) => Step(d, b).Go? && Stale(verb, uri, next, Step(d, b).next)
            case Halt(v) => Step(d, b) == Halt(v)
  {
  }

  lemma {:induction false} StaleRun(verb: bytes, uri: bytes, c: Config, d: Config, w: bytes)
    requires Stale(verb, uri, c, d)
    ensures var p, q := Run(c, w), Run(d, w);
            p.verdict == q.verdict && p.used == q.used && Stale(verb, uri, p.config, q.config)
    decreases w
  {
    if w != [] {
      StaleStep(verb, uri, c, d, w[0]);
      if Step(c, w[0]).Go? {
        StaleRun(verb, uri, Step(c, w[0]).next, Step(d, w[0]).next, w[1..]);
      }
    }
  }

  /** Two starts give the same answer to `w`, and the same request if it is accepted. */
  predicate SameResult(c: Config, d: Config, w: bytes) {
    var p, q := Run(c, w), Run(d, w);
    && p.verdict == q.verdict && p.used == q.used
    && (p.verdict == Good ==> p.config == q.config)
  }

  /** The version fields that a cleared request happens to hold make no difference. */
  lemma FreshAlike(c: Config, d: Config, w: bytes)
    requires Fresh(c) && Fresh(d)
    ensures SameResult(c, d, w)
  {
    assert [] + d.req.verb == c.req.verb && [] + d.req.uri == c.req.uri;
    StaleRun([], [], c, d, w);
    var p := Run(c, w);
    if p.verdict == Good {
      GoodState(c, w);
      Decides(c, w, p.used, p.config.req);
      Decides(d, w, p.used, p.config.req);
    }
  }

  const SAMPLE := Syntax([UPPER_H], [], [ZERO], [ZERO], NoFields)

  /** A blank after the request line continues a header, if there is one to continue. */
  lemma BlankAfterLine(r: RequestValue)
    requires r.verb == [] && r.uri == []
    ensures Run(At(MethodStart, r), RequestLine(SAMPLE) + [SP]).verdict ==
            if r.headers == [] then Bad else Indeterminate
  {
    var c := At(LineStart, Meaning(SAMPLE).(headers := r.headers));
    LineText(r, SAMPLE);
    After(At(MethodStart, r), RequestLine(SAMPLE), c, [SP]);
    assert Step(c, SP) == if r.headers == [] then Halt(Bad) else Go(At(Lws, c.req));
    assert [SP][1..] == [];
  }

  /** With headers left over, a first header line may be a continuation. */
  lemma LeftoverHeader(r: RequestValue)
    requires r.headers != []
    ensures !SameResult(At(MethodStart, r), At(MethodStart, EMPTY), RequestLine(SAMPLE) + [SP])
  {
    var e := EMPTY.(headers := r.headers);
    assert r.verb + [] == r.verb && r.uri + [] == r.uri;
    StaleRun(r.verb, r.uri, At(MethodStart, r), At(MethodStart, e), RequestLine(SAMPLE) + [SP]);
    BlankAfterLine(e);
    BlankAfterLine(EMPTY);
  }

  /** With a method or target left over, the next one is appended to it. */
  lemma LeftoverText(r: RequestValue)
    requires r.headers == [] && (r.verb != [] || r.uri != [])
    ensures !SameResult(At(MethodStart, r), At(MethodStart, EMPTY), Text(SAMPLE))
  {
    var c, d, w := At(MethodStart, r), At(MethodStart, EMPTY), Text(SAMPLE);
    assert r.verb + [] == r.verb && r.uri + [] == r.uri;
    StaleRun(r.verb, r.uri, c, d, w);
    Accepts(d, SAMPLE, []);
    assert w + [] == w;
    assert |Run(c, w).config.req.verb| == |r.verb| + 1 && |Run(c, w).config.req.uri| == |r.uri|;
  }

  /** A reset parser works as a new one, on all input, exactly when the request is cleared too. */
  lemma ResetIffCleared(r: RequestValue)
    ensures (forall w :: SameResult(At(MethodStart, r), At(MethodStart, EMPTY), w)) <==>
            r.verb == [] && r.uri == [] && r.headers == []
  {
    if r.headers != [] {
      LeftoverHeader(r);
    } else if r.verb != [] || r.uri != [] {
      LeftoverText(r);
    } else {
      forall w ensures SameResult(At(MethodStart, r), At(MethodStart, EMPTY), w) {
        FreshAlike(At(MethodStart, r), At(MethodStart, EMPTY), w);
      }
    }
  }
}
