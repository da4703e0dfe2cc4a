/** What the parser promises about every input. */
module RequestTheorems {
  import opened Octets
  import opened RequestMachine
  import opened RequestGrammar
  import opened RequestAccepts
  import opened RequestSound

  /** The answer to input `w` is `v`, and it comes after `k` bytes. */
  predicate Answers(c: Config, w: bytes, v: Verdict, k: nat) {
    Run(c, w).verdict == v && Run(c, w).used == k
  }

  /** Input up to the point of an answer decides it; the rest is not looked at. */
  lemma PrefixDecides(c: Config, w: bytes, k: nat)
    requires k <= |w|
    ensures Run(c, w[..k]).verdict != Indeterminate ==> Run(c, w) == Run(c, w[..k])
    ensures Run(c, w).verdict != Indeterminate && Run(c, w).used <= k ==>
              Run(c, w) == Run(c, w[..k])
    ensures Run(c, w).used > k ==> Run(c, w[..k]).verdict == Indeterminate
  {
    RunAppend(c, w[..k], w[k..]);
    assert w[..k] + w[k..] == w;
    var p, q := Run(c, w[..k]), Run(Run(c, w[..k]).config, w[k..]);
    if p.verdict == Indeterminate && q.verdict != Indeterminate {
      assert q.used > 0;
    }
  }

  lemma GoodHasDerivation(c: Config, w: bytes) returns (t: Syntax)
    requires Fresh(c) && Run(c, w).verdict == Good
    ensures Derives(t, w[..Run(c, w).used], Run(c, w).config.req)
  {
    StartBuilds(c);
    t := Sound(c, Syntax([], [], [], [], NoFields), [], w);
    assert [] + w[..Run(c, w).used] == w[..Run(c, w).used];
  }

  /** After `k` bytes of `w` the parser answers good, and the request it has built is `r`. */
  predicate Receives(c: Config, w: bytes, k: nat, r: RequestValue) {
    Run(c, w) == Parsed(Good, k, At(Newline3, r))
  }

  /**
   * The parser decides the grammar: it answers good after `k` bytes and has built `r` exactly when
   * the first `k` bytes have a derivation that denotes `r`.
   */
  lemma Decides(c: Config, w: bytes, k: nat, r: RequestValue)
    requires Fresh(c) && k <= |w|
    ensures Receives(c, w, k, r) <==> Denotes(w[..k], r)
  {
    if Receives(c, w, k, r) {
      var t := GoodHasDerivation(c, w);
    }
    if t :| Derives(t, w[..k], r) {
      Accepts(c, t, w[k..]);
      assert w[..k] + w[k..] == w;
    }
  }

  lemma {:induction false} GoodState(c: Config, w: bytes)
    requires Run(c, w).verdict == Good
    ensures Run(c, w).config.state == Newline3
    decreases w
  {
    if Step(c, w[0]).Go? {
      GoodState(Step(c, w[0]).next, w[1..]);
    }
  }

  lemma GoodIffInLanguage(c: Config, w: bytes, k: nat)
    requires Fresh(c) && k <= |w|
    ensures Answers(c, w, Good, k) <==> InLanguage(w[..k])
  {
    var p := Run(c, w);
    if p.verdict == Good && p.used == k {
      GoodState(c, w);
      Decides(c, w, k, p.config.req);
    }
    if t :| IsSyntax(t) && Text(t) == w[..k] {
      Decides(c, w, k, Meaning(t));
      assert Derives(t, w[..k], Meaning(t));
    }
  }

  /** No request is a proper prefix of another. */
  lemma PrefixFree(v: bytes, s: bytes)
    requires InLanguage(v) && InLanguage(v + s)
    ensures s == []
  {
    var c := At(MethodStart, EMPTY);
    assert (v + s)[..|v|] == v && (v + s)[..|v + s|] == v + s;
    GoodIffInLanguage(c, v + s, |v|);
    GoodIffInLanguage(c, v + s, |v + s|);
  }

  // Earliest error detection.

  /** How many bytes a state is from the end of a request, at the least. */
  function Left(s: State): nat {
    match s
    case LineStart => 2
    case Newline3 => 1
    case Newline2 => 3
    case Lws | Value => 4
    case BeforeValue => 5
    case Name => 6
    case _ => 15 - Order(s)
  }

  /** A way out of every state. */
  function Completion(s: State): bytes
    decreases Left(s)
  {
    match s
    case MethodStart => [UPPER_H] + Completion(Method)
    case Method => [SP] + Completion(Uri)
    case Uri => [SP] + Completion(VersionH)
    case VersionH => [UPPER_H] + Completion(VersionT1)
    case VersionT1 => [UPPER_T] + Completion(VersionT2)
    case VersionT2 => [UPPER_T] + Completion(VersionP)
    case VersionP => [UPPER_P] + Completion(VersionSlash)
    case VersionSlash => [SLASH] + Completion(MajorStart)
    case MajorStart => [ZERO] + Completion(Major)
    case Major => [DOT] + Completion(MinorStart)
    case MinorStart => [ZERO] + Completion(Minor)
    case Minor => [CR] + Completion(Newline1)
    case Newline1 => [LF] + Completion(LineStart)
    case Lws | Value => [CR] + Completion(Newline2)
    case Name => [COLON] + Completion(BeforeValue)
    case BeforeValue => [SP] + Completion(Value)
    case Newline2 => [LF] + Completion(LineStart)
    case LineStart => [CR] + Completion(Newline3)
    case Newline3 => [LF]
  }

  lemma CompletionStep(c: Config)
    requires c.state != Newline3
    ensures var w := Completion(c.state);
            && w != [] && Step(c, w[0]).Go?
            && w[1..] == Completion(Step(c, w[0]).next.state)
            && Left(Step(c, w[0]).next.state) < Left(c.state)
  {
  }

  /** Every reachable state has a completing suffix. */
  lemma {:induction false} CompletionAccepted(c: Config)
    ensures Answers(c, Completion(c.state), Good, |Completion(c.state)|)
    decreases Left(c.state)
  {
    if c.state != Newline3 {
      CompletionStep(c);
      CompletionAccepted(Step(c, Completion(c.state)[0]).next);
    }
  }

  lemma {:induction false} CompletionLength(s: State)
    ensures |Completion(s)| == Left(s)
    decreases Left(s)
  {
    var w := Completion(s);
    if s != Newline3 {
      var next :| Left(next) < Left(s) && w[1..] == Completion(next) && Left(next) + 1 == Left(s);
      CompletionLength(next);
    }
  }

  lemma ByteByByte(c: Config, b: byte)
    ensures match Step(c, b)
            case Go(next) => Left(c.state) <= Left(next.state) + 1
            case Halt(v) => v == Good ==> Left(c.state) == 1
  {
  }

  lemma {:induction false} AtLeastLeft(c: Config, w: bytes)
    requires Run(c, w).verdict == Good
    ensures Left(c.state) <= Run(c, w).used
    decreases w
  {
    ByteByByte(c, w[0]);
    if Step(c, w[0]).Go? {
      AtLeastLeft(Step(c, w[0]).next, w[1..]);
    }
  }

  /** No way out of a state is shorter than its completion. */
  lemma CompletionShortest(c: Config, w: bytes)
    requires Run(c, w).verdict == Good
    ensures |Completion(c.state)| <= Run(c, w).used
  {
    AtLeastLeft(c, w);
    CompletionLength(c.state);
  }

  /** Some way to go on, `s`, makes `w` a request. */
  ghost predicate Extends(w: bytes, s: bytes) { InLanguage(w + s) }

  /** Some input beginning with `w` and longer than `w` is a request. */
  ghost predicate Viable(w: bytes) { exists s :: s != [] && Extends(w, s) }

  /** No input beginning with `w` is a request. */
  ghost predicate Dead(w: bytes) { forall s :: !Extends(w, s) }

  /** Indeterminate means exactly that the bytes so far can still become a request. */
  lemma IndeterminateIffViable(c: Config, w: bytes)
    requires Fresh(c)
    ensures Run(c, w).verdict == Indeterminate <==> Viable(w)
  {
    var p := Run(c, w);
    if p.verdict == Indeterminate {
      var s := Completion(p.config.state);
      CompletionAccepted(p.config);
      After(c, w, p.config, s);
      GoodIffInLanguage(c, w + s, |w + s|);
      assert (w + s)[..|w + s|] == w + s;
      assert Extends(w, s);
    }
    if s :| s != [] && Extends(w, s) {
      assert (w + s)[..|w + s|] == w + s && (w + s)[..|w|] == w;
      GoodIffInLanguage(c, w + s, |w + s|);
      PrefixDecides(c, w + s, |w|);
    }
  }

  lemma DeadIffRejected(c: Config, w: bytes)
    requires Fresh(c)
    ensures Dead(w) <==>
            Run(c, w).verdict == Bad || (Run(c, w).verdict == Good && Run(c, w).used < |w|)
  {
    IndeterminateIffViable(c, w);
    GoodIffInLanguage(c, w, |w|);
    assert w[..|w|] == w && w + [] == w;
    assert InLanguage(w) <==> Extends(w, []);
  }

  /** Bad is answered at the first byte after which no request is possible, and only there. */
  lemma BadIffFirstDead(c: Config, w: bytes, k: nat)
    requires Fresh(c) && 0 < k <= |w|
    ensures Answers(c, w, Bad, k) <==> Viable(w[..k - 1]) && Dead(w[..k])
  {
    PrefixDecides(c, w, k);
    PrefixDecides(c, w, k - 1);
    DeadIffRejected(c, w[..k]);
    IndeterminateIffViable(c, w[..k - 1]);
  }

  // Printing.

  /** Parsing a printed request rebuilds it and stops where the trailing bytes begin. */
  lemma RoundTrip(c: Config, r: RequestValue, rest: bytes)
    requires Fresh(c) && IsRequest(r)
    ensures Run(c, Print(r) + rest) == Parsed(Good, |Print(r)|, At(Newline3, r))
  {
    var t := CanonicalDerives(r);
    Accepts(c, t, rest);
  }

  /** The requests that the parser can build are the well-formed ones. */
  lemma ReceivableIffWellFormed(c: Config, r: RequestValue)
    requires Fresh(c)
    ensures IsRequest(r) <==> exists w :: Run(c, w).verdict == Good && Run(c, w).config.req == r
  {
    if IsRequest(r) {
      RoundTrip(c, r, []);
    }
    if w :| Run(c, w).verdict == Good && Run(c, w).config.req == r {
      var t := GoodHasDerivation(c, w);
      HeadersAreHeaders(t.fields);
    }
  }

  /** Whatever form a request arrived in, its canonical form stands for the same request. */
  lemma Normalisation(c: Config, w: bytes)
    requires Fresh(c) && Run(c, w).verdict == Good
    ensures var r := Run(c, w).config.req;
            IsRequest(r) && Run(c, Print(r)) == Parsed(Good, |Print(r)|, At(Newline3, r))
  {
    var r := Run(c, w).config.req;
    ReceivableIffWellFormed(c, r);
    RoundTrip(c, r, []);
    assert Print(r) + [] == Print(r);
  }

  /** A sent header block, with the content after it, parses back to the headers. */
  lemma HeaderBlockRoundTrip(r: RequestValue, hs: seq<Header>, content: bytes)
    requires r.headers == [] && AreHeaders(hs)
    ensures Run(At(LineStart, r), HeaderLines(hs) + CRLF + content) ==
            Parsed(Good, |HeaderLines(hs)| + 2, At(Newline3, r.(headers := hs)))
  {
    PlainText(hs);
    BlockAccepted(r, Plain(hs), content);
    assert [] + hs == hs;
  }
}
