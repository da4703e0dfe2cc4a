/** The specification of the incremental request parser: one transition per byte. */
module RequestMachine {
  import opened Octets

  datatype Header = Header(name: bytes, value: bytes)

  /** The contents of a `request`; version numbers are mathematical integers. */
  datatype RequestValue =
    RequestValue(verb: bytes, uri: bytes, major: int, minor: int, headers: seq<Header>)

  datatype State =
    | MethodStart | Method | Uri
    | VersionH | VersionT1 | VersionT2 | VersionP | VersionSlash
    | MajorStart | Major | MinorStart | Minor | Newline1
    | LineStart | Lws | Name | BeforeValue | Value | Newline2 | Newline3

  datatype Verdict = Good | Bad | Indeterminate

  datatype RawConfig = At(state: State, req: RequestValue)

  /** In the states that work on the last header there is a last header. */
  predicate HasHeader(s: State, headers: seq<Header>) {
    s in {Lws, Name, BeforeValue, Value, Newline2} ==> headers != []
  }

  const EMPTY := RequestValue([], [], 0, 0, [])

  type Config = c: RawConfig | HasHeader(c.state, c.req.headers) witness At(MethodStart, EMPTY)

  /** Either the parser moves on, or it answers and its state stays as it was. */
  datatype Move = Go(next: Config) | Halt(verdict: Verdict)

  function PushName(hs: seq<Header>, w: bytes): seq<Header>
    requires hs != []
  {
    var last := hs[|hs| - 1];
    hs[|hs| - 1 := last.(name := last.name + w)]
  }

  function PushValue(hs: seq<Header>, w: bytes): seq<Header>
    requires hs != []
  {
    var last := hs[|hs| - 1];
    hs[|hs| - 1 := last.(value := last.value + w)]
  }

  function Expect(c: Config, b: byte, wanted: byte, s: State): Move
    requires HasHeader(s, c.req.headers)
  {
    if b == wanted then Go(c.(state := s)) else Halt(Bad)
  }

  function Step(c: Config, b: byte): Move {
    var r := c.req;
    match c.state
    case MethodStart =>
      if IsToken(b) then Go(At(Method, r.(verb := r.verb + [b]))) else Halt(Bad)
    case Method =>
      if IsToken(b) then Go(c.(req := r.(verb := r.verb + [b]))) else Expect(c, b, SP, Uri)
    case Uri =>
      if IsUri(b) then Go(c.(req := r.(uri := r.uri + [b]))) else Expect(c, b, SP, VersionH)
    case VersionH => Expect(c, b, UPPER_H, VersionT1)
    case VersionT1 => Expect(c, b, UPPER_T, VersionT2)
    case VersionT2 => Expect(c, b, UPPER_T, VersionP)
    case VersionP => Expect(c, b, UPPER_P, VersionSlash)
    case VersionSlash => Expect(c.(req := r.(major := 0, minor := 0)), b, SLASH, MajorStart)
    case MajorStart =>
      if IsDigit(b as int) then Go(At(Major, r.(major := r.major * 10 + Digit(b)))) else Halt(Bad)
    case Major =>
      if IsDigit(b as int) then Go(c.(req := r.(major := r.major * 10 + Digit(b))))
      else Expect(c, b, DOT, MinorStart)
    case MinorStart =>
      if IsDigit(b as int) then Go(At(Minor, r.(minor := r.minor * 10 + Digit(b)))) else Halt(Bad)
    case Minor =>
      if IsDigit(b as int) then Go(c.(req := r.(minor := r.minor * 10 + Digit(b))))
      else Expect(c, b, CR, Newline1)
    case Newline1 => Expect(c, b, LF, LineStart)
    case LineStart =>
      if r.headers != [] && IsBlank(b) then Go(c.(state := Lws))
      else if IsToken(b) then Go(At(Name, r.(headers := r.headers + [Header([b], [])])))
      else Expect(c, b, CR, Newline3)
    case Lws =>
      if IsBlank(b) then Go(c)
      else if IsText(b) then Go(At(Value, r.(headers := PushValue(r.headers, [b]))))
      else Expect(c, b, CR, Newline2)
    case Name =>
      if IsToken(b) then Go(c.(req := r.(headers := PushName(r.headers, [b]))))
      else Expect(c, b, COLON, BeforeValue)
    case BeforeValue => Expect(c, b, SP, Value)
    case Value =>
      if IsText(b) then Go(c.(req := r.(headers := PushValue(r.headers, [b]))))
      else Expect(c, b, CR, Newline2)
    case Newline2 => Expect(c, b, LF, LineStart)
    case Newline3 => Halt(if b == LF then Good else Bad)
  }

  /** The answer to some input, how much of it was consumed, and where the parser is left. */
  datatype Parsed = Parsed(verdict: Verdict, used: nat, config: Config)

  function Run(c: Config, w: bytes): (p: Parsed)
    ensures p.used <= |w|
    ensures p.verdict == Indeterminate ==> p.used == |w|
    ensures p.verdict != Indeterminate ==> p.used > 0
    decreases w
  {
    if w == [] then Parsed(Indeterminate, 0, c)
    else match Step(c, w[0])
      case Halt(v) => Parsed(v, 1, c)
      case Go(next) => var p := Run(next, w[1..]); p.(used := p.used + 1)
  }

  /** Feeding input in two chunks is feeding it in one. */
  lemma {:induction false} RunAppend(c: Config, a: bytes, b: bytes)
    ensures var p := Run(c, a);
            Run(c, a + b) ==
            if p.verdict == Indeterminate
            then var q := Run(p.config, b); q.(used := |a| + q.used)
            else p
    decreases a
  {
    if a == [] {
      assert a + b == b;
    } else {
      assert (a + b)[1..] == a[1..] + b;
      match Step(c, a[0])
      case Halt(_) =>
      case Go(next) => RunAppend(next, a[1..], b);
    }
  }

  /** `w` takes the parser from `c` to `d` without an answer. */
  predicate Drives(c: Config, w: bytes, d: Config) {
    Run(c, w) == Parsed(Indeterminate, |w|, d)
  }

  lemma Chain(c: Config, v: bytes, d: Config, w: bytes, e: Config)
    requires Drives(c, v, d) && Drives(d, w, e)
    ensures Drives(c, v + w, e)
  {
    RunAppend(c, v, w);
  }

  lemma After(c: Config, v: bytes, d: Config, rest: bytes)
    requires Drives(c, v, d)
    ensures var q := Run(d, rest); Run(c, v + rest) == q.(used := |v| + q.used)
  {
    RunAppend(c, v, rest);
  }
}
