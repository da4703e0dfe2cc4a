/** The parser as an object: it updates its own state and the request it is given. */
module RequestParsing {
  import opened Octets
  import opened RequestMachine

  class Request {
    var verb: bytes
    var uri: bytes
    var major: int
    var minor: int
    var headers: seq<Header>

    function Contents(): RequestValue
      reads this
    {
      RequestValue(verb, uri, major, minor, headers)
    }

    /** The version fields start with arbitrary values. */
    constructor ()
      ensures verb == [] && uri == [] && headers == []
    {
      verb, uri, headers := [], [], [];
      major, minor := *, *;
    }
  }

  class RequestParser {
    /** Whether `char` is signed on this platform. */
    const charSigned: bool
    var state: State

    constructor (charSigned: bool)
      ensures state == MethodStart
    {
      this.charSigned := charSigned;
      state := MethodStart;
    }

    function Position(req: Request): RawConfig
      reads this, req
    {
      At(state, req.Contents())
    }

    predicate Valid(req: Request)
      reads this, req
    {
      HasHeader(state, req.headers)
    }

    method Reset()
      modifies this
      ensures state == MethodStart
    {
      state := MethodStart;
    }

    method Consume(req: Request, input: byte) returns (result: Verdict)
      requires Valid(req)
      modifies this, req
      ensures Valid(req)
      ensures match Step(old(Position(req)), input)
              case Go(next) => result == Indeterminate && Position(req) == next
              case Halt(v) => result == v && Position(req) == old(Position(req))
    {
      SignIndependence(input, charSigned);
      var c := AsInt(input, charSigned);
      match state {
        case MethodStart =>
          if !IsChar(c) || IsCtl(c) || IsTspecial(c) {
            return Bad;
          }
          state := Method;
          req.verb := req.verb + [input];
          return Indeterminate;
        case Method =>
          if input == SP {
            state := Uri;
            return Indeterminate;
          } else if !IsChar(c) || IsCtl(c) || IsTspecial(c) {
            return Bad;
          }
          req.verb := req.verb + [input];
          return Indeterminate;
        case Uri =>
          if input == SP {
            state := VersionH;
            return Indeterminate;
          } else if IsCtl(c) {
            return Bad;
          }
          req.uri := req.uri + [input];
          return Indeterminate;
        case VersionH =>
          if input != UPPER_H {
            return Bad;
          }
          state := VersionT1;
          return Indeterminate;
        case VersionT1 =>
          if input != UPPER_T {
            return Bad;
          }
          state := VersionT2;
          return Indeterminate;
        case VersionT2 =>
          if input != UPPER_T {
            return Bad;
          }
          state := VersionP;
          return Indeterminate;
        case VersionP =>
          if input != UPPER_P {
            return Bad;
          }
          state := VersionSlash;
          return Indeterminate;
        case VersionSlash =>
          if input != SLASH {
            return Bad;
          }
          req.major, req.minor := 0, 0;
          state := MajorStart;
          return Indeterminate;
        case MajorStart =>
          if !IsDigit(c) {
            return Bad;
          }
          req.major := req.major * 10 + c - 48;
          state := Major;
          return Indeterminate;
        case Major =>
          if input == DOT {
            state := MinorStart;
            return Indeterminate;
          } else if !IsDigit(c) {
            return Bad;
          }
          req.major := req.major * 10 + c - 48;
          return Indeterminate;
        case MinorStart =>
          if !IsDigit(c) {
            return Bad;
          }
          req.minor := req.minor * 10 + c - 48;
          state := Minor;
          return Indeterminate;
        case Minor =>
          if input == CR {
            state := Newline1;
            return Indeterminate;
          } else if !IsDigit(c) {
            return Bad;
          }
          req.minor := req.minor * 10 + c - 48;
          return Indeterminate;
        case Newline1 =>
          if input != LF {
            return Bad;
          }
          state := LineStart;
          return Indeterminate;
        case LineStart =>
          if input == CR {
            state := Newline3;
            return Indeterminate;
          } else if req.headers != [] && (input == SP || input == TAB) {
            state := Lws;
            return Indeterminate;
          } else if !IsChar(c) || IsCtl(c) || IsTspecial(c) {
            return Bad;
          }
          req.headers := req.headers + [Header([input], [])];
          state := Name;
          return Indeterminate;
        case Lws =>
          if input == CR {
            state := Newline2;
            return Indeterminate;
          } else if input == SP || input == TAB {
            return Indeterminate;
          } else if IsCtl(c) {
            return Bad;
          }
          state := Value;
          req.headers := PushValue(req.headers, [input]);
          return Indeterminate;
        case Name =>
          if input == COLON {
            state := BeforeValue;
            return Indeterminate;
          } else if !IsChar(c) || IsCtl(c) || IsTspecial(c) {
            return Bad;
          }
          req.headers := PushName(req.headers, [input]);
          return Indeterminate;
        case BeforeValue =>
          if input != SP {
            return Bad;
          }
          state := Value;
          return Indeterminate;
        case Value =>
          if input == CR {
            state := Newline2;
            return Indeterminate;
          } else if IsCtl(c) {
            return Bad;
          }
          req.headers := PushValue(req.headers, [input]);
          return Indeterminate;
        case Newline2 =>
          if input != LF {
            return Bad;
          }
          state := LineStart;
          return Indeterminate;
        case Newline3 =>
          return if input == LF then Good else Bad;
      }
    }

    /** Consumes bytes until one of them gives an answer; `used` says how many were consumed. */
    method Parse(req: Request, input: bytes) returns (result: Verdict, used: nat)
      requires Valid(req)
      modifies this, req
      ensures Valid(req)
      ensures Parsed(result, used, Position(req)) == Run(old(Position(req)), input)
    {
      used := 0;
      while used < |input|
        invariant used <= |input| && Valid(req)
        invariant var p := Run(Position(req), input[used..]);
                  Run(old(Position(req)), input) == p.(used := used + p.used)
      {
        ghost var rest := input[used..];
        result := Consume(req, input[used]);
        used := used + 1;
        assert rest[1..] == input[used..];
        if result == Good || result == Bad {
          return;
        }
      }
      return Indeterminate, used;
    }
  }
}
