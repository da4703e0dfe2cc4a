/** Percent-decoding of a request target, section 2.1 of RFC 3986, with `+` for a space. */
module UrlDecoding {
  import opened Octets

  datatype Option<T> = None | Some(value: T)

  /**
   * What the stream extraction yields for two characters that are not both hexadecimal digits,
   * such as "fg" or " f": a platform's answer, or none.
   */
  type OddPairs = (byte, byte) -> Option<byte>

  function HexDigit(b: byte): Option<int> {
    if 48 <= b <= 57 then Some(b as int - 48)
    else if 65 <= b <= 70 then Some(b as int - 55)
    else if 97 <= b <= 102 then Some(b as int - 87)
    else None
  }

  const LOWER_DIGITS := "0123456789abcdef"
  const UPPER_DIGITS := "0123456789ABCDEF"

  /** The digits in order, in either case, and no other characters. */
  lemma HexDigits(b: byte, v: nat)
    requires v < 16
    ensures HexDigit(b) == Some(v) <==> b as char in [LOWER_DIGITS[v], UPPER_DIGITS[v]]
    ensures HexDigit(b).Some? ==> 0 <= HexDigit(b).value < 16
  {
  }

  /** The byte that the two characters after a `%` stand for. */
  function Pair(odd: OddPairs, p: byte, q: byte): Option<byte> {
    match (HexDigit(p), HexDigit(q))
    case (Some(h), Some(l)) =>
      assert 0 <= h < 16 && 0 <= l < 16;
      Some((16 * h + l) as byte)
    case _ => odd(p, q)
  }

  function Decode(odd: OddPairs, w: bytes): Option<bytes> {
    if w == [] then Some([])
    else if w[0] == PERCENT then
      if |w| < 3 then None
      else match Pair(odd, w[1], w[2])
        case None => None
        case Some(b) => Prepend(b, Decode(odd, w[3..]))
    else Prepend(if w[0] == PLUS then SP else w[0], Decode(odd, w[1..]))
  }

  function Prepend(b: byte, rest: Option<bytes>): Option<bytes> {
    match rest
    case None => None
    case Some(w) => Some([b] + w)
  }

  function After(out: bytes, rest: Option<bytes>): Option<bytes> {
    match rest
    case None => None
    case Some(w) => Some(out + w)
  }

  lemma AfterNone(rest: Option<bytes>)
    ensures After([], rest) == rest
  {
    if rest.Some? {
      assert [] + rest.value == rest.value;
    }
  }

  lemma AfterOne(out: bytes, b: byte, rest: Option<bytes>)
    ensures After(out, Prepend(b, rest)) == After(out + [b], rest)
  {
    if rest.Some? {
      assert out + ([b] + rest.value) == out + [b] + rest.value;
    }
  }

  /** The loop of `url_decode`; an escape moves the index on by two more. */
  method UrlDecode(odd: OddPairs, input: bytes) returns (ok: bool, out: bytes)
    ensures ok <==> Decode(odd, input).Some?
    ensures ok ==> out == Decode(odd, input).value
  {
    out := [];
    var i := 0;
    AfterNone(Decode(odd, input));
    assert input[0..] == input;
    while i < |input|
      invariant i <= |input|
      invariant Decode(odd, input) == After(out, Decode(odd, input[i..]))
    {
      ghost var rest := input[i..];
      if input[i] == PERCENT {
        if i + 3 <= |input| {
          match Pair(odd, input[i + 1], input[i + 2]) {
            case Some(value) =>
              assert rest[3..] == input[i + 3..];
              AfterOne(out, value, Decode(odd, input[i + 3..]));
              out := out + [value];
              i := i + 2;
            case None => return false, out;
          }
        } else {
          return false, out;
        }
      } else {
        assert rest[1..] == input[i + 1..];
        if input[i] == PLUS {
          AfterOne(out, SP, Decode(odd, input[i + 1..]));
          out := out + [SP];
        } else {
          AfterOne(out, input[i], Decode(odd, input[i + 1..]));
          out := out + [input[i]];
        }
      }
      i := i + 1;
    }
    return true, out;
  }

  // Encoders. One may write a byte as it is, a space as `+`, or any byte as an escape.

  datatype Style = AsIs | AsPlus | Escaped(p: byte, q: byte)

  predicate Fits(odd: OddPairs, b: byte, s: Style) {
    match s
    case AsIs => b != PERCENT && b != PLUS
    case AsPlus => b == SP
    case Escaped(p, q) => Pair(odd, p, q) == Some(b)
  }

  function Written(b: byte, s: Style): bytes {
    match s
    case AsIs => [b]
    case AsPlus => [PLUS]
    case Escaped(p, q) => [PERCENT, p, q]
  }

  predicate Chosen(odd: OddPairs, out: bytes, styles: seq<Style>) {
    |styles| == |out| && forall i | 0 <= i < |out| :: Fits(odd, out[i], styles[i])
  }

  function Encode(out: bytes, styles: seq<Style>): bytes
    requires |styles| == |out|
  {
    if out == [] then [] else Written(out[0], styles[0]) + Encode(out[1..], styles[1..])
  }

  function Escapes(styles: seq<Style>): nat {
    if styles == [] then 0 else (if styles[0].Escaped? then 1 else 0) + Escapes(styles[1..])
  }

  lemma DecodeWritten(odd: OddPairs, b: byte, s: Style, rest: bytes)
    requires Fits(odd, b, s)
    ensures Decode(odd, Written(b, s) + rest) == Prepend(b, Decode(odd, rest))
  {
  }

  /** Decoding undoes every encoder, and each escape costs two bytes. */
  lemma {:induction false} DecodeEncode(odd: OddPairs, out: bytes, styles: seq<Style>)
    requires Chosen(odd, out, styles)
    ensures Decode(odd, Encode(out, styles)) == Some(out)
    ensures |Encode(out, styles)| == |out| + 2 * Escapes(styles)
    decreases out
  {
    if out != [] {
      DecodeEncode(odd, out[1..], styles[1..]);
      DecodeWritten(odd, out[0], styles[0], Encode(out[1..], styles[1..]));
      assert out == [out[0]] + out[1..];
    }
  }

  /** Whatever is decoded was written by such an encoder. */
  lemma {:induction false} DecodeFinds(odd: OddPairs, w: bytes) returns (styles: seq<Style>)
    requires Decode(odd, w).Some?
    ensures var out := Decode(odd, w).value; Chosen(odd, out, styles) && Encode(out, styles) == w
    decreases w
  {
    if w == [] {
      styles := [];
    } else {
      var n := if w[0] == PERCENT then 3 else 1;
      var s := if w[0] == PERCENT then Escaped(w[1], w[2]) else if w[0] == PLUS then AsPlus else AsIs;
      var rest := DecodeFinds(odd, w[n..]);
      styles := [s] + rest;
      assert styles[1..] == rest && Decode(odd, w).value[1..] == Decode(odd, w[n..]).value;
      assert w == Written(Decode(odd, w).value[0], s) + w[n..];
    }
  }

  /** The target decodes to `out` exactly when some encoding of `out` is the target. */
  lemma DecodesIffEncoded(odd: OddPairs, w: bytes, out: bytes)
    ensures Decode(odd, w) == Some(out) <==>
            exists styles :: Chosen(odd, out, styles) && Encode(out, styles) == w
  {
    if Decode(odd, w) == Some(out) {
      var styles := DecodeFinds(odd, w);
    }
    if styles :| Chosen(odd, out, styles) && Encode(out, styles) == w {
      DecodeEncode(odd, out, styles);
    }
  }

  /** Every byte has an escape, in digits of either case, on every platform. */
  lemma EveryByteEscapes(odd: OddPairs, b: byte, p: byte, q: byte)
    requires HexDigit(p) == Some(b as int / 16) && HexDigit(q) == Some(b as int % 16)
    ensures Fits(odd, b, Escaped(p, q))
  {
  }

  /** A target in characters, with escapes in both cases and a "+". */
  lemma DecodeSample(odd: OddPairs)
    ensures Decode(odd, Ascii("/%2Da+b%2f")) == Some(Ascii("/-a b/"))
  {
    var styles := [AsIs, Escaped(50, 68), AsIs, AsPlus, AsIs, Escaped(50, 102)];
    var out := Ascii("/-a b/");
    assert out == [47, 45, 97, 32, 98, 47];
    assert Chosen(odd, out, styles);
    assert Written(47, AsIs) + Written(45, Escaped(50, 68)) + Written(97, AsIs) + Written(32, AsPlus)
           + Written(98, AsIs) + Written(47, Escaped(50, 102)) == Ascii("/%2Da+b%2f");
    EncodeSix(out, styles);
    DecodeEncode(odd, out, styles);
  }

  lemma EncodeSix(out: bytes, styles: seq<Style>)
    requires |out| == |styles| == 6
    ensures Encode(out, styles) ==
            Written(out[0], styles[0]) + Written(out[1], styles[1]) + Written(out[2], styles[2])
            + Written(out[3], styles[3]) + Written(out[4], styles[4]) + Written(out[5], styles[5])
  {
    EncodeMore(out, styles);
    EncodeMore(out[1..], styles[1..]);
    EncodeMore(out[2..], styles[2..]);
    EncodeMore(out[3..], styles[3..]);
    EncodeMore(out[4..], styles[4..]);
    EncodeMore(out[5..], styles[5..]);
  }

  lemma EncodeMore(out: bytes, styles: seq<Style>)
    requires |out| == |styles| && out != []
    ensures Encode(out, styles) == Written(out[0], styles[0]) + Encode(out[1..], styles[1..])
  {
  }
}
