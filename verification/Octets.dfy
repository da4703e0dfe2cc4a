/** Bytes, the character classes of the HTTP parser, and decimal numerals. */
module Octets {
  newtype byte = b: int | 0 <= b < 256
  type bytes = seq<byte>

  const NUL: byte := 0
  const TAB: byte := 9
  const LF: byte := 10
  const CR: byte := 13
  const SP: byte := 32
  const PERCENT: byte := 37
  const PLUS: byte := 43
  const DOT: byte := 46
  const SLASH: byte := 47
  const ZERO: byte := 48
  const COLON: byte := 58
  const UPPER_H: byte := 72
  const UPPER_P: byte := 80
  const UPPER_T: byte := 84

  const CRLF: bytes := [CR, LF]
  const HTTP: bytes := [UPPER_H, UPPER_T, UPPER_T, UPPER_P, SLASH]

  /** The bytes of an ASCII literal. */
  function Ascii(s: string): (w: bytes)
    ensures |w| == |s|
  {
    seq(|s|, i requires 0 <= i < |s| => (s[i] as int % 256) as byte)
  }

  lemma AsciiAppend(s: string, t: string)
    ensures Ascii(s + t) == Ascii(s) + Ascii(t)
  {
  }

  /** The characters that the named bytes are. */
  lemma NamedBytes()
    ensures Ascii("\t\n\r %+./0:HPT") ==
            [TAB, LF, CR, SP, PERCENT, PLUS, DOT, SLASH, ZERO, COLON, UPPER_H, UPPER_P, UPPER_T]
    ensures CRLF == Ascii("\r\n") && HTTP == Ascii("HTTP/")
  {
  }

  /** The int that a C++ `char` holding the bits of `b` converts to. */
  function AsInt(b: byte, signed: bool): int {
    if signed && b >= 128 then b as int - 256 else b as int
  }

  predicate IsChar(c: int) { 0 <= c <= 127 }

  predicate IsCtl(c: int) { 0 <= c <= 31 || c == 127 }

  /** The tspecials of section 2.2 of RFC 1945. */
  predicate IsTspecial(c: int) {
    // ( ) < > @ , ; : \ " / [ ] ? = { } SP HT
    c in {40, 41, 60, 62, 64, 44, 59, 58, 92, 34, 47, 91, 93, 63, 61, 123, 125, 32, 9}
  }

  predicate IsDigit(c: int) { 48 <= c <= 57 }

  predicate IsToken(b: byte) { IsChar(b as int) && !IsCtl(b as int) && !IsTspecial(b as int) }

  predicate IsBlank(b: byte) { b == SP || b == TAB }

  predicate IsText(b: byte) { !IsCtl(b as int) }

  predicate IsUri(b: byte) { IsText(b) && b != SP }

  /** The int is in the range of `char` and has its bits. */
  lemma AsIntMeets(b: byte, signed: bool)
    ensures (AsInt(b, signed) - b as int) % 256 == 0
    ensures if signed then -128 <= AsInt(b, signed) < 128 else 0 <= AsInt(b, signed) < 256
  {
  }

  /** No class depends on whether `char` is signed. */
  lemma SignIndependence(b: byte, signed: bool)
    ensures IsChar(AsInt(b, signed)) == IsChar(b as int)
    ensures IsCtl(AsInt(b, signed)) == IsCtl(b as int)
    ensures IsTspecial(AsInt(b, signed)) == IsTspecial(b as int)
    ensures IsDigit(AsInt(b, signed)) == IsDigit(b as int)
  {
  }

  /** The marks that a token may have besides letters and digits. */
  const TOKEN_MARKS: seq<char> := "!#$%&'*+-.^_`|~"

  predicate IsAlphanumeric(c: char) { '0' <= c <= '9' || 'A' <= c <= 'Z' || 'a' <= c <= 'z' }

  /** The members of each class, one by one or by range. */
  lemma ClassMembers(b: byte)
    ensures IsToken(b) <==> b < 128 && (IsAlphanumeric(b as char) || b as char in TOKEN_MARKS)
    ensures IsText(b) <==> b >= 32 && b != 127
    ensures IsUri(b) <==> b > 32 && b != 127
    ensures IsDigit(b as int) <==> '0' <= b as char <= '9'
    ensures IsBlank(b) <==> b as char in " \t"
  {
  }

  predicate AllToken(w: bytes) { forall i | 0 <= i < |w| :: IsToken(w[i]) }
  predicate AllBlank(w: bytes) { forall i | 0 <= i < |w| :: IsBlank(w[i]) }
  predicate AllText(w: bytes) { forall i | 0 <= i < |w| :: IsText(w[i]) }
  predicate AllUri(w: bytes) { forall i | 0 <= i < |w| :: IsUri(w[i]) }
  predicate AllDigit(w: bytes) { forall i | 0 <= i < |w| :: IsDigit(w[i] as int) }

  function Digit(b: byte): int { b as int - ZERO as int }

  /** The number a string of decimal digits denotes. */
  function Numeral(w: bytes): nat
    requires AllDigit(w)
  {
    if w == [] then 0 else Numeral(w[..|w| - 1]) * 10 + Digit(w[|w| - 1])
  }

  function Pow10(n: nat): nat { if n == 0 then 1 else 10 * Pow10(n - 1) }

  lemma Carry(x: nat, p: nat, y: nat, d: int)
    ensures (x * p + y) * 10 + d == x * (10 * p) + (y * 10 + d)
  {
  }

  lemma {:induction false} NumeralMore(w: bytes, b: byte)
    requires AllDigit(w) && IsDigit(b as int)
    ensures AllDigit(w + [b]) && Numeral(w + [b]) == Numeral(w) * 10 + Digit(b)
  {
    assert (w + [b])[..|w|] == w;
  }

  /** The more significant digits come first. */
  lemma {:induction false} NumeralAppend(u: bytes, v: bytes)
    requires AllDigit(u) && AllDigit(v)
    ensures AllDigit(u + v) && Numeral(u + v) == Numeral(u) * Pow10(|v|) + Numeral(v)
    decreases |v|
  {
    if v == [] {
      assert u + v == u;
    } else {
      var w, b := v[..|v| - 1], v[|v| - 1];
      NumeralAppend(u, w);
      NumeralMore(u + w, b);
      NumeralMore(w, b);
      assert w + [b] == v && u + w + [b] == u + v;
      Carry(Numeral(u), Pow10(|w|), Numeral(w), Digit(b));
    }
  }

  /** A digit denotes its place among "0123456789". */
  lemma NumeralOfDigit(d: nat)
    requires d < 10
    ensures Ascii("0123456789"[d..d + 1]) == [(48 + d) as byte] && Numeral([(48 + d) as byte]) == d
  {
    var w: bytes := [(48 + d) as byte];
    assert w[..0] == [];
  }

  /** The shortest decimal numeral of `n`, as `std::to_string` writes it. */
  function Decimal(n: nat): (w: bytes)
    ensures w != [] && AllDigit(w)
  {
    if n < 10 then [(48 + n) as byte] else Decimal(n / 10) + [(48 + n % 10) as byte]
  }

  /** There are no leading zeros. */
  lemma {:induction false} DecimalShortest(n: nat)
    ensures |Decimal(n)| > 1 ==> Decimal(n)[0] != ZERO
  {
    if n >= 10 {
      DecimalShortest(n / 10);
    }
  }

  lemma {:induction false} DecimalDenotes(n: nat)
    ensures Numeral(Decimal(n)) == n
  {
    var w := Decimal(n);
    if n < 10 {
      assert w[..|w| - 1] == [];
    } else {
      assert w[..|w| - 1] == Decimal(n / 10);
      DecimalDenotes(n / 10);
    }
  }
}
