/** A text has at most one derivation. */
module RequestUnique {
  import opened Octets
  import opened RequestGrammar

  /** The first byte outside a class ends the part that is inside. */
  lemma SplitAt(a: bytes, x: byte, r: bytes, b: bytes, y: byte, s: bytes, inside: byte -> bool)
    requires forall i | 0 <= i < |a| :: inside(a[i])
    requires forall i | 0 <= i < |b| :: inside(b[i])
    requires !inside(x) && !inside(y) && a + [x] + r == b + [y] + s
    ensures a == b && x == y && r == s
  {
    var w := a + [x] + r;
    assert w[|a|] == x && w[|b|] == y;
    assert forall i | 0 <= i < |a| :: w[i] == a[i];
    assert forall i | 0 <= i < |b| :: w[i] == b[i];
    assert w[..|a|] == a && w[..|b|] == b;
    assert w[|a| + 1..] == r && w[|b| + 1..] == s;
  }

  lemma DropSame(a: bytes, r: bytes, b: bytes, s: bytes)
    requires a + r == b + s && |r| == |s|
    ensures a == b && r == s
  {
    assert (a + r)[..|a|] == a && (b + s)[..|a|] == b;
    assert (a + r)[|a|..] == r && (b + s)[|a|..] == s;
  }

  // The request line.

  function AfterHttp(t: Syntax): bytes {
    t.major + [DOT] + (t.minor + [CR] + ([LF] + FieldsText(t.fields) + CRLF))
  }

  lemma TextParts(t: Syntax)
    ensures Text(t) == t.verb + [SP] + (t.uri + [SP] + (HTTP + AfterHttp(t)))
  {
    assert CRLF == [CR] + [LF];
  }

  lemma TargetUnique(t: Syntax, u: Syntax)
    requires IsSyntax(t) && IsSyntax(u) && Text(t) == Text(u)
    ensures t.verb == u.verb && t.uri == u.uri && AfterHttp(t) == AfterHttp(u)
  {
    TextParts(t);
    TextParts(u);
    var p, q := HTTP + AfterHttp(t), HTTP + AfterHttp(u);
    SplitAt(t.verb, SP, t.uri + [SP] + p, u.verb, SP, u.uri + [SP] + q, IsToken);
    SplitAt(t.uri, SP, p, u.uri, SP, q, IsUri);
    DropSame(HTTP, AfterHttp(t), HTTP, AfterHttp(u));
  }

  lemma VersionUnique(t: Syntax, u: Syntax)
    requires IsSyntax(t) && IsSyntax(u) && AfterHttp(t) == AfterHttp(u)
    ensures t.major == u.major && t.minor == u.minor && FieldsText(t.fields) == FieldsText(u.fields)
  {
    var digit := (b: byte) => IsDigit(b as int);
    var p, q := [LF] + FieldsText(t.fields) + CRLF, [LF] + FieldsText(u.fields) + CRLF;
    SplitAt(t.major, DOT, t.minor + [CR] + p, u.major, DOT, u.minor + [CR] + q, digit);
    SplitAt(t.minor, CR, p, u.minor, CR, q, digit);
    DropSame([LF] + FieldsText(t.fields), CRLF, [LF] + FieldsText(u.fields), CRLF);
    DropSame([LF], FieldsText(t.fields), [LF], FieldsText(u.fields));
  }

  // Header fields, from the last line to the first.

  function LastLine(f: Field): bytes {
    match f
    case First(name, value) => name + [COLON, SP] + value
    case Folded(_, indent, text) => indent + text
  }

  /** The lines before the last one. */
  function Lines(before: Fields, f: Field): bytes {
    match f
    case First(_, _) => FieldsText(before)
    case Folded(g, _, _) => FieldsText(before) + FieldText(g) + CRLF
  }

  predicate WholeLines(w: bytes) { w == [] || w[|w| - 1] == LF }

  lemma WholeBefore(fs: Fields)
    ensures WholeLines(FieldsText(fs))
  {
  }

  lemma FirstSplits(before: Fields, f: Field)
    requires IsField(f) && f.First?
    ensures FieldsText(before) + FieldText(f) == Lines(before, f) + LastLine(f)
    ensures WholeLines(Lines(before, f)) && LF !in LastLine(f)
    ensures LastLine(f) != [] && !IsBlank(LastLine(f)[0])
  {
    WholeBefore(before);
    assert LastLine(f)[0] == f.name[0];
  }

  lemma FoldedSplits(before: Fields, f: Field)
    requires IsField(f) && f.Folded?
    ensures FieldsText(before) + FieldText(f) == Lines(before, f) + LastLine(f)
    ensures WholeLines(Lines(before, f)) && LF !in LastLine(f)
    ensures LastLine(f) != [] && IsBlank(LastLine(f)[0])
  {
    var p, l := FieldsText(before) + FieldText(f.field), f.indent + f.text;
    assert FieldText(f) == FieldText(f.field) + CRLF + l;
    assert FieldsText(before) + FieldText(f) == p + CRLF + l;
    assert l[0] == f.indent[0];
  }

  lemma Splits(before: Fields, f: Field)
    requires IsField(f)
    ensures FieldsText(before) + FieldText(f) == Lines(before, f) + LastLine(f)
    ensures WholeLines(Lines(before, f)) && LF !in LastLine(f) && LastLine(f) != []
    ensures f.First? <==> !IsBlank(LastLine(f)[0])
  {
    match f
    case First(_, _) => FirstSplits(before, f);
    case Folded(_, _, _) => FoldedSplits(before, f);
  }

  lemma LastLineUnique(p: bytes, l: bytes, q: bytes, m: bytes)
    requires p + l == q + m && WholeLines(p) && WholeLines(q) && LF !in l && LF !in m
    ensures p == q && l == m
  {
    var w := p + l;
    assert forall i | |p| <= i < |w| :: w[i] == l[i - |p|];
    assert forall i | |q| <= i < |w| :: w[i] == m[i - |q|];
    assert p != [] ==> w[|p| - 1] == LF;
    assert q != [] ==> w[|q| - 1] == LF;
    DropSame(p, l, q, m);
  }

  lemma IndentUnique(i: bytes, v: bytes, j: bytes, w: bytes)
    requires IsFold(i, v) && IsFold(j, w) && i + v == j + w
    ensures i == j && v == w
  {
    var u := i + v;
    assert |i| < |u| ==> u[|i|] == v[0];
    assert |j| < |u| ==> u[|j|] == w[0];
    assert forall k | 0 <= k < |i| :: u[k] == i[k];
    assert forall k | 0 <= k < |j| :: u[k] == j[k];
    DropSame(i, v, j, w);
  }

  lemma FirstUnique(f: Field, g: Field)
    requires f.First? && g.First? && IsField(f) && IsField(g) && LastLine(f) == LastLine(g)
    ensures f == g
  {
    assert LastLine(f) == f.name + [COLON] + ([SP] + f.value);
    assert LastLine(g) == g.name + [COLON] + ([SP] + g.value);
    SplitAt(f.name, COLON, [SP] + f.value, g.name, COLON, [SP] + g.value, IsToken);
    DropSame([SP], f.value, [SP], g.value);
  }

  lemma {:induction false} FieldUnique(a: Fields, f: Field, b: Fields, g: Field)
    requires AreFields(a) && IsField(f) && AreFields(b) && IsField(g)
    requires FieldsText(a) + FieldText(f) == FieldsText(b) + FieldText(g)
    ensures a == b && f == g
    decreases |FieldsText(a) + FieldText(f)|
  {
    Splits(a, f);
    Splits(b, g);
    LastLineUnique(Lines(a, f), LastLine(f), Lines(b, g), LastLine(g));
    match f {
      case First(_, _) =>
        FirstUnique(f, g);
        FieldsUnique(a, b);
      case Folded(e, indent, text) =>
        IndentUnique(indent, text, g.indent, g.text);
        DropSame(FieldsText(a) + FieldText(e), CRLF, FieldsText(b) + FieldText(g.field), CRLF);
        FieldUnique(a, e, b, g.field);
    }
  }

  lemma {:induction false} FieldsUnique(a: Fields, b: Fields)
    requires AreFields(a) && AreFields(b) && FieldsText(a) == FieldsText(b)
    ensures a == b
    decreases |FieldsText(a)|
  {
    if a.More? && b.More? {
      DropSame(FieldsText(a.fields) + FieldText(a.field), CRLF,
               FieldsText(b.fields) + FieldText(b.field), CRLF);
      FieldUnique(a.fields, a.field, b.fields, b.field);
    }
  }

  /** The grammar is unambiguous: a text has one derivation, and so denotes one request. */
  lemma Unambiguous(t: Syntax, u: Syntax)
    requires IsSyntax(t) && IsSyntax(u) && Text(t) == Text(u)
    ensures t == u
  {
    TargetUnique(t, u);
    VersionUnique(t, u);
    FieldsUnique(t.fields, u.fields);
  }
}
