/** The checks on a decoded request path, and what the path can lead to. */
module Paths {
  import opened Octets

  const INDEX_HTML: bytes := [105, 110, 100, 101, 120, 46, 104, 116, 109, 108]

  predicate DotsAt(p: bytes, i: int) { 0 <= i < |p| - 1 && p[i] == DOT && p[i + 1] == DOT }

  /** `p` contains "..". */
  predicate HasDotDot(p: bytes) { exists i | 0 <= i < |p| :: DotsAt(p, i) }

  /** The path is absolute and does not contain "..". */
  predicate Admitted(p: bytes) { p != [] && p[0] == SLASH && !HasDotDot(p) }

  /** An admitted path begins with "/", and ".." is nowhere in it. */
  lemma AdmittedIff(p: bytes)
    ensures Admitted(p) <==> Ascii("/") <= p && !exists u, v :: p == u + Ascii("..") + v
  {
    assert Ascii("/") == [SLASH] && Ascii("..") == [DOT, DOT];
    if i :| 0 <= i < |p| && DotsAt(p, i) {
      assert p == p[..i] + Ascii("..") + p[i + 2..];
    }
    if u, v :| p == u + Ascii("..") + v {
      assert DotsAt(p, |u|);
    }
  }

  function WithIndex(p: bytes): bytes
    requires p != []
  {
    if p[|p| - 1] == SLASH then p + INDEX_HTML else p
  }

  /** The part of a string before its first NUL, which is what `c_str` shows. */
  function CString(p: bytes): (r: bytes)
    ensures r <= p && NUL !in r && (r == p || p[|r|] == NUL)
  {
    if p == [] || p[0] == NUL then [] else [p[0]] + CString(p[1..])
  }

  // Lexical resolution.

  /** The `/`-separated segments of a path. */
  function Segments(p: bytes): (q: seq<bytes>)
    ensures q != []
  {
    if p == [] then [[]]
    else
      var n := |p| - 1;
      var q := Segments(p[..n]);
      if p[n] == SLASH then q + [[]] else q[|q| - 1 := q[|q| - 1] + [p[n]]]
  }

  /** The segments with a "/" between each two. */
  function Joined(q: seq<bytes>): bytes {
    if q == [] then []
    else if |q| == 1 then q[0]
    else Joined(q[..|q| - 1]) + [SLASH] + q[|q| - 1]
  }

  lemma JoinedLast(q: seq<bytes>, b: byte)
    requires q != []
    ensures Joined(q[|q| - 1 := q[|q| - 1] + [b]]) == Joined(q) + [b]
  {
    var n := |q| - 1;
    assert q[n := q[n] + [b]][..n] == q[..n];
  }

  /** The segments are the pieces between the slashes. */
  lemma {:induction false} SegmentsJoined(p: bytes)
    ensures Joined(Segments(p)) == p
    ensures forall i | 0 <= i < |Segments(p)| :: SLASH !in Segments(p)[i]
    decreases p
  {
    if p != [] {
      var n := |p| - 1;
      var q := Segments(p[..n]);
      SegmentsJoined(p[..n]);
      assert p == p[..n] + [p[n]];
      if p[n] == SLASH {
        assert (q + [[]])[..|q|] == q;
      } else {
        JoinedLast(q, p[n]);
      }
    }
  }

  const UP: bytes := [DOT, DOT]

  /** The directory that a list of segments names: "" and "." stay, ".." goes up. */
  function Resolve(q: seq<bytes>): seq<bytes> {
    if q == [] then []
    else
      var n := |q| - 1;
      var r := Resolve(q[..n]);
      if q[n] == [] || q[n] == [DOT] then r
      else if q[n] != UP then r + [q[n]]
      else if r == [] || r[|r| - 1] == UP then r + [UP]
      else r[..|r| - 1]
  }

  predicate IsName(w: bytes) { w != [] && w != [DOT] && w != UP }

  lemma ResolveLast(q: seq<bytes>, w: bytes)
    ensures var r := Resolve(q);
            Resolve(q + [w]) == if w == [] || w == [DOT] then r
                                else if w != UP then r + [w]
                                else if r == [] || r[|r| - 1] == UP then r + [UP]
                                else r[..|r| - 1]
  {
    assert (q + [w])[..|q|] == q;
  }

  /** "" and "." do not move, a name goes down, and ".." comes back from there. */
  lemma ResolveMore(q: seq<bytes>, name: bytes)
    requires IsName(name)
    ensures Resolve(q + [[]]) == Resolve(q) == Resolve(q + [[DOT]])
    ensures Resolve(q + [name]) == Resolve(q) + [name]
    ensures Resolve(q + [name] + [UP]) == Resolve(q)
  {
    ResolveLast(q, []);
    ResolveLast(q, [DOT]);
    ResolveLast(q, name);
    ResolveLast(q + [name], UP);
    assert (Resolve(q) + [name])[..|Resolve(q)|] == Resolve(q);
  }

  predicate NoUp(q: seq<bytes>) { forall i | 0 <= i < |q| :: q[i] != UP }

  /** The name does not depend on the current directory; "" counts, being a root to append to. */
  predicate Absolute(p: bytes) { p == [] || p[0] == SLASH }

  /** The path names the directory `root` or something reached from it without going up. */
  predicate Below(root: bytes, path: bytes) {
    var r, p := Resolve(Segments(root)), Resolve(Segments(path));
    Absolute(root) == Absolute(path) && r <= p && NoUp(p[|r|..])
  }

  lemma SegmentsMore(p: bytes, b: byte)
    ensures var q := Segments(p);
            Segments(p + [b]) == if b == SLASH then q + [[]] else q[|q| - 1 := q[|q| - 1] + [b]]
  {
    assert (p + [b])[..|p|] == p;
  }

  lemma UpSegment()
    ensures Segments([SLASH] + UP) == [[], UP]
  {
    var s: bytes := [SLASH];
    var q: seq<bytes> := [[], []];
    assert [] + [DOT] == [DOT] && q[1 := [DOT]] == [[], [DOT]];
    assert [DOT] + [DOT] == UP;
    SegmentsMore([], SLASH);
    SegmentsMore(s, DOT);
    SegmentsMore(s + [DOT], DOT);
    assert [] + s == s && s + [DOT] + [DOT] == s + UP;
  }

  /** Whatever the root is, its parent is not below it. */
  lemma ParentIsOutside(root: bytes)
    ensures !Below(root, root + [SLASH] + UP)
  {
    var q := Segments(root);
    assert root + [SLASH] + UP == root + ([SLASH] + UP);
    SegmentsAppend(root, [SLASH] + UP);
    UpSegment();
    assert (q + [UP])[..|q|] == q;
    var r := Resolve(q);
    assert Resolve(q + [UP]) == if r == [] || r[|r| - 1] == UP then r + [UP] else r[..|r| - 1];
    assert (r + [UP])[|r|..] == [UP];
  }

  lemma {:induction false} ResolveDescends(q: seq<bytes>, d: seq<bytes>)
    requires NoUp(d)
    ensures Resolve(q) <= Resolve(q + d) && NoUp(Resolve(q + d)[|Resolve(q)|..])
    decreases d
  {
    if d == [] {
      assert q + d == q;
    } else {
      ResolveDescends(q, d[..|d| - 1]);
      assert (q + d)[..|q + d| - 1] == q + d[..|d| - 1];
    }
  }

  /** Below a separator, segments accumulate after those of what comes before it. */
  lemma {:induction false} SegmentsAppend(p: bytes, s: bytes)
    requires s != [] && s[0] == SLASH
    ensures Segments(p + s) == Segments(p) + Segments(s)[1..]
    decreases s
  {
    var n := |s| - 1;
    assert (p + s)[..|p| + n] == p + s[..n];
    if n == 0 {
      assert s[..0] == [] && p + s[..0] == p;
      assert Segments(s) == [[]] + [[]];
    } else {
      SegmentsAppend(p, s[..n]);
      SegmentsFirst(s[..n]);
    }
  }

  lemma {:induction false} SegmentsFirst(s: bytes)
    requires s != [] && s[0] == SLASH
    ensures |Segments(s)| > 1
    decreases s
  {
    if |s| > 1 {
      SegmentsFirst(s[..|s| - 1]);
    }
  }

  lemma {:induction false} LastIsSuffix(p: bytes)
    ensures var q := Segments(p); var l := q[|q| - 1]; |l| <= |p| && p[|p| - |l|..] == l
    decreases p
  {
    if p != [] {
      LastIsSuffix(p[..|p| - 1]);
    }
  }

  /** A segment ".." would be the two bytes "..". */
  lemma {:induction false} NoUpSegment(p: bytes)
    requires !HasDotDot(p)
    ensures NoUp(Segments(p))
    decreases p
  {
    if p != [] {
      var n := |p| - 1;
      assert !HasDotDot(p[..n]) by {
        forall i | 0 <= i < n ensures !DotsAt(p[..n], i) {
          assert !DotsAt(p, i);
        }
      }
      NoUpSegment(p[..n]);
      LastIsSuffix(p);
      assert |p| >= 2 ==> !DotsAt(p, |p| - 2);
    }
  }

  lemma IndexKeepsOut(p: bytes)
    requires Admitted(p)
    ensures Admitted(WithIndex(p))
  {
    var w := WithIndex(p);
    forall i | 0 <= i < |w| ensures !DotsAt(w, i) {
      assert !DotsAt(p, i);
    }
  }

  /** Every cut of an admitted path, appended to a directory, stays below that directory. */
  lemma Confined(root: bytes, p: bytes, k: nat)
    requires Admitted(p) && k <= |WithIndex(p)|
    ensures Below(root, root + WithIndex(p)[..k])
  {
    var w := WithIndex(p);
    IndexKeepsOut(p);
    if k == 0 {
      assert root + w[..0] == root;
    } else {
      forall i | 0 <= i < k ensures !DotsAt(w[..k], i) {
        assert !DotsAt(w, i);
      }
      NoUpSegment(w[..k]);
      SegmentsAppend(root, w[..k]);
      ResolveDescends(Segments(root), Segments(w[..k])[1..]);
    }
  }

  lemma {:induction false} CStringAppend(p: bytes, s: bytes)
    ensures CString(p + s) == if NUL in p then CString(p) else p + CString(s)
    decreases p
  {
    if p == [] {
      assert p + s == s;
    } else {
      assert (p + s)[1..] == p[1..] + s;
      CStringAppend(p[1..], s);
      assert p == [p[0]] + p[1..];
    }
  }

  /** The file that is opened lies below the document root, wherever a NUL cuts the path short. */
  lemma OpenedBelowRoot(root: bytes, p: bytes)
    requires Admitted(p)
    ensures Below(CString(root), CString(root + WithIndex(p)))
  {
    var w := WithIndex(p);
    CStringAppend(root, w);
    if NUL !in root {
      CStringAppend(root, []);
      assert root + [] == root && CString(root) == root;
      assert w[..|CString(w)|] == CString(w);
      Confined(root, p, |CString(w)|);
    }
  }

  // The extension that selects the content type.

  /** The position of the last `b`, or -1. */
  function FindLast(p: bytes, b: byte): (i: int)
    ensures -1 <= i < |p|
    ensures i >= 0 ==> p[i] == b
    ensures forall j | i < j < |p| :: p[j] != b
  {
    if p == [] then -1
    else if p[|p| - 1] == b then |p| - 1
    else FindLast(p[..|p| - 1], b)
  }

  /** What follows the last dot, if that is after the last slash. */
  function AfterDot(p: bytes, slash: int, dot: int): bytes
    requires dot < |p|
  {
    if dot >= 0 && slash >= 0 && dot > slash then p[dot + 1..] else []
  }

  function Extension(p: bytes): bytes { AfterDot(p, FindLast(p, SLASH), FindLast(p, DOT)) }

  /** The extension is what follows the last dot of the last segment, if that segment has a dot. */
  lemma ExtensionOfLastSegment(p: bytes, dir: bytes, file: bytes)
    requires p == dir + [SLASH] + file && SLASH !in file
    ensures DOT !in file ==> Extension(p) == []
    ensures forall stem, ext | file == stem + [DOT] + ext && DOT !in ext :: Extension(p) == ext
  {
    var slash, dot := FindLast(p, SLASH), FindLast(p, DOT);
    assert p[|dir|] == SLASH;
    assert forall j | |dir| < j < |p| :: p[j] == file[j - |dir| - 1];
    assert slash == |dir|;
    forall stem, ext | file == stem + [DOT] + ext && DOT !in ext ensures Extension(p) == ext {
      var k := |dir| + 1 + |stem|;
      assert p[k] == file[|stem|] == DOT;
      assert forall j | k < j < |p| :: p[j] == ext[j - k - 1];
      assert dot == k && p[dot + 1..] == ext;
    }
  }

  lemma FindLastAppend(p: bytes, s: bytes, b: byte)
    ensures FindLast(p + s, b) == if b in s then |p| + FindLast(s, b) else FindLast(p, b)
  {
    var i := FindLast(p + s, b);
    assert forall j | 0 <= j < |s| :: (p + s)[|p| + j] == s[j];
    assert forall j | 0 <= j < |p| :: (p + s)[j] == p[j];
    assert b in s ==> FindLast(s, b) >= 0;
  }

  lemma ExtensionBelowRoot(root: bytes, w: bytes)
    requires w != [] && w[0] == SLASH
    ensures Extension(root + w) == Extension(w)
  {
    FindLastAppend(root, w, SLASH);
    FindLastAppend(root, w, DOT);
    assert FindLast(w, SLASH) >= 0;
  }

  /** What a cut at the first NUL takes off, from that NUL on, does not change the extension. */
  predicate CutKeepsExtension(w: bytes) {
    var u, v := CString(w), w[|CString(w)|..];
    || v == []
    || (if SLASH in v || DOT in v then Extension(u) == Extension([SLASH] + v)
        else FindLast(u, DOT) < FindLast(u, SLASH))
  }

  lemma AfterInTail(u: bytes, v: bytes, slash: nat, dot: nat)
    requires dot < |v|
    ensures AfterDot(u + v, slash, |u| + dot) == if |u| + dot > slash then v[dot + 1..] else []
  {
    assert (u + v)[|u| + dot + 1..] == v[dot + 1..];
  }

  lemma AfterContinues(u: bytes, v: bytes, slash: int, dot: int)
    requires slash >= 0 && -1 <= dot < |u|
    ensures AfterDot(u + v, slash, dot) == if dot > slash then AfterDot(u, slash, dot) + v else []
  {
    assert (u + v)[dot + 1..] == u[dot + 1..] + v;
  }

  lemma ExtensionInTail(u: bytes, v: bytes)
    requires u != [] && u[0] == SLASH && DOT in v
    ensures Extension(u + v) == if FindLast(v, DOT) > FindLast(v, SLASH) then v[FindLast(v, DOT) + 1..] else []
  {
    FindLastAppend(u, v, SLASH);
    FindLastAppend(u, v, DOT);
    var slash, dot := FindLast(v, SLASH), FindLast(v, DOT);
    assert FindLast(u, SLASH) >= 0 && dot >= 0;
    AfterInTail(u, v, if SLASH in v then |u| + slash else FindLast(u, SLASH), dot);
  }

  lemma ExtensionContinues(u: bytes, v: bytes)
    requires u != [] && u[0] == SLASH && SLASH !in v && DOT !in v
    ensures Extension(u + v) ==
            if FindLast(u, DOT) < FindLast(u, SLASH) then [] else Extension(u) + v
  {
    FindLastAppend(u, v, SLASH);
    FindLastAppend(u, v, DOT);
    AfterContinues(u, v, FindLast(u, SLASH), FindLast(u, DOT));
  }

  lemma ExtensionPastSlash(u: bytes, v: bytes)
    requires u != [] && u[0] == SLASH && SLASH in v && DOT !in v
    ensures Extension(u + v) == []
  {
    FindLastAppend(u, v, SLASH);
    FindLastAppend(u, v, DOT);
  }

  /**
   * The extension, which is taken from the whole path, is that of the name that is opened exactly
   * when the cut at the first NUL keeps it.
   */
  lemma ExtensionOfOpened(root: bytes, p: bytes)
    requires Admitted(p) && NUL !in root
    ensures Extension(CString(root + WithIndex(p))) == Extension(WithIndex(p)) <==>
            CutKeepsExtension(WithIndex(p))
  {
    var w := WithIndex(p);
    var u, v := CString(w), w[|CString(w)|..];
    CStringAppend(root, w);
    assert w == u + v && u[0] == SLASH;
    ExtensionBelowRoot(root, u);
    if DOT in v {
      ExtensionInTail(u, v);
      ExtensionInTail([SLASH], v);
    } else if SLASH in v {
      ExtensionPastSlash(u, v);
      ExtensionPastSlash([SLASH], v);
    } else if v != [] {
      ExtensionContinues(u, v);
    } else {
      assert u == w;
    }
  }

  lemma UncutKeepsExtension(w: bytes)
    requires NUL !in w
    ensures CutKeepsExtension(w)
  {
    CStringAppend(w, []);
    assert w + [] == w;
  }

  lemma CutAtNul(u: bytes, v: bytes)
    requires NUL !in u && v != [] && v[0] == NUL
    ensures CString(u + v) == u
  {
    CStringAppend(u, v);
    CStringAppend(u, []);
    assert u + [] == u;
  }

  lemma LastDot(v: bytes, stem: bytes, ext: bytes)
    requires v == stem + [DOT] + ext && DOT !in ext && SLASH !in v
    ensures FindLast(v, DOT) == |stem| && FindLast(v, SLASH) == -1 && v[|stem| + 1..] == ext
  {
    assert v[|stem|] == DOT;
    assert forall j | |stem| < j < |v| :: v[j] == ext[j - |stem| - 1];
  }

  const GIF: bytes := [103, 105, 102]

  /** "/a", a NUL and ".gif" is opened as "/a". */
  lemma CutLosesExtension(root: bytes, u: bytes, v: bytes)
    requires NUL !in root && u == [SLASH, 97] && v == [NUL] + [DOT] + GIF
    ensures Admitted(u + v) && WithIndex(u + v) == u + v && Extension(u + v) == GIF
    ensures CString(root + (u + v)) == root + u && Extension(root + u) == []
  {
    assert root + u + v == root + (u + v);
    CutAtNul(root + u, v);
    ExtensionBelowRoot(root, u);
    assert DOT !in u;
    LastDot(v, [NUL], GIF);
    ExtensionInTail(u, v);
  }
}
