/** `std::set` keyed by id, as the sequence its iteration yields, and the two `<algorithm>` merges. */
module OrderedSets {
  import opened JoinSpec

  function Ids<V>(s: seq<Keyed<V>>): seq<int> {
    seq(|s|, i requires 0 <= i < |s| => s[i].id)
  }

  predicate Ordered<V>(s: seq<Keyed<V>>) { Ascending(Ids(s)) }

  /** The contents as a map. */
  function AsMap<V>(s: seq<Keyed<V>>): map<int, V> {
    if s == [] then map[] else AsMap(s[1..])[s[0].id := s[0].value]
  }

  /** `emplace`: an element whose id is present leaves the set as it is. */
  function Emplace<V>(s: seq<Keyed<V>>, x: Keyed<V>): (seq<Keyed<V>>, bool) {
    if s == [] then ([x], true)
    else if s[0].id < x.id then
      var (t, isNew) := Emplace(s[1..], x);
      ([s[0]] + t, isNew)
    else if x.id < s[0].id then ([x] + s, true)
    else (s, false)
  }

  lemma TailOrdered<V>(s: seq<Keyed<V>>)
    requires s != [] && Ordered(s)
    ensures Ordered(s[1..]) && Ids(s[1..]) == Ids(s)[1..]
  {
    assert Ids(s[1..]) == Ids(s)[1..];
  }

  lemma ConsOrdered<V>(x: Keyed<V>, s: seq<Keyed<V>>)
    requires Ordered(s) && forall i | 0 <= i < |s| :: x.id < s[i].id
    ensures Ordered([x] + s)
  {
    assert Ids([x] + s) == [x.id] + Ids(s);
  }

  lemma {:induction false} MapElements<V>(s: seq<Keyed<V>>)
    requires Ordered(s)
    ensures forall k :: k in AsMap(s) <==> k in Ids(s)
    ensures forall i | 0 <= i < |s| :: s[i].id in AsMap(s) && AsMap(s)[s[i].id] == s[i].value
  {
    if s != [] {
      var t := s[1..];
      TailOrdered(s);
      MapElements(t);
      forall i | 0 <= i < |s| ensures s[i].id in AsMap(s) && AsMap(s)[s[i].id] == s[i].value {
        if i > 0 {
          assert t[i - 1] == s[i] && Ids(s)[0] < Ids(s)[i];
        }
      }
      forall k ensures k in AsMap(s) <==> k in Ids(s) {
        assert Ids(s) == [s[0].id] + Ids(t);
      }
    }
  }

  /** The first element is below the rest. */
  lemma HeadBelow<V>(s: seq<Keyed<V>>)
    requires s != [] && Ordered(s)
    ensures forall k :: k in AsMap(s[1..]) ==> s[0].id < k
  {
    TailOrdered(s);
    MapElements(s[1..]);
    Below(Ids(s), Ids(s)[0]);
  }

  /** `emplace` adds a fresh id to the map, and does nothing to a map that has the id. */
  lemma {:induction false} EmplaceMap<V>(s: seq<Keyed<V>>, x: Keyed<V>)
    requires Ordered(s)
    ensures var (t, isNew) := Emplace(s, x);
            && Ordered(t)
            && isNew == (x.id !in AsMap(s))
            && AsMap(t) == (if isNew then AsMap(s)[x.id := x.value] else AsMap(s))
  {
    if s != [] {
      TailOrdered(s);
      HeadBelow(s);
      if s[0].id < x.id {
        var t := Emplace(s[1..], x).0;
        EmplaceMap(s[1..], x);
        MapElements(t);
        forall i | 0 <= i < |t| ensures s[0].id < t[i].id {
          assert t[i].id in AsMap(t);
        }
        ConsOrdered(s[0], t);
        assert ([s[0]] + t)[1..] == t;
      } else if x.id < s[0].id {
        Below(Ids(s), s[0].id);
        forall i | 0 <= i < |s| ensures x.id < s[i].id {
          assert Ids(s)[i] in Ids(s);
        }
        ConsOrdered(x, s);
        assert ([x] + s)[1..] == s;
      }
    }
  }

  /** The set keeps what it has, and gains `x` if no element has its id. */
  lemma {:induction false} EmplaceElements<V>(s: seq<Keyed<V>>, x: Keyed<V>, y: Keyed<V>)
    requires Ordered(s)
    ensures y in Emplace(s, x).0 <==> y in s || (y == x && forall z | z in s :: z.id != x.id)
  {
    if s != [] {
      TailOrdered(s);
      assert s == [s[0]] + s[1..];
      if s[0].id < x.id {
        EmplaceElements(s[1..], x, y);
      } else {
        Below(Ids(s), s[0].id);
        forall z | z in s ensures s[0].id <= z.id {
          var i :| 0 <= i < |s| && s[i] == z;
          assert Ids(s)[i] in Ids(s);
        }
      }
    }
  }

  /** Inserting a new greatest element appends it. */
  lemma {:induction false} EmplaceLast<V>(s: seq<Keyed<V>>, x: Keyed<V>)
    requires forall i | 0 <= i < |s| :: s[i].id < x.id
    ensures Emplace(s, x) == (s + [x], true)
  {
    if s == [] {
      assert s + [x] == [x];
    } else {
      EmplaceLast(s[1..], x);
      assert s + [x] == [s[0]] + (s[1..] + [x]);
    }
  }

  // The merges, by what is left of the two inputs.

  function MergeBoth(xs: seq<int>, ys: seq<int>): seq<int>
    decreases |xs| + |ys|
  {
    if xs == [] || ys == [] then []
    else if xs[0] < ys[0] then MergeBoth(xs[1..], ys)
    else if ys[0] < xs[0] then MergeBoth(xs, ys[1..])
    else [xs[0]] + MergeBoth(xs[1..], ys[1..])
  }

  function MergeOne(xs: seq<int>, ys: seq<int>): seq<int>
    decreases |xs| + |ys|
  {
    if xs == [] then ys
    else if ys == [] then xs
    else if xs[0] < ys[0] then [xs[0]] + MergeOne(xs[1..], ys)
    else if ys[0] < xs[0] then [ys[0]] + MergeOne(xs, ys[1..])
    else MergeOne(xs[1..], ys[1..])
  }

  /** What every element of an ascending sequence but the first is greater than. */
  lemma Below(ids: seq<int>, k: int)
    requires Ascending(ids) && (ids != [] ==> k <= ids[0])
    ensures forall x | x in ids :: k <= x
    ensures ids != [] ==> Ascending(ids[1..]) && (forall x :: x in ids[1..] <==> x in ids && x != ids[0])
  {
  }

  lemma ConsAscending(k: int, ids: seq<int>)
    requires Ascending(ids) && forall x | x in ids :: k < x
    ensures Ascending([k] + ids)
  {
    var q := [k] + ids;
    forall i, j | 0 <= i < j < |q| ensures q[i] < q[j] {
      assert q[j] in ids;
    }
  }

  lemma {:induction false} MergeBothMeets(xs: seq<int>, ys: seq<int>)
    requires Ascending(xs) && Ascending(ys)
    ensures Ascending(MergeBoth(xs, ys))
    ensures forall x :: x in MergeBoth(xs, ys) <==> x in xs && x in ys
    decreases |xs| + |ys|
  {
    if xs != [] && ys != [] {
      Below(xs, xs[0]);
      Below(ys, ys[0]);
      if xs[0] < ys[0] {
        MergeBothMeets(xs[1..], ys);
      } else if ys[0] < xs[0] {
        MergeBothMeets(xs, ys[1..]);
      } else {
        MergeBothMeets(xs[1..], ys[1..]);
        ConsAscending(xs[0], MergeBoth(xs[1..], ys[1..]));
      }
    }
  }

  lemma {:induction false} MergeOneMeets(xs: seq<int>, ys: seq<int>)
    requires Ascending(xs) && Ascending(ys)
    ensures Ascending(MergeOne(xs, ys))
    ensures forall x :: x in MergeOne(xs, ys) <==> (x in xs) != (x in ys)
    decreases |xs| + |ys|
  {
    if xs != [] && ys != [] {
      Below(xs, xs[0]);
      Below(ys, ys[0]);
      if xs[0] < ys[0] {
        MergeOneMeets(xs[1..], ys);
        ConsAscending(xs[0], MergeOne(xs[1..], ys));
      } else if ys[0] < xs[0] {
        MergeOneMeets(xs, ys[1..]);
        ConsAscending(ys[0], MergeOne(xs, ys[1..]));
      } else {
        MergeOneMeets(xs[1..], ys[1..]);
      }
    }
  }

  /** `std::set_intersection` into a vector. */
  method SetIntersection(xs: seq<int>, ys: seq<int>) returns (out: seq<int>)
    requires Ascending(xs) && Ascending(ys)
    ensures out == MergeBoth(xs, ys)
  {
    out := [];
    var i, j := 0, 0;
    while i < |xs| && j < |ys|
      invariant i <= |xs| && j <= |ys|
      invariant out + MergeBoth(xs[i..], ys[j..]) == MergeBoth(xs, ys)
    {
      assert xs[i..][1..] == xs[i + 1..] && ys[j..][1..] == ys[j + 1..];
      if xs[i] < ys[j] {
        i := i + 1;
      } else {
        if !(ys[j] < xs[i]) {
          out := out + [xs[i]];
          i := i + 1;
        }
        j := j + 1;
      }
    }
  }

  /** `std::set_symmetric_difference` into a vector. */
  method SetSymmetricDifference(xs: seq<int>, ys: seq<int>) returns (out: seq<int>)
    requires Ascending(xs) && Ascending(ys)
    ensures out == MergeOne(xs, ys)
  {
    out := [];
    var i, j := 0, 0;
    while i < |xs|
      invariant i <= |xs| && j <= |ys|
      invariant out + MergeOne(xs[i..], ys[j..]) == MergeOne(xs, ys)
      decreases |xs| - i + |ys| - j
    {
      if j == |ys| {
        return out + xs[i..];
      }
      assert xs[i..][1..] == xs[i + 1..] && ys[j..][1..] == ys[j + 1..];
      if xs[i] < ys[j] {
        out := out + [xs[i]];
        i := i + 1;
      } else {
        if ys[j] < xs[i] {
          out := out + [ys[j]];
        } else {
          i := i + 1;
        }
        j := j + 1;
      }
    }
    out := out + ys[j..];
  }
}
