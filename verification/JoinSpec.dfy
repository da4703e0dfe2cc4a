/**
 * The two joins as functions of two maps from ids to names. This is the reference the storage
 * engine is proved against; it knows nothing of ordered containers or merges.
 */
module JoinSpec {
  type Names = map<int, string>

  /** An element of an ordered set; the order looks at the id only. */
  datatype Keyed<V> = Keyed(id: int, value: V)

  /** A table row: an id and a name. */
  type Record = Keyed<string>

  /** A result row: an id and the name it has in each table, or "" where it has none. */
  type ResultRecord = Keyed<seq<string>>

  predicate Ascending(ids: seq<int>) {
    forall i, j | 0 <= i < j < |ids| :: ids[i] < ids[j]
  }

  ghost predicate Lists(ids: seq<int>, s: set<int>) {
    forall x :: x in ids <==> x in s
  }

  function InsertId(ids: seq<int>, y: int): seq<int> {
    if ids == [] || y < ids[0] then [y] + ids else [ids[0]] + InsertId(ids[1..], y)
  }

  lemma {:induction false} InsertIdAscending(ids: seq<int>, y: int)
    requires Ascending(ids) && y !in ids
    ensures Ascending(InsertId(ids, y)) && |InsertId(ids, y)| == |ids| + 1
    ensures forall x :: x in InsertId(ids, y) <==> x in ids || x == y
  {
    if ids != [] && ids[0] <= y {
      InsertIdAscending(ids[1..], y);
      var t := InsertId(ids[1..], y);
      forall i | 0 <= i < |t| ensures ids[0] < t[i] {
        assert t[i] in t;
      }
      assert ids == [ids[0]] + ids[1..];
    }
  }

  lemma {:induction false} CanSort(s: set<int>) returns (ids: seq<int>)
    ensures Ascending(ids) && Lists(ids, s) && |ids| == |s|
    decreases |s|
  {
    if forall y :: y !in s {
      assert s == {};
      ids := [];
    } else {
      var y :| y in s;
      var rest := CanSort(s - {y});
      ids := InsertId(rest, y);
      InsertIdAscending(rest, y);
    }
  }

  lemma TailElements(ids: seq<int>, x: int)
    requires ids != [] && Ascending(ids)
    ensures x in ids[1..] <==> x in ids && x != ids[0]
  {
  }

  /** An ascending sequence is determined by its elements. */
  lemma {:induction false} AscendingUnique(p: seq<int>, q: seq<int>)
    requires Ascending(p) && Ascending(q) && forall x :: x in p <==> x in q
    ensures p == q
    decreases p
  {
    assert p != [] ==> p[0] in p;
    assert q != [] ==> q[0] in q;
    if p != [] && q != [] {
      forall x ensures x in p[1..] <==> x in q[1..] {
        TailElements(p, x);
        TailElements(q, x);
      }
      AscendingUnique(p[1..], q[1..]);
      assert p == [p[0]] + p[1..] && q == [q[0]] + q[1..];
    }
  }

  /** The members of a set in ascending order: there is one such sequence. */
  ghost function Sorted(s: set<int>): (ids: seq<int>)
    ensures Ascending(ids) && Lists(ids, s)
  {
    assert exists ids :: Ascending(ids) && Lists(ids, s) by {
      var q := CanSort(s);
    }
    var ids :| Ascending(ids) && Lists(ids, s);
    ids
  }

  lemma SortedLength(s: set<int>)
    ensures |Sorted(s)| == |s|
  {
    var q := CanSort(s);
    AscendingUnique(q, Sorted(s));
  }

  function NameOr(m: Names, id: int): string {
    if id in m then m[id] else ""
  }

  function Row(a: Names, b: Names, id: int): ResultRecord {
    Keyed(id, [NameOr(a, id), NameOr(b, id)])
  }

  function Rows(a: Names, b: Names, ids: seq<int>): seq<ResultRecord> {
    seq(|ids|, i requires 0 <= i < |ids| => Row(a, b, ids[i]))
  }

  function Shared(a: Names, b: Names): set<int> { a.Keys * b.Keys }

  function Unshared(a: Names, b: Names): set<int> { (a.Keys - b.Keys) + (b.Keys - a.Keys) }

  ghost function Intersection(a: Names, b: Names): seq<ResultRecord> {
    Rows(a, b, Sorted(Shared(a, b)))
  }

  ghost function SymmetricDifference(a: Names, b: Names): seq<ResultRecord> {
    Rows(a, b, Sorted(Unshared(a, b)))
  }
}
