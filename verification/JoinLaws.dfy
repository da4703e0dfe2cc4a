/** How the two joins relate to the tables and to each other. */
module JoinLaws {
  import opened JoinSpec
  import opened OrderedSets

  /** `r` is the row of an id in both tables. */
  predicate IsBoth(a: Names, b: Names, r: ResultRecord) {
    r.id in a && r.id in b && r.value == [a[r.id], b[r.id]]
  }

  /** `r` is the row of an id in one table, its other field empty. */
  predicate IsOne(a: Names, b: Names, r: ResultRecord) {
    || (r.id in a && r.id !in b && r.value == [a[r.id], ""])
    || (r.id in b && r.id !in a && r.value == ["", b[r.id]])
  }

  lemma RowsMember(a: Names, b: Names, ids: seq<int>, r: ResultRecord)
    ensures r in Rows(a, b, ids) <==> r.id in ids && r == Row(a, b, r.id)
  {
    if r.id in ids && r == Row(a, b, r.id) {
      var i :| 0 <= i < |ids| && ids[i] == r.id;
      assert Rows(a, b, ids)[i] == r;
    }
  }

  /** The rows of the two joins, exactly. */
  lemma JoinMembers(a: Names, b: Names, r: ResultRecord)
    ensures r in Intersection(a, b) <==> IsBoth(a, b, r)
    ensures r in SymmetricDifference(a, b) <==> IsOne(a, b, r)
  {
    RowsMember(a, b, Sorted(Shared(a, b)), r);
    RowsMember(a, b, Sorted(Unshared(a, b)), r);
  }

  /** In ascending order of id, without repetition. */
  lemma JoinOrder(a: Names, b: Names)
    ensures Ordered(Intersection(a, b)) && Ordered(SymmetricDifference(a, b))
  {
  }

  /** The row of an id that is in some table is in exactly one of the joins. */
  lemma Partition(a: Names, b: Names, x: int)
    ensures x in a || x in b <==>
            (exists r: ResultRecord :: r.id == x && r in Intersection(a, b)) ||
            (exists r: ResultRecord :: r.id == x && r in SymmetricDifference(a, b))
    ensures !((exists r: ResultRecord :: r.id == x && r in Intersection(a, b)) &&
              (exists r: ResultRecord :: r.id == x && r in SymmetricDifference(a, b)))
  {
    forall r: ResultRecord
      ensures (r in Intersection(a, b) <==> IsBoth(a, b, r)) &&
              (r in SymmetricDifference(a, b) <==> IsOne(a, b, r))
    {
      JoinMembers(a, b, r);
    }
    if x in a || x in b {
      var r := Row(a, b, x);
      assert IsBoth(a, b, r) || IsOne(a, b, r);
    }
  }

  lemma Overlap(p: set<int>, q: set<int>)
    ensures |p| + |q| == 2 * |p * q| + |(p - q) + (q - p)|
  {
  }

  /** Shared ids are counted twice and the others once. */
  lemma Conservation(a: Names, b: Names)
    ensures |a| + |b| == 2 * |Intersection(a, b)| + |SymmetricDifference(a, b)|
  {
    SortedLength(Shared(a, b));
    SortedLength(Unshared(a, b));
    Overlap(a.Keys, b.Keys);
    assert |a| == |a.Keys| && |b| == |b.Keys|;
  }

  // The joins as views that an insertion updates.

  lemma InsertIntoA(a: Names, b: Names, x: int, n: string, r: ResultRecord)
    requires x !in a
    ensures x in b ==>
              && (r in Intersection(a[x := n], b) <==>
                  r in Intersection(a, b) || r == Keyed(x, [n, b[x]]))
              && (r in SymmetricDifference(a[x := n], b) <==>
                  r in SymmetricDifference(a, b) && r != Keyed(x, ["", b[x]]))
              && Keyed(x, ["", b[x]]) in SymmetricDifference(a, b)
    ensures x !in b ==>
              && (r in Intersection(a[x := n], b) <==> r in Intersection(a, b))
              && (r in SymmetricDifference(a[x := n], b) <==>
                  r in SymmetricDifference(a, b) || r == Keyed(x, [n, ""]))
  {
    JoinMembers(a, b, r);
    JoinMembers(a[x := n], b, r);
    if x in b {
      JoinMembers(a, b, Keyed(x, ["", b[x]]));
    }
  }

  lemma InsertIntoB(a: Names, b: Names, x: int, n: string, r: ResultRecord)
    requires x !in b
    ensures x in a ==>
              && (r in Intersection(a, b[x := n]) <==>
                  r in Intersection(a, b) || r == Keyed(x, [a[x], n]))
              && (r in SymmetricDifference(a, b[x := n]) <==>
                  r in SymmetricDifference(a, b) && r != Keyed(x, [a[x], ""]))
              && Keyed(x, [a[x], ""]) in SymmetricDifference(a, b)
    ensures x !in a ==>
              && (r in Intersection(a, b[x := n]) <==> r in Intersection(a, b))
              && (r in SymmetricDifference(a, b[x := n]) <==>
                  r in SymmetricDifference(a, b) || r == Keyed(x, ["", n]))
  {
    JoinMembers(a, b, r);
    JoinMembers(a, b[x := n], r);
    if x in a {
      JoinMembers(a, b, Keyed(x, [a[x], ""]));
    }
  }

  /** The joins treat the two tables alike, up to the order of the fields. */
  lemma Mirror(a: Names, b: Names, r: ResultRecord)
    requires |r.value| == 2
    ensures var m := Keyed(r.id, [r.value[1], r.value[0]]);
            && (r in Intersection(a, b) <==> m in Intersection(b, a))
            && (r in SymmetricDifference(a, b) <==> m in SymmetricDifference(b, a))
  {
    var m := Keyed(r.id, [r.value[1], r.value[0]]);
    JoinMembers(a, b, r);
    JoinMembers(b, a, m);
    assert r.value == [r.value[0], r.value[1]];
    assert m.value == [r.value[1], r.value[0]];
    assert m.value[0] == r.value[1] && m.value[1] == r.value[0];
  }

  /** After a truncation nothing is shared and the other table is the symmetric difference. */
  lemma Truncated(b: Names)
    ensures Intersection(map[], b) == [] == Intersection(b, map[])
    ensures SymmetricDifference(map[], b) == Rows(map[], b, Sorted(b.Keys))
    ensures SymmetricDifference(b, map[]) == Rows(b, map[], Sorted(b.Keys))
  {
    assert Shared(map[], b) == {} == Shared(b, map[]);
    assert Unshared(map[], b) == b.Keys == Unshared(b, map[]);
    AscendingUnique(Sorted({}), []);
  }

  // Recovering the tables from the two results.

  /** Column `i` of some rows; an empty field is a name only where `keepEmpty` says so. */
  function Column(q: seq<ResultRecord>, i: nat, keepEmpty: bool): Names
    requires forall k | 0 <= k < |q| :: i < |q[k].value|
  {
    if q == [] then map[]
    else
      var m, r := Column(q[..|q| - 1], i, keepEmpty), q[|q| - 1];
      if keepEmpty || r.value[i] != "" then m[r.id := r.value[i]] else m
  }

  lemma {:induction false} ColumnOfRows(a: Names, b: Names, ids: seq<int>, i: nat, keepEmpty: bool)
    requires i < 2
    ensures var m := if i == 0 then a else b;
            Column(Rows(a, b, ids), i, keepEmpty) ==
            map x | x in ids && (keepEmpty || NameOr(m, x) != "") :: NameOr(m, x)
    decreases |ids|
  {
    var q := Rows(a, b, ids);
    if ids != [] {
      var n := |ids| - 1;
      assert q[..n] == Rows(a, b, ids[..n]);
      ColumnOfRows(a, b, ids[..n], i, keepEmpty);
      assert forall x :: x in ids <==> x in ids[..n] || x == ids[n];
    }
  }

  ghost function Rebuilt(a: Names, b: Names, i: nat): Names
    requires i < 2
  {
    Column(Intersection(a, b), i, true) + Column(SymmetricDifference(a, b), i, false)
  }

  lemma RebuiltNames(a: Names, b: Names, i: nat)
    requires i < 2
    ensures var m := if i == 0 then a else b;
            && (forall x :: x in Rebuilt(a, b, i) <==> x in m && ((x in a && x in b) || m[x] != ""))
            && (forall x | x in Rebuilt(a, b, i) :: x in m && Rebuilt(a, b, i)[x] == m[x])
  {
    ColumnOfRows(a, b, Sorted(Shared(a, b)), i, true);
    ColumnOfRows(a, b, Sorted(Unshared(a, b)), i, false);
  }

  lemma RebuiltIff(a: Names, b: Names, i: nat)
    requires i < 2
    ensures var m := if i == 0 then a else b;
            Rebuilt(a, b, i) == m <==> forall x | x in m && !(x in a && x in b) :: m[x] != ""
  {
    var m, q := if i == 0 then a else b, Rebuilt(a, b, i);
    RebuiltNames(a, b, i);
    if forall x | x in m && !(x in a && x in b) :: m[x] != "" {
      forall x ensures x in q <==> x in m {
      }
      assert forall x | x in m :: q[x] == m[x];
      assert q == m;
    }
    if q == m {
      forall x | x in m && !(x in a && x in b) ensures m[x] != "" {
        assert x in q;
      }
    }
  }

  /** Every id that is in one table only has a name there. */
  predicate UnsharedNamed(a: Names, b: Names) {
    && (forall x | x in a && x !in b :: a[x] != "")
    && (forall x | x in b && x !in a :: b[x] != "")
  }

  /** Both tables come back from the two results exactly when no unshared id has an empty name. */
  lemma Reconstruction(a: Names, b: Names)
    ensures Rebuilt(a, b, 0) == a && Rebuilt(a, b, 1) == b <==> UnsharedNamed(a, b)
  {
    RebuiltIff(a, b, 0);
    RebuiltIff(a, b, 1);
  }

  ghost predicate SameResults(a: Names, b: Names, c: Names, d: Names) {
    && Intersection(a, b) == Intersection(c, d)
    && SymmetricDifference(a, b) == SymmetricDifference(c, d)
  }

  /** An empty row shows that an unshared id has an empty name. */
  lemma UnsharedNamedByRows(a: Names, b: Names)
    ensures UnsharedNamed(a, b) <==>
            forall r: ResultRecord | r in SymmetricDifference(a, b) :: r.value != ["", ""]
  {
    forall r: ResultRecord ensures r in SymmetricDifference(a, b) <==> IsOne(a, b, r) {
      JoinMembers(a, b, r);
    }
    if x :| x in a && x !in b && a[x] == "" {
      assert IsOne(a, b, Keyed(x, ["", ""]));
    }
    if x :| x in b && x !in a && b[x] == "" {
      assert IsOne(a, b, Keyed(x, ["", ""]));
    }
  }

  /** An unshared id with an empty name may as well be in the other table. */
  lemma EmptyNameMoves(a: Names, b: Names, x: int)
    requires x in a && x !in b && a[x] == ""
    ensures SameResults(a, b, a - {x}, b[x := ""]) && SameResults(b, a, b[x := ""], a - {x})
  {
    var c, d: Names := a - {x}, b[x := ""];
    assert Shared(a, b) == Shared(c, d) && Shared(b, a) == Shared(d, c);
    assert Unshared(a, b) == Unshared(c, d) && Unshared(b, a) == Unshared(d, c);
    assert forall k :: Row(a, b, k) == Row(c, d, k) && Row(b, a, k) == Row(d, c, k);
  }

  lemma ResultsDetermine(a: Names, b: Names, c: Names, d: Names)
    requires UnsharedNamed(a, b) && SameResults(a, b, c, d)
    ensures c == a && d == b
  {
    UnsharedNamedByRows(a, b);
    UnsharedNamedByRows(c, d);
    Reconstruction(a, b);
    Reconstruction(c, d);
  }

  /** The results determine the tables exactly when no unshared id has an empty name. */
  lemma Determined(a: Names, b: Names)
    ensures (forall c, d | SameResults(a, b, c, d) :: c == a && d == b) <==> UnsharedNamed(a, b)
  {
    if UnsharedNamed(a, b) {
      forall c, d | SameResults(a, b, c, d) ensures c == a && d == b {
        ResultsDetermine(a, b, c, d);
      }
    }
    if x :| x in a && x !in b && a[x] == "" {
      EmptyNameMoves(a, b, x);
      assert x !in a - {x};
    }
    if x :| x in b && x !in a && b[x] == "" {
      EmptyNameMoves(b, a, x);
      assert x !in b - {x};
    }
  }
}
