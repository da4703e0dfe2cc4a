/** The join engine: two tables, looked up by name, and the joins computed from them. */
module JoinStorage {
  import opened JoinSpec
  import opened OrderedSets

  type Table = seq<Record>

  /** The table index a name refers to. */
  function TableIndex(name: string): int {
    if name == "A" then 0 else if name == "B" then 1 else -1
  }

  lemma ExtractedKeys(a: Table, b: Table)
    requires Ordered(a) && Ordered(b)
    ensures MergeBoth(Ids(a), Ids(b)) == Sorted(Shared(AsMap(a), AsMap(b)))
    ensures MergeOne(Ids(a), Ids(b)) == Sorted(Unshared(AsMap(a), AsMap(b)))
  {
    MapElements(a);
    MapElements(b);
    MergeBothMeets(Ids(a), Ids(b));
    MergeOneMeets(Ids(a), Ids(b));
    AscendingUnique(MergeBoth(Ids(a), Ids(b)), Sorted(Shared(AsMap(a), AsMap(b))));
    AscendingUnique(MergeOne(Ids(a), Ids(b)), Sorted(Unshared(AsMap(a), AsMap(b))));
  }

  // The assembly of rows, for any keys. A key that no table has leaves the row's id at 0.

  function RowFor(a: Names, b: Names, key: int): ResultRecord {
    Keyed(if key in a || key in b then key else 0, [NameOr(a, key), NameOr(b, key)])
  }

  function Assembled(a: Names, b: Names, keys: seq<int>): seq<ResultRecord> {
    if keys == [] then []
    else Emplace(Assembled(a, b, keys[..|keys| - 1]), RowFor(a, b, keys[|keys| - 1])).0
  }

  lemma {:induction false} AssembledOrdered(a: Names, b: Names, keys: seq<int>)
    ensures Ordered(Assembled(a, b, keys))
    decreases |keys|
  {
    if keys != [] {
      AssembledOrdered(a, b, keys[..|keys| - 1]);
      EmplaceMap(Assembled(a, b, keys[..|keys| - 1]), RowFor(a, b, keys[|keys| - 1]));
    }
  }

  /** The set of rows after one more key. */
  lemma AssembledMore(a: Names, b: Names, keys: seq<int>, r: ResultRecord)
    requires keys != []
    ensures var before, x := Assembled(a, b, keys[..|keys| - 1]), RowFor(a, b, keys[|keys| - 1]);
            r in Assembled(a, b, keys) <==> r in before || (r == x && forall z | z in before :: z.id != x.id)
  {
    AssembledOrdered(a, b, keys[..|keys| - 1]);
    EmplaceElements(Assembled(a, b, keys[..|keys| - 1]), RowFor(a, b, keys[|keys| - 1]), r);
  }

  /** Every key has left a row with its id. */
  lemma {:induction false} AssembledId(a: Names, b: Names, keys: seq<int>, i: nat) returns (z: ResultRecord)
    requires i < |keys|
    ensures z in Assembled(a, b, keys) && z.id == RowFor(a, b, keys[i]).id
    decreases |keys|
  {
    var n := |keys| - 1;
    z := RowFor(a, b, keys[n]);
    if i < n {
      z := AssembledId(a, b, keys[..n], i);
    } else if y :| y in Assembled(a, b, keys[..n]) && y.id == z.id {
      z := y;
    }
    AssembledMore(a, b, keys, z);
  }

  /** No earlier key has a row with the id of that of the `i`-th. */
  predicate Leads(a: Names, b: Names, keys: seq<int>, i: nat) {
    i < |keys| && forall j | 0 <= j < i :: RowFor(a, b, keys[j]).id != RowFor(a, b, keys[i]).id
  }

  lemma {:induction false} RowLeads(a: Names, b: Names, keys: seq<int>, r: ResultRecord) returns (i: nat)
    requires r in Assembled(a, b, keys)
    ensures Leads(a, b, keys, i) && r == RowFor(a, b, keys[i])
    decreases |keys|
  {
    var n := |keys| - 1;
    AssembledMore(a, b, keys, r);
    if r in Assembled(a, b, keys[..n]) {
      i := RowLeads(a, b, keys[..n], r);
    } else {
      i := n;
      forall j: nat | j < n ensures RowFor(a, b, keys[j]).id != r.id {
        var z := AssembledId(a, b, keys[..n], j);
      }
    }
  }

  lemma {:induction false} LeaderKept(a: Names, b: Names, keys: seq<int>, i: nat)
    requires Leads(a, b, keys, i)
    ensures RowFor(a, b, keys[i]) in Assembled(a, b, keys)
    decreases |keys|
  {
    var n, x := |keys| - 1, RowFor(a, b, keys[i]);
    AssembledMore(a, b, keys, x);
    if i < n {
      LeaderKept(a, b, keys[..n], i);
    } else {
      forall z | z in Assembled(a, b, keys[..n]) ensures z.id != x.id {
        var j := RowLeads(a, b, keys[..n], z);
      }
    }
  }

  /** The result is in order of id, and of several rows with one id it has the first. */
  lemma AssembledRows(a: Names, b: Names, keys: seq<int>, r: ResultRecord)
    ensures Ordered(Assembled(a, b, keys))
    ensures r in Assembled(a, b, keys) <==>
            exists i: nat :: Leads(a, b, keys, i) && r == RowFor(a, b, keys[i])
  {
    AssembledOrdered(a, b, keys);
    if r in Assembled(a, b, keys) {
      var i := RowLeads(a, b, keys, r);
    }
    if i: nat :| Leads(a, b, keys, i) && r == RowFor(a, b, keys[i]) {
      LeaderKept(a, b, keys, i);
    }
  }

  /** A key of no table gives an empty row with id 0. */
  lemma UnknownKey(a: Names, b: Names, x: int)
    requires x !in a && x !in b
    ensures Assembled(a, b, [x]) == [Keyed(0, ["", ""])]
  {
    assert [x][..0] == [];
  }

  /** For ascending keys that are in some table there is one row for each key, in order. */
  lemma {:induction false} AssembledTable(a: Names, b: Names, keys: seq<int>)
    requires Ascending(keys) && forall x | x in keys :: x in a || x in b
    ensures Assembled(a, b, keys) == Rows(a, b, keys)
    decreases |keys|
  {
    if keys != [] {
      var n := |keys| - 1;
      AssembledTable(a, b, keys[..n]);
      assert keys[n] in keys;
      EmplaceLast(Rows(a, b, keys[..n]), RowFor(a, b, keys[n]));
    }
  }

  class Storage {
    var tables: seq<Table>
    /** Which table each name stands for. */
    var names: map<string, nat>

    ghost predicate Valid()
      reads this
    {
      |tables| == 2 && Ordered(tables[0]) && Ordered(tables[1]) && names == map["A" := 0, "B" := 1]
    }

    ghost function A(): Names
      reads this
      requires Valid()
    {
      AsMap(tables[0])
    }

    ghost function B(): Names
      reads this
      requires Valid()
    {
      AsMap(tables[1])
    }

    constructor ()
      ensures Valid() && A() == map[] && B() == map[]
    {
      tables, names := [], map[];
      new;
      AddTable("A");
      AddTable("B");
    }

    method AddTable(name: string)
      modifies this
      ensures tables == old(tables) + [[]]
      ensures names == (if name in old(names) then old(names) else old(names)[name := |old(tables)|])
    {
      tables := tables + [[]];
      if name !in names {
        names := names[name := |tables| - 1];
      }
    }

    method Insert(table: string, id: int, name: string) returns (inserted: bool)
      requires Valid()
      modifies this`tables
      ensures Valid()
      ensures inserted <==> (table == "A" && id !in old(A())) || (table == "B" && id !in old(B()))
      ensures A() == if inserted && table == "A" then old(A())[id := name] else old(A())
      ensures B() == if inserted && table == "B" then old(B())[id := name] else old(B())
    {
      if table in names {
        var i := names[table];
        EmplaceMap(tables[i], Keyed(id, name));
        var (t, isNew) := Emplace(tables[i], Keyed(id, name));
        tables := tables[i := t];
        return isNew;
      }
      return false;
    }

    method Truncate(table: string) returns (found: bool)
      requires Valid()
      modifies this`tables
      ensures Valid()
      ensures found <==> table == "A" || table == "B"
      ensures A() == if table == "A" then map[] else old(A())
      ensures B() == if table == "B" then map[] else old(B())
    {
      if table in names {
        tables := tables[names[table] := []];
        return true;
      }
      return false;
    }

    method Intersection() returns (result: seq<ResultRecord>)
      requires Valid()
      ensures result == JoinSpec.Intersection(A(), B())
    {
      var keys := ExtractKeys();
      var both := SetIntersection(keys[0], keys[1]);
      ExtractedKeys(tables[0], tables[1]);
      result := FillResult(both);
      AssembledTable(A(), B(), both);
    }

    method SymmetricDifference() returns (result: seq<ResultRecord>)
      requires Valid()
      ensures result == JoinSpec.SymmetricDifference(A(), B())
    {
      var keys := ExtractKeys();
      var one := SetSymmetricDifference(keys[0], keys[1]);
      ExtractedKeys(tables[0], tables[1]);
      result := FillResult(one);
      AssembledTable(A(), B(), one);
    }

    method ExtractKeys() returns (keys: seq<seq<int>>)
      requires Valid()
      ensures keys == [Ids(tables[0]), Ids(tables[1])]
    {
      keys := [];
      for i := 0 to |tables|
        invariant |keys| == i && forall j | 0 <= j < i :: keys[j] == Ids(tables[j])
      {
        var t := tables[i];
        var ids: seq<int> := [];
        for k := 0 to |t|
          invariant ids == Ids(t)[..k]
        {
          ids := ids + [t[k].id];
        }
        keys := keys + [ids];
      }
    }

    method FindName(data: Table, key: int) returns (name: string, found: bool)
      requires Ordered(data)
      ensures found == (key in AsMap(data)) && name == NameOr(AsMap(data), key)
    {
      MapElements(data);
      var i := 0;
      while i < |data| && data[i].id != key
        invariant i <= |data| && forall j | 0 <= j < i :: data[j].id != key
      {
        i := i + 1;
      }
      if i < |data| {
        return data[i].value, true;
      }
      assert forall k | 0 <= k < |data| :: Ids(data)[k] == data[k].id;
      return "", false;
    }

    method FillResult(keys: seq<int>) returns (result: seq<ResultRecord>)
      requires Valid()
      ensures result == Assembled(A(), B(), keys)
    {
      result := [];
      for k := 0 to |keys|
        invariant result == Assembled(A(), B(), keys[..k])
      {
        var key := keys[k];
        var row: ResultRecord := Keyed(0, ["", ""]);
        for i := 0 to |tables|
          invariant |row.value| == 2
          invariant i > 0 ==> row.value[0] == NameOr(A(), key)
          invariant row.value[1] == if i > 1 then NameOr(B(), key) else ""
          invariant i == 0 ==> row.value[0] == ""
          invariant row.id == if (i > 0 && key in A()) || (i > 1 && key in B()) then key else 0
        {
          var name, found := FindName(tables[i], key);
          if found {
            row := Keyed(key, row.value[i := name]);
          }
        }
        assert row.value == [NameOr(A(), key), NameOr(B(), key)];
        result := Emplace(result, row).0;
        assert keys[..k + 1][..k] == keys[..k];
      }
      assert keys[..|keys|] == keys;
    }
  }
}
