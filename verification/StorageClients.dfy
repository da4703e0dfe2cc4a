/**
 * Many clients of one storage. An operation runs as many small steps between taking the mutex and
 * releasing it, and the steps of different clients interleave freely.
 */
module StorageClients {
  import opened JoinSpec
  import opened OrderedSets
  import opened JoinStorage

  datatype Op = Insert(table: string, id: int, name: string) | Truncate(table: string) | Join(both: bool)

  datatype Answer = Flag(ok: bool) | Result(rows: seq<ResultRecord>)

  // The operations on two maps, one at a time.

  ghost function JoinIds(both: bool, a: Names, b: Names): seq<int> {
    Sorted(if both then Shared(a, b) else Unshared(a, b))
  }

  ghost function Respond(op: Op, a: Names, b: Names): Answer {
    match op
    case Insert(t, id, _) => Flag((t == "A" && id !in a) || (t == "B" && id !in b))
    case Truncate(t) => Flag(t == "A" || t == "B")
    case Join(both) => Result(if both then Intersection(a, b) else SymmetricDifference(a, b))
  }

  ghost function NextA(op: Op, a: Names): Names {
    match op
    case Insert(t, id, name) => if t == "A" && id !in a then a[id := name] else a
    case Truncate(t) => if t == "A" then map[] else a
    case Join(_) => a
  }

  ghost function NextB(op: Op, b: Names): Names {
    match op
    case Insert(t, id, name) => if t == "B" && id !in b then b[id := name] else b
    case Truncate(t) => if t == "B" then map[] else b
    case Join(_) => b
  }

  /** Operations one at a time are the calls of the storage object's methods. */
  method Perform(st: Storage, op: Op) returns (answer: Answer)
    requires st.Valid()
    modifies st`tables
    ensures st.Valid() && answer == Respond(op, old(st.A()), old(st.B()))
    ensures st.A() == NextA(op, old(st.A())) && st.B() == NextB(op, old(st.B()))
  {
    match op {
      case Insert(table, id, name) =>
        var ok := st.Insert(table, id, name);
        answer := Flag(ok);
      case Truncate(table) =>
        var ok := st.Truncate(table);
        answer := Flag(ok);
      case Join(both) =>
        var rows;
        if both {
          rows := st.Intersection();
        } else {
          rows := st.SymmetricDifference();
        }
        answer := Result(rows);
    }
  }

  // The work of an operation while it holds the mutex.

  datatype Work =
    | Begin
    | Seeking(at: nat)
    | Copying(xs: seq<int>, ys: seq<int>)
    | Merging(left: seq<int>, right: seq<int>, out: seq<int>)
    | Filling(ids: seq<int>, rows: seq<ResultRecord>)
    | Scanning(ids: seq<int>, rows: seq<ResultRecord>, row: ResultRecord, table: nat, pos: nat)
    | Finished(answer: Answer)

  datatype Shop = Shop(work: Work, tables: seq<Table>)

  predicate TwoTables(tables: seq<Table>) {
    |tables| == 2 && Ordered(tables[0]) && Ordered(tables[1])
  }

  function MergeStep(both: bool, xs: seq<int>, ys: seq<int>, out: seq<int>): Work {
    if xs == [] || ys == [] then
      Filling(if both then out else out + (if xs == [] then ys else xs), [])
    else if xs[0] < ys[0] then Merging(xs[1..], ys, if both then out else out + [xs[0]])
    else if ys[0] < xs[0] then Merging(xs, ys[1..], if both then out else out + [ys[0]])
    else Merging(xs[1..], ys[1..], if both then out + [xs[0]] else out)
  }

  /** One record of the search for the names of the first of `ids`. */
  function ScanStep(w: Work, tables: seq<Table>): Work
    requires w.Scanning? && w.ids != [] && |w.row.value| == 2 && |tables| == 2
  {
    if w.table >= 2 then Filling(w.ids[1..], w.rows + [w.row])
    else
      var t, key := tables[w.table], w.ids[0];
      if w.pos >= |t| then w.(table := w.table + 1, pos := 0)
      else if t[w.pos].id == key then
        w.(row := Keyed(key, w.row.value[w.table := t[w.pos].value]), table := w.table + 1, pos := 0)
      else w.(pos := w.pos + 1)
  }

  function SeekStep(id: int, name: string, i: nat, at: nat, tables: seq<Table>): Shop
    requires |tables| == 2 && i < 2
  {
    var t := tables[i];
    if at < |t| && t[at].id < id then Shop(Seeking(at + 1), tables)
    else if at < |t| && t[at].id == id then Shop(Finished(Flag(false)), tables)
    else if at <= |t| then
      Shop(Finished(Flag(true)), tables[i := t[..at] + [Keyed(id, name)] + t[at..]])
    else Shop(Finished(Flag(false)), tables)
  }

  function BeginStep(op: Op, tables: seq<Table>): Shop
    requires |tables| == 2
  {
    match op
    case Insert(t, _, _) =>
      Shop(if TableIndex(t) < 0 then Finished(Flag(false)) else Seeking(0), tables)
    case Truncate(t) =>
      if TableIndex(t) < 0 then Shop(Finished(Flag(false)), tables)
      else Shop(Finished(Flag(true)), tables[TableIndex(t) := []])
    case Join(_) => Shop(Copying([], []), tables)
  }

  /** What kind of work an operation can be doing. */
  predicate Fits(op: Op, w: Work) {
    match w
    case Seeking(_) => op.Insert? && TableIndex(op.table) >= 0
    case Scanning(ids, _, row, _, _) => op.Join? && ids != [] && |row.value| == 2
    case Copying(_, _) | Merging(_, _, _) | Filling(_, _) => op.Join?
    case _ => true
  }

  function WorkStep(op: Op, w: Work, tables: seq<Table>): Shop
    requires |tables| == 2 && Fits(op, w)
  {
    match w
    case Begin => BeginStep(op, tables)
    case Seeking(at) => SeekStep(op.id, op.name, TableIndex(op.table), at, tables)
    case Copying(xs, ys) =>
      Shop(if |xs| < |tables[0]| then Copying(xs + [tables[0][|xs|].id], ys)
           else if |ys| < |tables[1]| then Copying(xs, ys + [tables[1][|ys|].id])
           else Merging(xs, ys, []), tables)
    case Merging(xs, ys, out) => Shop(MergeStep(op.both, xs, ys, out), tables)
    case Filling(ids, rows) =>
      Shop(if ids == [] then Finished(Result(rows))
           else Scanning(ids, rows, Keyed(0, ["", ""]), 0, 0), tables)
    case Scanning(_, _, _, _, _) => Shop(ScanStep(w, tables), tables)
    case Finished(_) => Shop(w, tables)
  }

  function Merge(both: bool, xs: seq<int>, ys: seq<int>): seq<int> {
    if both then MergeBoth(xs, ys) else MergeOne(xs, ys)
  }

  /** The work so far, on tables that held `a` and `b` when the mutex was taken. */
  ghost predicate OnCourse(op: Op, w: Work, tables: seq<Table>, a: Names, b: Names) {
    && TwoTables(tables) && Fits(op, w)
    && (!w.Finished? ==> AsMap(tables[0]) == a && AsMap(tables[1]) == b)
    && match w
       case Begin => true
       case Seeking(at) =>
         var t := tables[TableIndex(op.table)];
         at <= |t| && forall j | 0 <= j < at :: t[j].id < op.id
       case Copying(xs, ys) =>
         xs <= Ids(tables[0]) && ys <= Ids(tables[1]) && (ys != [] ==> xs == Ids(tables[0]))
       case Merging(xs, ys, out) => out + Merge(op.both, xs, ys) == JoinIds(op.both, a, b)
       case Filling(ids, rows) => Filled(op.both, ids, rows, a, b)
       case Scanning(ids, rows, row, table, pos) =>
         && Filled(op.both, ids, rows, a, b) && table <= 2
         && row.value[0] == (if table > 0 then NameOr(a, ids[0]) else "")
         && row.value[1] == (if table > 1 then NameOr(b, ids[0]) else "")
         && ((table > 0 && ids[0] in a) || (table > 1 && ids[0] in b) ==> row.id == ids[0])
         && (table < 2 ==> Missed(tables[table], pos, ids[0]))
       case Finished(answer) =>
         && answer == Respond(op, a, b)
         && AsMap(tables[0]) == NextA(op, a) && AsMap(tables[1]) == NextB(op, b)
  }

  /** The rows so far, and the ids that still lack one. */
  ghost predicate Filled(both: bool, ids: seq<int>, rows: seq<ResultRecord>, a: Names, b: Names) {
    && rows + Rows(a, b, ids) == Rows(a, b, JoinIds(both, a, b))
    && forall x | x in ids :: x in a || x in b
  }

  /** The search for `key` has passed the first `pos` records. */
  predicate Missed(t: Table, pos: nat, key: int) {
    pos <= |t| && forall j | 0 <= j < pos :: t[j].id != key
  }

  lemma {:induction false} EmplaceAt(t: Table, x: Record, at: nat)
    requires Ordered(t) && at <= |t| && forall j | 0 <= j < at :: t[j].id < x.id
    ensures at < |t| && t[at].id == x.id ==> Emplace(t, x) == (t, false)
    ensures at == |t| || x.id < t[at].id ==> Emplace(t, x) == (t[..at] + [x] + t[at..], true)
    decreases t
  {
    if at > 0 {
      TailOrdered(t);
      EmplaceAt(t[1..], x, at - 1);
      assert t == [t[0]] + t[1..];
      assert t[..at] + [x] + t[at..] == [t[0]] + (t[1..][..at - 1] + [x] + t[1..][at - 1..]);
    } else {
      assert t[..0] + [x] + t[0..] == [x] + t;
      assert [x] + [] == [x];
    }
  }

  lemma SeekKeeps(op: Op, at: nat, tables: seq<Table>, a: Names, b: Names)
    requires OnCourse(op, Seeking(at), tables, a, b)
    ensures var s := WorkStep(op, Seeking(at), tables); OnCourse(op, s.work, s.tables, a, b)
  {
    var t := tables[TableIndex(op.table)];
    EmplaceAt(t, Keyed(op.id, op.name), at);
    EmplaceMap(t, Keyed(op.id, op.name));
  }

  lemma CopyKeeps(op: Op, xs: seq<int>, ys: seq<int>, tables: seq<Table>, a: Names, b: Names)
    requires OnCourse(op, Copying(xs, ys), tables, a, b)
    ensures var s := WorkStep(op, Copying(xs, ys), tables); OnCourse(op, s.work, s.tables, a, b)
  {
    var p, q := Ids(tables[0]), Ids(tables[1]);
    assert |xs| == |p| ==> xs == p;
    assert |ys| == |q| ==> ys == q;
    if |xs| == |p| && |ys| == |q| {
      ExtractedKeys(tables[0], tables[1]);
      assert [] + Merge(op.both, xs, ys) == JoinIds(op.both, a, b);
    }
  }

  lemma MergeKeeps(op: Op, xs: seq<int>, ys: seq<int>, out: seq<int>, tables: seq<Table>, a: Names, b: Names)
    requires OnCourse(op, Merging(xs, ys, out), tables, a, b)
    ensures OnCourse(op, MergeStep(op.both, xs, ys, out), tables, a, b)
  {
    if xs == [] || ys == [] {
      var ids := MergeStep(op.both, xs, ys, out).ids;
      assert ids == JoinIds(op.both, a, b);
      assert [] + Rows(a, b, ids) == Rows(a, b, ids);
    }
  }

  lemma FillKeeps(op: Op, ids: seq<int>, rows: seq<ResultRecord>, tables: seq<Table>, a: Names, b: Names)
    requires OnCourse(op, Filling(ids, rows), tables, a, b)
    ensures var s := WorkStep(op, Filling(ids, rows), tables); OnCourse(op, s.work, s.tables, a, b)
  {
  }

  lemma RowDone(op: Op, w: Work, tables: seq<Table>, a: Names, b: Names)
    requires w.Scanning? && w.table == 2 && OnCourse(op, w, tables, a, b)
    ensures Filled(op.both, w.ids[1..], w.rows + [w.row], a, b)
  {
    assert w.ids[0] in w.ids;
    assert w.row.value == [w.row.value[0], w.row.value[1]];
    assert w.row == Row(a, b, w.ids[0]);
    assert w.rows + [w.row] + Rows(a, b, w.ids[1..]) == w.rows + Rows(a, b, w.ids);
  }

  lemma NotFound(t: Table, key: int)
    requires Ordered(t) && Missed(t, |t|, key)
    ensures key !in AsMap(t)
  {
    MapElements(t);
    assert forall j | 0 <= j < |t| :: Ids(t)[j] == t[j].id;
  }

  lemma ScanKeeps(op: Op, w: Work, tables: seq<Table>, a: Names, b: Names)
    requires w.Scanning? && OnCourse(op, w, tables, a, b)
    ensures OnCourse(op, ScanStep(w, tables), tables, a, b)
  {
    if w.table == 2 {
      RowDone(op, w, tables, a, b);
    } else if w.pos == |tables[w.table]| {
      NotFound(tables[w.table], w.ids[0]);
    } else {
      MapElements(tables[w.table]);
    }
  }

  /** Every step of the work keeps it on course to the answer of the sequential operation. */
  lemma WorkKeeps(op: Op, w: Work, tables: seq<Table>, a: Names, b: Names)
    requires OnCourse(op, w, tables, a, b)
    ensures var s := WorkStep(op, w, tables); OnCourse(op, s.work, s.tables, a, b)
  {
    match w
    case Begin =>
    case Seeking(at) => SeekKeeps(op, at, tables, a, b);
    case Copying(xs, ys) => CopyKeeps(op, xs, ys, tables, a, b);
    case Merging(xs, ys, out) => MergeKeeps(op, xs, ys, out, tables, a, b);
    case Filling(ids, rows) => FillKeeps(op, ids, rows, tables, a, b);
    case Scanning(_, _, _, _, _) => ScanKeeps(op, w, tables, a, b);
    case Finished(_) =>
  }

  function Phase(w: Work): nat {
    match w
    case Begin => 4
    case Seeking(_) | Copying(_, _) => 3
    case Merging(_, _, _) => 2
    case Filling(_, _) | Scanning(_, _, _, _, _) => 1
    case Finished(_) => 0
  }

  /** What is left of the phase. */
  function Remaining(op: Op, w: Work, tables: seq<Table>): int
    requires |tables| == 2 && Fits(op, w)
  {
    match w
    case Seeking(at) => |tables[TableIndex(op.table)]| - at
    case Copying(xs, ys) => |tables[0]| + |tables[1]| - |xs| - |ys|
    case Merging(xs, ys, _) => |xs| + |ys|
    case Filling(ids, _) => |ids|
    case Scanning(ids, _, _, _, _) => |ids|
    case _ => 0
  }

  /** What is left of the search for one id. */
  function Search(w: Work): int {
    match w
    case Filling(_, _) => 3
    case Scanning(_, _, _, table, _) => 2 - table
    case _ => 0
  }

  function Unread(w: Work, tables: seq<Table>): int {
    if w.Scanning? && w.table < |tables| then |tables[w.table]| - w.pos else 0
  }

  /** Every step gets nearer to the end. */
  lemma WorkProgress(op: Op, w: Work, tables: seq<Table>, a: Names, b: Names)
    requires OnCourse(op, w, tables, a, b) && !w.Finished?
    requires var s := WorkStep(op, w, tables); |s.tables| == 2 && Fits(op, s.work)
    ensures var s := WorkStep(op, w, tables);
            (Phase(w), Remaining(op, w, tables), Search(w), Unread(w, tables) decreases to
             Phase(s.work), Remaining(op, s.work, s.tables), Search(s.work), Unread(s.work, s.tables))
  {
  }

  /** The work ends, with the answer and the tables of the sequential operation. */
  ghost function ToEnd(op: Op, w: Work, tables: seq<Table>, a: Names, b: Names): (s: Shop)
    requires OnCourse(op, w, tables, a, b)
    ensures s.work == Finished(Respond(op, a, b)) && |s.tables| == 2
    ensures AsMap(s.tables[0]) == NextA(op, a) && AsMap(s.tables[1]) == NextB(op, b)
    decreases Phase(w), Remaining(op, w, tables), Search(w), Unread(w, tables)
  {
    if w.Finished? then Shop(w, tables)
    else
      WorkKeeps(op, w, tables, a, b);
      WorkProgress(op, w, tables, a, b);
      var s := WorkStep(op, w, tables);
      ToEnd(op, s.work, s.tables, a, b)
  }
}
