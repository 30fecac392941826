/** The model merger: a tree of rows is brought up to date with new rows, and a tree of Qt items that
    mirrors it with the same edits. Rows and items are values here; a list that the source mutates
    is written back into the row that holds it. */
module Merging {
  import opened Wrappers

  type Role = int
  type Value = int

  /** The data of one column, by role. */
  type Column = map<Role, Value>

  datatype TreeRow = TreeRow(key: int, columns: seq<Column>, flags: int, children: seq<TreeRow>)

  datatype Cell = Cell(data: Column, flags: int)

  /** The items of one row, and the rows below it. */
  datatype ItemRow = ItemRow(cells: seq<Cell>, children: seq<ItemRow>)

  function Size(rows: seq<TreeRow>): nat {
    if rows == [] then 0 else 1 + Size(rows[0].children) + Size(rows[1..])
  }

  // ----- sorting by key, as a stable sort does

  function InsertSorted(r: TreeRow, rows: seq<TreeRow>): seq<TreeRow> {
    if rows == [] || r.key <= rows[0].key then [r] + rows else [rows[0]] + InsertSorted(r, rows[1..])
  }

  function SortRows(rows: seq<TreeRow>): seq<TreeRow> {
    if rows == [] then [] else InsertSorted(rows[0], SortRows(rows[1..]))
  }

  lemma {:induction false} InsertSize(r: TreeRow, rows: seq<TreeRow>)
    ensures Size(InsertSorted(r, rows)) == 1 + Size(r.children) + Size(rows)
  {
    if rows == [] || r.key <= rows[0].key {
      assert ([r] + rows)[1..] == rows;
    } else {
      InsertSize(r, rows[1..]);
      assert InsertSorted(r, rows)[1..] == InsertSorted(r, rows[1..]);
    }
  }

  lemma {:induction false} SortSize(rows: seq<TreeRow>)
    ensures Size(SortRows(rows)) == Size(rows)
  {
    if rows != [] {
      SortSize(rows[1..]);
      InsertSize(rows[0], SortRows(rows[1..]));
    }
  }

  predicate Ascending(rows: seq<TreeRow>) {
    forall i, j :: 0 <= i < j < |rows| ==> rows[i].key <= rows[j].key
  }

  function OfKey(rows: seq<TreeRow>, key: int): seq<TreeRow> {
    if rows == [] then [] else (if rows[0].key == key then [rows[0]] else []) + OfKey(rows[1..], key)
  }

  lemma {:induction false} InsertAscends(r: TreeRow, rows: seq<TreeRow>)
    requires Ascending(rows)
    ensures Ascending(InsertSorted(r, rows))
    ensures forall x :: x in InsertSorted(r, rows) ==> x == r || x in rows
  {
    if rows != [] && r.key > rows[0].key {
      var more := InsertSorted(r, rows[1..]);
      InsertAscends(r, rows[1..]);
      forall x | x in more ensures rows[0].key <= x.key {
        if x != r { var i :| 0 <= i < |rows[1..]| && rows[1..][i] == x; assert rows[i + 1] == x; }
      }
    }
  }

  lemma {:induction false} InsertIsStable(r: TreeRow, rows: seq<TreeRow>, key: int)
    ensures OfKey(InsertSorted(r, rows), key) == OfKey([r] + rows, key)
  {
    assert ([r] + rows)[1..] == rows;
    if rows != [] && r.key > rows[0].key {
      var more := InsertSorted(r, rows[1..]);
      InsertIsStable(r, rows[1..], key);
      assert ([rows[0]] + more)[1..] == more && ([r] + rows[1..])[1..] == rows[1..];
    }
  }

  /** The sorted rows are ascending, and the rows of each key are in their original order. */
  lemma {:induction false} SortIsStable(rows: seq<TreeRow>, key: int)
    ensures Ascending(SortRows(rows))
    ensures OfKey(SortRows(rows), key) == OfKey(rows, key)
  {
    if rows != [] {
      SortIsStable(rows[1..], key);
      InsertAscends(rows[0], SortRows(rows[1..]));
      InsertIsStable(rows[0], SortRows(rows[1..]), key);
      assert ([rows[0]] + SortRows(rows[1..]))[1..] == SortRows(rows[1..]);
    }
  }

  // ----- the merge of the rows

  /** The head of the new rows is inserted. */
  predicate Inserts(was: seq<TreeRow>, now: seq<TreeRow>) {
    now != [] && (was == [] || was[0].key > now[0].key)
  }

  /** The head of the existing rows is removed. */
  predicate Removes(was: seq<TreeRow>, now: seq<TreeRow>) {
    was != [] && (now == [] || was[0].key < now[0].key)
  }

  function MergeRows(was: seq<TreeRow>, now: seq<TreeRow>): seq<TreeRow>
    decreases Size(now), 1, |was|
  {
    SortSize(now);
    MergeSorted(was, SortRows(now))
  }

  function MergeSorted(was: seq<TreeRow>, now: seq<TreeRow>): seq<TreeRow>
    decreases Size(now), 0, |was|
  {
    if Inserts(was, now) then
      [now[0].(children := MergeRows([], now[0].children))] + MergeSorted(was, now[1..])
    else if Removes(was, now) then MergeSorted(was[1..], now)
    else if was == [] then []
    else
      [was[0].(columns := now[0].columns, children := MergeRows(was[0].children, now[0].children))]
      + MergeSorted(was[1..], now[1..])
  }

  /** A tree with all levels sorted. */
  function SortTree(rows: seq<TreeRow>): seq<TreeRow>
    decreases Size(rows), 1
  {
    SortSize(rows);
    SortChildren(SortRows(rows))
  }

  function SortChildren(rows: seq<TreeRow>): seq<TreeRow>
    decreases Size(rows), 0
  {
    if rows == [] then []
    else [rows[0].(children := SortTree(rows[0].children))] + SortChildren(rows[1..])
  }

  /** Equal in keys, columns and children, all the way down. */
  predicate SameRows(a: seq<TreeRow>, b: seq<TreeRow>) {
    |a| == |b| &&
    forall i :: 0 <= i < |a| ==> a[i].key == b[i].key && a[i].columns == b[i].columns && SameRows(a[i].children, b[i].children)
  }

  lemma SameCons(x: TreeRow, y: TreeRow, a: seq<TreeRow>, b: seq<TreeRow>)
    requires x.key == y.key && x.columns == y.columns && SameRows(x.children, y.children) && SameRows(a, b)
    ensures SameRows([x] + a, [y] + b)
  {
  }

  /** The merge ends at the new rows, sorted on every level, whatever rows it started from. */
  lemma {:induction false} MergeReachesNew(was: seq<TreeRow>, now: seq<TreeRow>)
    ensures SameRows(MergeRows(was, now), SortTree(now))
    decreases Size(now), 1, |was|
  {
    SortSize(now);
    MergeSortedReachesNew(was, SortRows(now));
  }

  lemma {:induction false} MergeSortedReachesNew(was: seq<TreeRow>, now: seq<TreeRow>)
    ensures SameRows(MergeSorted(was, now), SortChildren(now))
    decreases Size(now), 0, |was|
  {
    if Inserts(was, now) {
      MergeReachesNew([], now[0].children);
      MergeSortedReachesNew(was, now[1..]);
      SameCons(MergeSorted(was, now)[0], SortChildren(now)[0], MergeSorted(was, now[1..]), SortChildren(now[1..]));
    } else if Removes(was, now) {
      MergeSortedReachesNew(was[1..], now);
    } else if was != [] {
      MergeReachesNew(was[0].children, now[0].children);
      MergeSortedReachesNew(was[1..], now[1..]);
      SameCons(MergeSorted(was, now)[0], SortChildren(now)[0], MergeSorted(was[1..], now[1..]), SortChildren(now[1..]));
    }
  }

  // ----- the edits

  /** A call that inserts or removes a row of the item model. The path holds the keys of the rows above
      it; a removed row takes the rows below it along. */
  datatype Edit = Insert(path: seq<int>, key: int) | Remove(path: seq<int>, key: int)

  /** Edits seen from one level further up. */
  function Under(k: int, edits: seq<Edit>): seq<Edit> {
    if edits == [] then [] else [edits[0].(path := [k] + edits[0].path)] + Under(k, edits[1..])
  }

  /** All edits of a merge, on every level, in the order of the calls. */
  function EditsRows(was: seq<TreeRow>, now: seq<TreeRow>): seq<Edit>
    decreases Size(now), 1, |was|
  {
    SortSize(now);
    EditsSorted(was, SortRows(now))
  }

  function EditsSorted(was: seq<TreeRow>, now: seq<TreeRow>): seq<Edit>
    decreases Size(now), 0, |was|
  {
    if Inserts(was, now) then
      [Insert([], now[0].key)] + Under(now[0].key, EditsRows([], now[0].children)) + EditsSorted(was, now[1..])
    else if Removes(was, now) then [Remove([], was[0].key)] + EditsSorted(was[1..], now)
    else if was == [] then []
    else Under(now[0].key, EditsRows(was[0].children, now[0].children)) + EditsSorted(was[1..], now[1..])
  }

  function Times(edits: seq<Edit>, e: Edit): nat {
    multiset(edits)[e]
  }

  lemma TimesAppend(a: seq<Edit>, b: seq<Edit>, e: Edit)
    ensures Times(a + b, e) == Times(a, e) + Times(b, e)
  {
  }

  lemma OneUnder(k: int, x: Edit, e: Edit)
    ensures x.(path := [k] + x.path) == e <==> e.path != [] && e.path[0] == k && x == e.(path := e.path[1..])
  {
    if e.path != [] && e.path[0] == k {
      assert e.path == [k] + e.path[1..];
    }
    assert ([k] + x.path)[1..] == x.path;
  }

  lemma TimesOne(x: Edit, e: Edit)
    ensures Times([x], e) == if e == x then 1 else 0
  {
  }

  lemma {:induction false} TimesUnder(k: int, edits: seq<Edit>, e: Edit)
    ensures Times(Under(k, edits), e)
            == if e.path != [] && e.path[0] == k then Times(edits, e.(path := e.path[1..])) else 0
  {
    if edits == [] {
    } else {
      TimesUnderCons(k, edits[0], edits[1..], e);
      assert edits == [edits[0]] + edits[1..];
      TimesUnder(k, edits[1..], e);
    }
  }

  lemma TimesUnderCons(k: int, x: Edit, edits: seq<Edit>, e: Edit)
    ensures var here := e.path != [] && e.path[0] == k;
            && Times([x.(path := [k] + x.path)] + Under(k, edits), e)
               == Times(Under(k, edits), e) + (if here && x == e.(path := e.path[1..]) then 1 else 0)
            && (here ==>
                  var e0 := e.(path := e.path[1..]);
                  Times([x] + edits, e0) == Times(edits, e0) + (if x == e0 then 1 else 0))
  {
    hide Times, Under;
    var y := x.(path := [k] + x.path);
    OneUnder(k, x, e);
    TimesAppend([y], Under(k, edits), e);
    TimesOne(y, e);
    if e.path != [] && e.path[0] == k {
      TimesAppend([x], edits, e.(path := e.path[1..]));
      TimesOne(x, e.(path := e.path[1..]));
    }
  }

  // ----- looking rows up by the keys on the way to them

  function Keys(rows: seq<TreeRow>): set<int> {
    set r | r in rows :: r.key
  }

  /** The first row of a key. */
  function Child(rows: seq<TreeRow>, k: int): Option<TreeRow> {
    if rows == [] then None else if rows[0].key == k then Some(rows[0]) else Child(rows[1..], k)
  }

  /** The rows under a path. */
  function Level(rows: seq<TreeRow>, path: seq<int>): Option<seq<TreeRow>>
    decreases |path|
  {
    if path == [] then Some(rows)
    else
      var r := Child(rows, path[0]);
      if r.None? then None else Level(r.value.children, path[1..])
  }

  /** There is a row of this key under this path. */
  predicate Has(rows: seq<TreeRow>, path: seq<int>, k: int) {
    Level(rows, path).Some? && k in Keys(Level(rows, path).value)
  }

  predicate StrictlyAscending(rows: seq<TreeRow>) {
    forall i, j :: 0 <= i < j < |rows| ==> rows[i].key < rows[j].key
  }

  /** Sorted by distinct keys on every level. */
  predicate StrictTree(rows: seq<TreeRow>) {
    StrictlyAscending(rows) && forall i :: 0 <= i < |rows| ==> StrictTree(rows[i].children)
  }

  /** The keys of every level are distinct. */
  predicate DistinctTree(rows: seq<TreeRow>) {
    && (forall i, j :: 0 <= i < j < |rows| ==> rows[i].key != rows[j].key)
    && (forall i :: 0 <= i < |rows| ==> DistinctTree(rows[i].children))
  }

  lemma KeysCons(r: TreeRow, rows: seq<TreeRow>)
    ensures Keys([r] + rows) == {r.key} + Keys(rows)
  {
    forall k ensures k in Keys([r] + rows) <==> k == r.key || k in Keys(rows) {
      if k in Keys(rows) { var x :| x in rows && x.key == k; assert x in [r] + rows; }
      if k == r.key { assert r in [r] + rows; }
    }
  }

  lemma {:induction false} ChildIsKey(rows: seq<TreeRow>, k: int)
    ensures Child(rows, k).Some? <==> k in Keys(rows)
    ensures Child(rows, k).Some? ==> Child(rows, k).value in rows && Child(rows, k).value.key == k
  {
    if rows != [] {
      assert rows == [rows[0]] + rows[1..];
      KeysCons(rows[0], rows[1..]);
      ChildIsKey(rows[1..], k);
    }
  }

  lemma {:induction false} BelowFirst(rows: seq<TreeRow>, k: int)
    requires StrictlyAscending(rows) && (rows != [] ==> k < rows[0].key)
    ensures k !in Keys(rows) && Child(rows, k).None?
  {
    ChildIsKey(rows, k);
    forall r | r in rows ensures r.key != k {
      var i :| 0 <= i < |rows| && rows[i] == r;
    }
  }

  /** Looking up in ascending rows: in the first row, or in the others. */
  lemma LookupCons(rows: seq<TreeRow>, path: seq<int>, k: int)
    requires rows != [] && StrictlyAscending(rows)
    ensures StrictlyAscending(rows[1..]) && rows[0].key !in Keys(rows[1..])
    ensures path == [] ==> (Has(rows, path, k) <==> k == rows[0].key || Has(rows[1..], path, k))
    ensures path != [] && path[0] == rows[0].key ==>
              Level(rows, path) == Level(rows[0].children, path[1..]) && Level(rows[1..], path).None?
    ensures path != [] && path[0] != rows[0].key ==> Level(rows, path) == Level(rows[1..], path)
  {
    assert rows == [rows[0]] + rows[1..];
    KeysCons(rows[0], rows[1..]);
    BelowFirst(rows[1..], rows[0].key);
  }

  // ----- no edit but those needed

  /** How often a minimal merge inserts and removes each row: once if only the new rows have it, and once
      if only the old ones have it while the rows above it stay. */
  ghost predicate Minimal(edits: seq<Edit>, was: seq<TreeRow>, now: seq<TreeRow>) {
    forall path, k :: MinimalAt(edits, was, now, path, k)
  }

  predicate MinimalAt(edits: seq<Edit>, was: seq<TreeRow>, now: seq<TreeRow>, path: seq<int>, k: int) {
    && Times(edits, Insert(path, k)) == (if Has(now, path, k) && !Has(was, path, k) then 1 else 0)
    && Times(edits, Remove(path, k))
       == (if Level(now, path).Some? && Has(was, path, k) && !Has(now, path, k) then 1 else 0)
  }

  lemma InsertIsMinimal(was: seq<TreeRow>, now: seq<TreeRow>, below: seq<Edit>, more: seq<Edit>, path: seq<int>, k: int)
    requires StrictlyAscending(was) && StrictlyAscending(now) && Inserts(was, now)
    requires path != [] ==> MinimalAt(below, [], now[0].children, path[1..], k)
    requires MinimalAt(more, was, now[1..], path, k)
    ensures MinimalAt([Insert([], now[0].key)] + Under(now[0].key, below) + more, was, now, path, k)
  {
    hide Times;
    var a := now[0].key;
    LookupCons(now, path, k);
    BelowFirst(was, a);
    forall e: Edit ensures Times([Insert([], a)] + Under(a, below) + more, e)
                           == (if e == Insert([], a) then 1 else 0) + Times(Under(a, below), e) + Times(more, e) {
      TimesAppend([Insert([], a)] + Under(a, below), more, e);
      TimesAppend([Insert([], a)], Under(a, below), e);
      TimesOne(Insert([], a), e);
    }
    TimesUnder(a, below, Insert(path, k));
    TimesUnder(a, below, Remove(path, k));
    if path != [] { NothingUnderNothing(path[1..], k); }
  }

  lemma NothingUnderNothing(path: seq<int>, k: int)
    ensures !Has([], path, k)
  {
  }

  lemma RemoveIsMinimal(was: seq<TreeRow>, now: seq<TreeRow>, more: seq<Edit>, path: seq<int>, k: int)
    requires StrictlyAscending(was) && StrictlyAscending(now) && Removes(was, now)
    requires MinimalAt(more, was[1..], now, path, k)
    ensures MinimalAt([Remove([], was[0].key)] + more, was, now, path, k)
  {
    hide Times;
    var a := was[0].key;
    LookupCons(was, path, k);
    BelowFirst(now, a);
    forall e: Edit ensures Times([Remove([], a)] + more, e) == (if e == Remove([], a) then 1 else 0) + Times(more, e) {
      TimesAppend([Remove([], a)], more, e);
      TimesOne(Remove([], a), e);
    }
  }

  lemma MatchIsMinimal(was: seq<TreeRow>, now: seq<TreeRow>, below: seq<Edit>, more: seq<Edit>, path: seq<int>, k: int)
    requires StrictlyAscending(was) && StrictlyAscending(now)
    requires was != [] && now != [] && was[0].key == now[0].key
    requires path != [] ==> MinimalAt(below, was[0].children, now[0].children, path[1..], k)
    requires MinimalAt(more, was[1..], now[1..], path, k)
    ensures MinimalAt(Under(now[0].key, below) + more, was, now, path, k)
  {
    hide Times;
    LookupCons(was, path, k);
    LookupCons(now, path, k);
    forall e: Edit ensures Times(Under(now[0].key, below) + more, e) == Times(Under(now[0].key, below), e) + Times(more, e) {
      TimesAppend(Under(now[0].key, below), more, e);
    }
    TimesUnder(now[0].key, below, Insert(path, k));
    TimesUnder(now[0].key, below, Remove(path, k));
  }

  lemma StrictTail(rows: seq<TreeRow>)
    requires StrictTree(rows) && rows != []
    ensures StrictTree(rows[1..]) && StrictTree(rows[0].children)
  {
  }

  lemma DistinctTail(rows: seq<TreeRow>)
    requires DistinctTree(rows) && rows != []
    ensures DistinctTree(rows[1..]) && DistinctTree(rows[0].children)
  {
  }

  lemma {:induction false} SortedEditsAreMinimal(was: seq<TreeRow>, now: seq<TreeRow>, path: seq<int>, k: int)
    requires StrictTree(was) && DistinctTree(now) && StrictlyAscending(now)
    ensures MinimalAt(EditsSorted(was, now), was, now, path, k)
    decreases Size(now), 0, |was|
  {
    hide MinimalAt, StrictTree, DistinctTree;
    if was != [] { StrictTail(was); StrictIsAscending(was); }
    if now != [] { DistinctTail(now); }
    if Inserts(was, now) {
      StrictIsAscending(was);
      StrictNothing();
      if path != [] { EditsAreMinimal([], now[0].children, path[1..], k); }
      SortedEditsAreMinimal(was, now[1..], path, k);
      InsertIsMinimal(was, now, EditsRows([], now[0].children), EditsSorted(was, now[1..]), path, k);
    } else if Removes(was, now) {
      SortedEditsAreMinimal(was[1..], now, path, k);
      RemoveIsMinimal(was, now, EditsSorted(was[1..], now), path, k);
    } else if was == [] {
      NoEditsAreMinimal(path, k);
    } else {
      if path != [] { EditsAreMinimal(was[0].children, now[0].children, path[1..], k); }
      SortedEditsAreMinimal(was[1..], now[1..], path, k);
      MatchIsMinimal(was, now, EditsRows(was[0].children, now[0].children), EditsSorted(was[1..], now[1..]), path, k);
    }
  }

  lemma StrictIsAscending(rows: seq<TreeRow>)
    requires StrictTree(rows)
    ensures StrictlyAscending(rows)
  {
  }

  lemma StrictNothing()
    ensures StrictTree([])
  {
  }

  lemma NoEditsAreMinimal(path: seq<int>, k: int)
    ensures MinimalAt([], [], [], path, k)
  {
    NothingUnderNothing(path, k);
  }

  // ----- sorting distinct keys

  lemma {:induction false} InsertFinds(r: TreeRow, rows: seq<TreeRow>, k: int)
    ensures Child(InsertSorted(r, rows), k) == if r.key == k then Some(r) else Child(rows, k)
    ensures Keys(InsertSorted(r, rows)) == {r.key} + Keys(rows)
  {
    KeysCons(r, rows);
    if rows != [] && r.key > rows[0].key {
      InsertFinds(r, rows[1..], k);
      assert rows == [rows[0]] + rows[1..];
      KeysCons(rows[0], rows[1..]);
      KeysCons(rows[0], InsertSorted(r, rows[1..]));
    }
  }

  /** Sorting changes no lookup. */
  lemma {:induction false} SortFinds(rows: seq<TreeRow>, k: int)
    ensures Child(SortRows(rows), k) == Child(rows, k) && Keys(SortRows(rows)) == Keys(rows)
  {
    if rows != [] {
      SortFinds(rows[1..], k);
      InsertFinds(rows[0], SortRows(rows[1..]), k);
      assert rows == [rows[0]] + rows[1..];
      KeysCons(rows[0], rows[1..]);
    }
  }

  lemma SortKeepsLevels(rows: seq<TreeRow>, path: seq<int>, k: int)
    ensures Level(SortRows(rows), path).Some? <==> Level(rows, path).Some?
    ensures Has(SortRows(rows), path, k) <==> Has(rows, path, k)
  {
    SortFinds(rows, if path == [] then 0 else path[0]);
  }

  lemma {:induction false} InsertDistinct(r: TreeRow, rows: seq<TreeRow>)
    requires StrictlyAscending(rows) && DistinctTree(rows) && DistinctTree(r.children) && r.key !in Keys(rows)
    ensures StrictlyAscending(InsertSorted(r, rows)) && DistinctTree(InsertSorted(r, rows))
  {
    if rows == [] {
    } else if r.key <= rows[0].key {
      assert rows[0] in rows;
      DistinctCons(r, rows);
    } else {
      assert rows == [rows[0]] + rows[1..];
      KeysCons(rows[0], rows[1..]);
      DistinctTail(rows);
      InsertDistinct(r, rows[1..]);
      InsertFinds(r, rows[1..], 0);
      BelowFirst(rows[1..], rows[0].key);
      var more := InsertSorted(r, rows[1..]);
      assert more[0] == r || more[0] == rows[1..][0];
      DistinctCons(rows[0], more);
    }
  }

  lemma DistinctCons(r: TreeRow, rows: seq<TreeRow>)
    requires StrictlyAscending(rows) && DistinctTree(rows) && DistinctTree(r.children)
    requires rows != [] ==> r.key < rows[0].key
    ensures StrictlyAscending([r] + rows) && DistinctTree([r] + rows)
  {
  }

  lemma ConsDistinct(rows: seq<TreeRow>)
    requires DistinctTree(rows) && rows != []
    ensures rows[0].key !in Keys(rows[1..])
  {
    forall r | r in rows[1..] ensures r.key != rows[0].key {
      var i :| 0 <= i < |rows[1..]| && rows[1..][i] == r;
      assert rows[i + 1] == r;
    }
  }

  /** Distinct keys, sorted, strictly ascend. */
  lemma {:induction false} SortDistinct(rows: seq<TreeRow>)
    requires DistinctTree(rows)
    ensures StrictlyAscending(SortRows(rows)) && DistinctTree(SortRows(rows))
  {
    if rows != [] {
      DistinctTail(rows);
      ConsDistinct(rows);
      SortDistinct(rows[1..]);
      SortFinds(rows[1..], 0);
      InsertDistinct(rows[0], SortRows(rows[1..]));
    }
  }

  /** For new rows with distinct keys on every level, in any order, merged into rows sorted by distinct
      keys: on every level the rows inserted are exactly those of a new key, and the rows removed exactly
      those whose key is gone from a level that stays, each once. A row whose keys are in both trees is
      neither inserted nor removed. */
  lemma {:induction false} EditsAreMinimal(was: seq<TreeRow>, now: seq<TreeRow>, path: seq<int>, k: int)
    requires StrictTree(was) && DistinctTree(now)
    ensures MinimalAt(EditsRows(was, now), was, now, path, k)
    decreases Size(now), 1, |was|
  {
    SortSize(now);
    SortDistinct(now);
    SortedEditsAreMinimal(was, SortRows(now), path, k);
    SortKeepsLevels(now, path, k);
  }

  // ----- the merged rows are sorted by distinct keys again

  lemma {:induction false} SortTreeIsStrict(rows: seq<TreeRow>)
    requires DistinctTree(rows)
    ensures StrictTree(SortTree(rows))
    decreases Size(rows), 1
  {
    SortSize(rows);
    SortDistinct(rows);
    SortChildrenAreStrict(SortRows(rows));
  }

  lemma {:induction false} SortChildrenAreStrict(rows: seq<TreeRow>)
    requires StrictlyAscending(rows) && DistinctTree(rows)
    ensures StrictTree(SortChildren(rows)) && |SortChildren(rows)| == |rows|
    ensures rows != [] ==> SortChildren(rows)[0].key == rows[0].key
    decreases Size(rows), 0
  {
    if rows != [] {
      DistinctTail(rows);
      SortTreeIsStrict(rows[0].children);
      SortChildrenAreStrict(rows[1..]);
      StrictCons(SortChildren(rows)[0], SortChildren(rows[1..]));
    }
  }

  lemma StrictCons(r: TreeRow, rows: seq<TreeRow>)
    requires StrictTree(rows) && StrictTree(r.children) && (rows != [] ==> r.key < rows[0].key)
    ensures StrictTree([r] + rows)
  {
  }

  lemma SameIsStrict(a: seq<TreeRow>, b: seq<TreeRow>)
    requires SameRows(a, b) && StrictTree(b)
    ensures StrictTree(a)
  {
    forall i | 0 <= i < |a| ensures StrictTree(a[i].children) { SameIsStrict(a[i].children, b[i].children); }
  }

  /** So the next merge finds what it needs. */
  lemma MergedIsStrict(was: seq<TreeRow>, now: seq<TreeRow>)
    requires DistinctTree(now)
    ensures StrictTree(MergeRows(was, now))
  {
    MergeReachesNew(was, now);
    SortTreeIsStrict(now);
    SameIsStrict(MergeRows(was, now), SortTree(now));
  }

  // ----- the items

  function NewCells(columns: seq<Column>, flags: int): seq<Cell> {
    seq(|columns|, i requires 0 <= i < |columns| => Cell(columns[i], flags))
  }

  /** The items hold the data and the flags of the rows, all the way down. */
  predicate Mirrors(items: seq<ItemRow>, rows: seq<TreeRow>) {
    |items| == |rows| &&
    forall i :: 0 <= i < |items| ==>
      items[i].cells == NewCells(rows[i].columns, rows[i].flags) && Mirrors(items[i].children, rows[i].children)
  }

  /** Setting the data of an item: roles without a value are cleared, roles not given are kept. */
  function SetItemData(data: Column, roles: map<Role, Option<Value>>): Column {
    (map r | r in data && r !in roles :: data[r]) + (map r | r in roles && roles[r].Some? :: roles[r].value)
  }

  /** What is set when a column's data change: roles that are gone are cleared. */
  function RolesToSet(was: Column, now: Column): map<Role, Option<Value>> {
    (map k | k in now :: Some(now[k])) + (map k | k in was && k !in now :: None)
  }

  function UpdatedCell(cell: Cell, was: Column, now: Column): Cell {
    if was == now then cell else cell.(data := SetItemData(cell.data, RolesToSet(was, now)))
  }

  /** The items of the columns that both lists have. */
  function UpdatedCells(cells: seq<Cell>, was: seq<Column>, now: seq<Column>): seq<Cell> {
    seq(|cells|, j requires 0 <= j < |cells| =>
      if j < |was| && j < |now| then UpdatedCell(cells[j], was[j], now[j]) else cells[j])
  }

  /** A column changes for which the row has no item: `child` finds none, and there is no item to set. */
  predicate RowBreaks(cells: seq<Cell>, was: seq<Column>, now: seq<Column>) {
    exists j :: |cells| <= j < |was| && j < |now| && was[j] != now[j]
  }

  method UpdateRow(cells: seq<Cell>, was: seq<Column>, now: seq<Column>) returns (r: seq<Cell>, raised: bool)
    ensures raised <==> RowBreaks(cells, was, now)
    ensures r == UpdatedCells(cells, was, now)
    ensures forall flags :: cells == NewCells(was, flags) ==>
              !raised && forall j :: 0 <= j < |r| ==> r[j] == if j < |now| then Cell(now[j], flags) else cells[j]
  {
    r := cells;
    var n := if |was| < |now| then |was| else |now|;
    for j := 0 to n
      invariant |r| == |cells|
      invariant forall k :: |cells| <= k < j ==> was[k] == now[k]
      invariant forall k :: 0 <= k < |r| ==> r[k] == if k < j then UpdatedCell(cells[k], was[k], now[k]) else cells[k]
    {
      if now[j] != was[j] {
        if j >= |r| {
          return r, true;
        }
        r := r[j := r[j].(data := SetItemData(r[j].data, RolesToSet(was[j], now[j])))];
      }
    }
    raised := false;
    forall c: Column, d: Column ensures SetItemData(c, RolesToSet(c, d)) == d { SetsAll(c, d); }
  }

  /** From the old data the roles set make the new ones. */
  lemma SetsAll(was: Column, now: Column)
    ensures SetItemData(was, RolesToSet(was, now)) == now
  {
  }

  lemma MirrorsTail(items: seq<ItemRow>, rows: seq<TreeRow>)
    requires Mirrors(items, rows) && rows != []
    ensures Mirrors(items[1..], rows[1..]) && Mirrors(items[0].children, rows[0].children)
    ensures items[0].cells == NewCells(rows[0].columns, rows[0].flags)
  {
  }

  /** As many items as rows, all the way down, whatever they hold. */
  predicate Aligned(items: seq<ItemRow>, rows: seq<TreeRow>) {
    |items| == |rows| && forall i :: 0 <= i < |items| ==> Aligned(items[i].children, rows[i].children)
  }

  lemma {:induction false} MirrorsAligned(items: seq<ItemRow>, rows: seq<TreeRow>)
    requires Mirrors(items, rows)
    ensures Aligned(items, rows)
  {
    forall i | 0 <= i < |items| ensures Aligned(items[i].children, rows[i].children) {
      MirrorsAligned(items[i].children, rows[i].children);
    }
  }

  lemma {:induction false} AlignedTail(items: seq<ItemRow>, rows: seq<TreeRow>)
    requires Aligned(items, rows) && rows != []
    ensures |items| == |rows| && Aligned(items[1..], rows[1..]) && Aligned(items[0].children, rows[0].children)
  {
  }

  function MergeItems(items: seq<ItemRow>, was: seq<TreeRow>, now: seq<TreeRow>): seq<ItemRow>
    requires Aligned(items, was)
    decreases Size(now), 1, |was|
  {
    SortSize(now);
    MergeItemsSorted(items, was, SortRows(now))
  }

  function MergeItemsSorted(items: seq<ItemRow>, was: seq<TreeRow>, now: seq<TreeRow>): seq<ItemRow>
    requires Aligned(items, was)
    decreases Size(now), 0, |was|
  {
    if Inserts(was, now) then
      [ItemRow(NewCells(now[0].columns, now[0].flags), MergeItems([], [], now[0].children))]
      + MergeItemsSorted(items, was, now[1..])
    else if was == [] then []
    else
      AlignedTail(items, was);
      if Removes(was, now) then MergeItemsSorted(items[1..], was[1..], now)
      else
        [ItemRow(UpdatedCells(items[0].cells, was[0].columns, now[0].columns),
                 MergeItems(items[0].children, was[0].children, now[0].children))]
        + MergeItemsSorted(items[1..], was[1..], now[1..])
  }

  /** A row that is kept breaks, on any level. */
  predicate Breaks(items: seq<ItemRow>, was: seq<TreeRow>, now: seq<TreeRow>)
    requires Aligned(items, was)
    decreases Size(now), 1, |was|
  {
    SortSize(now);
    BreaksSorted(items, was, SortRows(now))
  }

  predicate BreaksSorted(items: seq<ItemRow>, was: seq<TreeRow>, now: seq<TreeRow>)
    requires Aligned(items, was)
    decreases Size(now), 0, |was|
  {
    if Inserts(was, now) then BreaksSorted(items, was, now[1..])
    else if was == [] then false
    else
      AlignedTail(items, was);
      if Removes(was, now) then BreaksSorted(items[1..], was[1..], now)
      else
        || RowBreaks(items[0].cells, was[0].columns, now[0].columns)
        || Breaks(items[0].children, was[0].children, now[0].children)
        || BreaksSorted(items[1..], was[1..], now[1..])
  }

  /** The rows that are kept have as many columns as before, all the way down. */
  predicate Fits(was: seq<TreeRow>, now: seq<TreeRow>)
    decreases Size(now), 1, |was|
  {
    SortSize(now);
    FitsSorted(was, SortRows(now))
  }

  predicate FitsSorted(was: seq<TreeRow>, now: seq<TreeRow>)
    decreases Size(now), 0, |was|
  {
    if Inserts(was, now) then FitsSorted(was, now[1..])
    else if Removes(was, now) then FitsSorted(was[1..], now)
    else if was == [] then true
    else
      && |was[0].columns| == |now[0].columns|
      && Fits(was[0].children, now[0].children)
      && FitsSorted(was[1..], now[1..])
  }

  lemma MirrorsCons(x: ItemRow, y: TreeRow, items: seq<ItemRow>, rows: seq<TreeRow>)
    ensures Mirrors([x] + items, [y] + rows)
            <==> x.cells == NewCells(y.columns, y.flags) && Mirrors(x.children, y.children) && Mirrors(items, rows)
  {
    var a, b := [x] + items, [y] + rows;
    if Mirrors(a, b) { MirrorsTail(a, b); }
  }

  lemma UpdateMatches(was: seq<Column>, now: seq<Column>, flags: int)
    ensures UpdatedCells(NewCells(was, flags), was, now) == NewCells(now, flags) <==> |was| == |now|
    ensures !RowBreaks(NewCells(was, flags), was, now)
  {
    forall c: Column, d: Column ensures SetItemData(c, RolesToSet(c, d)) == d { SetsAll(c, d); }
    var cells := UpdatedCells(NewCells(was, flags), was, now);
    assert forall j :: 0 <= j < |was| && j < |now| ==> cells[j] == Cell(now[j], flags);
    if |was| == |now| { assert cells == NewCells(now, flags); }
  }

  /** From items that mirror the rows no row breaks, and the merge ends at items that mirror the merged
      rows exactly when the rows that are kept keep their number of columns. */
  lemma {:induction false} MirrorsExactlyWhenFits(items: seq<ItemRow>, was: seq<TreeRow>, now: seq<TreeRow>)
    requires Mirrors(items, was)
    ensures Aligned(items, was) && !Breaks(items, was, now)
    ensures Mirrors(MergeItems(items, was, now), MergeRows(was, now)) <==> Fits(was, now)
    decreases Size(now), 1, |was|
  {
    SortSize(now);
    MirrorsAligned(items, was);
    MirrorsSorted(items, was, SortRows(now));
  }

  lemma {:induction false} MirrorsSorted(items: seq<ItemRow>, was: seq<TreeRow>, now: seq<TreeRow>)
    requires Mirrors(items, was)
    ensures Aligned(items, was) && !BreaksSorted(items, was, now)
    ensures Mirrors(MergeItemsSorted(items, was, now), MergeSorted(was, now)) <==> FitsSorted(was, now)
    decreases Size(now), 0, |was|
  {
    MirrorsAligned(items, was);
    if Inserts(was, now) {
      var x, y := MergeItemsSorted(items, was, now)[0], MergeSorted(was, now)[0];
      MirrorsExactlyWhenFits([], [], now[0].children);
      FitsFromNothing(now[0].children);
      MirrorsSorted(items, was, now[1..]);
      MirrorsCons(x, y, MergeItemsSorted(items, was, now[1..]), MergeSorted(was, now[1..]));
    } else if was != [] {
      MirrorsTail(items, was);
      if Removes(was, now) {
        MirrorsSorted(items[1..], was[1..], now);
      } else {
        var x, y := MergeItemsSorted(items, was, now)[0], MergeSorted(was, now)[0];
        MirrorsExactlyWhenFits(items[0].children, was[0].children, now[0].children);
        MirrorsSorted(items[1..], was[1..], now[1..]);
        UpdateMatches(was[0].columns, now[0].columns, was[0].flags);
        MirrorsCons(x, y, MergeItemsSorted(items[1..], was[1..], now[1..]), MergeSorted(was[1..], now[1..]));
      }
    }
  }

  lemma {:induction false} FitsFromNothing(now: seq<TreeRow>)
    ensures Fits([], now)
  {
    FitsSortedFromNothing(SortRows(now));
  }

  lemma {:induction false} FitsSortedFromNothing(now: seq<TreeRow>)
    ensures FitsSorted([], now)
    decreases |now|
  {
    if now != [] { FitsSortedFromNothing(now[1..]); }
  }

  /** A row of one column that gets a second one: its items no longer mirror it. */
  lemma NewColumnIsLost()
    ensures var was, now := [TreeRow(1, [map[]], 0, [])], [TreeRow(1, [map[], map[]], 0, [])];
            var items := [ItemRow([Cell(map[], 0)], [])];
            && Mirrors(items, was) && Aligned(items, was)
            && !Mirrors(MergeItems(items, was, now), MergeRows(was, now))
  {
    var was, now := [TreeRow(1, [map[]], 0, [])], [TreeRow(1, [map[], map[]], 0, [])];
    var items := [ItemRow([Cell(map[], 0)], [])];
    assert NewCells(was[0].columns, 0) == items[0].cells;
    assert SortRows(now[1..]) == [] && SortRows(now) == now;
    assert !FitsSorted(was, now);
    MirrorsExactlyWhenFits(items, was, now);
  }

  /** A later update that changes the second column of that row raises: the row has no item there. */
  lemma NewColumnRaises()
    ensures var first, second := [TreeRow(1, [map[]], 0, [])], [TreeRow(1, [map[], map[]], 0, [])];
            var third := [TreeRow(1, [map[], map[0 := 1]], 0, [])];
            var items := [ItemRow([Cell(map[], 0)], [])];
            && Aligned(items, first) && !Breaks(items, first, second)
            && Aligned(MergeItems(items, first, second), MergeRows(first, second))
            && Breaks(MergeItems(items, first, second), MergeRows(first, second), third)
  {
    var first, second := [TreeRow(1, [map[]], 0, [])], [TreeRow(1, [map[], map[]], 0, [])];
    var third := [TreeRow(1, [map[], map[0 := 1]], 0, [])];
    var items := [ItemRow([Cell(map[], 0)], [])];
    assert SortRows(second[1..]) == [] && SortRows(second) == second;
    assert SortRows(third[1..]) == [] && SortRows(third) == third;
    assert MergeSorted(first[1..], second[1..]) == [] && MergeRows([], []) == [];
    assert MergeItemsSorted(items[1..], first[1..], second[1..]) == [] && MergeItems([], [], []) == [];
    assert UpdatedCells(items[0].cells, first[0].columns, second[0].columns) == items[0].cells;
    assert MergeRows(first, second) == second && MergeItems(items, first, second) == items;
    assert 0 in third[0].columns[1] && 0 !in second[0].columns[1];
    assert RowBreaks(items[0].cells, second[0].columns, third[0].columns);
  }

  // ----- when a merge raises

  /** The row under a path of keys. */
  function RowAt(rows: seq<TreeRow>, path: seq<int>): Option<TreeRow>
    decreases |path|
  {
    if path == [] then None
    else
      var r := Child(rows, path[0]);
      if r.None? || |path| == 1 then r else RowAt(r.value.children, path[1..])
  }

  /** What is shown of a row: its columns and its flags, and the cells of its items. */
  datatype Face = Face(columns: seq<Column>, flags: int, cells: seq<Cell>)

  /** What is shown of the row under a path. */
  function Shown(items: seq<ItemRow>, rows: seq<TreeRow>, path: seq<int>): Option<Face>
    requires Aligned(items, rows)
    decreases |path|, |rows|
  {
    if path == [] || rows == [] then None
    else
      AlignedTail(items, rows);
      if rows[0].key != path[0] then Shown(items[1..], rows[1..], path)
      else if |path| == 1 then Some(Face(rows[0].columns, rows[0].flags, items[0].cells))
      else Shown(items[0].children, rows[0].children, path[1..])
  }

  /** The row under the path is in both trees, and a column of it changes for which it has no item. */
  predicate BreaksAt(items: seq<ItemRow>, was: seq<TreeRow>, now: seq<TreeRow>, path: seq<int>)
    requires Aligned(items, was)
  {
    var shown := Shown(items, was, path);
    && shown.Some? && RowAt(now, path).Some?
    && RowBreaks(shown.value.cells, shown.value.columns, RowAt(now, path).value.columns)
  }

  lemma {:induction false} SortKeepsRows(rows: seq<TreeRow>, path: seq<int>)
    ensures RowAt(SortRows(rows), path) == RowAt(rows, path)
  {
    if path != [] { SortFinds(rows, path[0]); }
  }

  lemma {:induction false} NoRowAt(rows: seq<TreeRow>, path: seq<int>)
    requires StrictlyAscending(rows) && path != [] && (rows != [] ==> path[0] < rows[0].key)
    ensures RowAt(rows, path).None?
  {
    BelowFirst(rows, path[0]);
  }

  lemma {:induction false} NothingShown(items: seq<ItemRow>, rows: seq<TreeRow>, path: seq<int>)
    requires Aligned(items, rows) && StrictlyAscending(rows) && path != [] && (rows != [] ==> path[0] < rows[0].key)
    ensures Shown(items, rows, path).None?
    decreases |rows|
  {
    if rows != [] {
      AlignedTail(items, rows);
      NothingShown(items[1..], rows[1..], path);
    }
  }

  /** Looking a path up in the first row, or in the others. */
  lemma {:induction false} BreaksAtInserted(items: seq<ItemRow>, was: seq<TreeRow>, now: seq<TreeRow>, path: seq<int>)
    requires Aligned(items, was) && StrictlyAscending(was) && StrictlyAscending(now) && path != [] && Inserts(was, now)
    ensures BreaksAt(items, was, now, path) <==> BreaksAt(items, was, now[1..], path)
  {
    hide RowBreaks, Aligned;
    if path[0] == now[0].key { NothingShown(items, was, path); }
  }

  lemma {:induction false} BreaksAtRemoved(items: seq<ItemRow>, was: seq<TreeRow>, now: seq<TreeRow>, path: seq<int>)
    requires Aligned(items, was) && StrictlyAscending(was) && StrictlyAscending(now) && path != [] && Removes(was, now)
    ensures Aligned(items[1..], was[1..]) && (BreaksAt(items, was, now, path) <==> BreaksAt(items[1..], was[1..], now, path))
  {
    hide RowBreaks, Aligned;
    AlignedTail(items, was);
    if path[0] == was[0].key { NoRowAt(now, path); }
  }

  lemma {:induction false} BreaksAtMatch(items: seq<ItemRow>, was: seq<TreeRow>, now: seq<TreeRow>, path: seq<int>)
    requires Aligned(items, was) && StrictlyAscending(was) && StrictlyAscending(now) && path != []
    requires was != [] && now != [] && was[0].key == now[0].key
    ensures Aligned(items[1..], was[1..]) && Aligned(items[0].children, was[0].children)
    ensures BreaksAt(items, was, now, path) <==>
              if path[0] != was[0].key then BreaksAt(items[1..], was[1..], now[1..], path)
              else if |path| == 1 then RowBreaks(items[0].cells, was[0].columns, now[0].columns)
              else BreaksAt(items[0].children, was[0].children, now[0].children, path[1..])
  {
    AlignedTail(items, was);
  }

  /** If a row breaks the merge does. */
  lemma {:induction false} RowBreaksMerge(items: seq<ItemRow>, was: seq<TreeRow>, now: seq<TreeRow>, path: seq<int>)
    requires Aligned(items, was) && StrictTree(was) && DistinctTree(now) && path != []
    requires BreaksAt(items, was, now, path)
    ensures Breaks(items, was, now)
    decreases Size(now), 1, |was|
  {
    hide BreaksAt, DistinctTree, StrictTree;
    SortSize(now);
    SortDistinct(now);
    BreaksAtSorted(items, was, now, path);
    RowBreaksSorted(items, was, SortRows(now), path);
  }

  lemma {:induction false} BreaksAtSorted(items: seq<ItemRow>, was: seq<TreeRow>, now: seq<TreeRow>, path: seq<int>)
    requires Aligned(items, was)
    ensures BreaksAt(items, was, now, path) <==> BreaksAt(items, was, SortRows(now), path)
  {
    SortKeepsRows(now, path);
  }

  lemma {:induction false} RowBreaksSorted(items: seq<ItemRow>, was: seq<TreeRow>, now: seq<TreeRow>, path: seq<int>)
    requires Aligned(items, was) && StrictTree(was) && DistinctTree(now) && StrictlyAscending(now) && path != []
    requires BreaksAt(items, was, now, path)
    ensures BreaksSorted(items, was, now)
    decreases Size(now), 0, |was|
  {
    hide BreaksAt, DistinctTree, StrictTree, RowBreaks, Aligned;
    StrictIsAscending(was);
    if was != [] { StrictTail(was); AlignedTail(items, was); }
    if now != [] { DistinctTail(now); }
    if Inserts(was, now) {
      BreaksAtInserted(items, was, now, path);
      RowBreaksSorted(items, was, now[1..], path);
    } else if Removes(was, now) {
      BreaksAtRemoved(items, was, now, path);
      RowBreaksSorted(items[1..], was[1..], now, path);
    } else if was == [] {
      NothingAt(items, now, path);
    } else {
      BreaksAtMatch(items, was, now, path);
      if path[0] != was[0].key {
        RowBreaksSorted(items[1..], was[1..], now[1..], path);
      } else if |path| > 1 {
        RowBreaksMerge(items[0].children, was[0].children, now[0].children, path[1..]);
      }
    }
  }

  lemma {:induction false} NothingAt(items: seq<ItemRow>, now: seq<TreeRow>, path: seq<int>)
    requires Aligned(items, [])
    ensures !BreaksAt(items, [], now, path)
  {
  }

  /** And the merge breaks only if a row does. */
  lemma {:induction false} BreakingRow(items: seq<ItemRow>, was: seq<TreeRow>, now: seq<TreeRow>) returns (path: seq<int>)
    requires Aligned(items, was) && StrictTree(was) && DistinctTree(now) && Breaks(items, was, now)
    ensures path != [] && BreaksAt(items, was, now, path)
    decreases Size(now), 1, |was|
  {
    hide BreaksAt, DistinctTree, StrictTree;
    SortSize(now);
    SortDistinct(now);
    path := BreakingRowSorted(items, was, SortRows(now));
    BreaksAtSorted(items, was, now, path);
  }

  lemma {:induction false} BreakingRowSorted(items: seq<ItemRow>, was: seq<TreeRow>, now: seq<TreeRow>)
    returns (path: seq<int>)
    requires Aligned(items, was) && StrictTree(was) && DistinctTree(now) && StrictlyAscending(now)
    requires BreaksSorted(items, was, now)
    ensures path != [] && BreaksAt(items, was, now, path)
    decreases Size(now), 0, |was|
  {
    hide BreaksAt, DistinctTree, StrictTree, RowBreaks, Aligned;
    StrictIsAscending(was);
    if was != [] { StrictTail(was); AlignedTail(items, was); }
    if now != [] { DistinctTail(now); }
    if Inserts(was, now) {
      path := BreakingRowSorted(items, was, now[1..]);
      BreaksAtInserted(items, was, now, path);
    } else if Removes(was, now) {
      path := BreakingRowSorted(items[1..], was[1..], now);
      BreaksAtRemoved(items, was, now, path);
    } else if RowBreaks(items[0].cells, was[0].columns, now[0].columns) {
      path := [was[0].key];
      BreaksAtMatch(items, was, now, path);
    } else if Breaks(items[0].children, was[0].children, now[0].children) {
      var below := BreakingRow(items[0].children, was[0].children, now[0].children);
      path := [was[0].key] + below;
      assert path[1..] == below;
      BreaksAtMatch(items, was, now, path);
    } else {
      path := BreakingRowSorted(items[1..], was[1..], now[1..]);
      BreaksAtTail(items, was, now, path);
      BreaksAtMatch(items, was, now, path);
    }
  }

  /** What breaks behind the first row has another key. */
  lemma {:induction false} BreaksAtTail(items: seq<ItemRow>, was: seq<TreeRow>, now: seq<TreeRow>, path: seq<int>)
    requires Aligned(items, was) && StrictlyAscending(was) && was != [] && now != [] && path != []
    requires Aligned(items[1..], was[1..]) && BreaksAt(items[1..], was[1..], now[1..], path)
    ensures path[0] != was[0].key
  {
    if path[0] == was[0].key { NothingShown(items[1..], was[1..], path); }
  }

  /** With distinct keys, a merge raises if and only if somewhere in the trees a row that is in both changes
      in a column for which it has no item. */
  lemma {:induction false} RaisesExactlyWhen(items: seq<ItemRow>, was: seq<TreeRow>, now: seq<TreeRow>)
    requires Aligned(items, was) && StrictTree(was) && DistinctTree(now)
    ensures Breaks(items, was, now) <==> exists path :: path != [] && BreaksAt(items, was, now, path)
  {
    hide BreaksAt, Breaks, StrictTree, DistinctTree;
    if Breaks(items, was, now) {
      var path := BreakingRow(items, was, now);
    }
    if exists path :: path != [] && BreaksAt(items, was, now, path) {
      var path :| path != [] && BreaksAt(items, was, now, path);
      RowBreaksMerge(items, was, now, path);
    }
  }

  // ----- where a merge stops that raises

  /** Rows, items and edits of a merge that raised. */
  datatype Stopped = Stopped(items: seq<ItemRow>, rows: seq<TreeRow>, edits: seq<Edit>)

  function Prefixed(items: seq<ItemRow>, rows: seq<TreeRow>, edits: seq<Edit>, s: Stopped): Stopped {
    Stopped(items + s.items, rows + s.rows, edits + s.edits)
  }

  /** What a merge that raises leaves behind: the rows before the one that breaks are merged, that row has
      got the data of the columns before the one without an item, and nothing after it is touched. */
  function Stop(items: seq<ItemRow>, was: seq<TreeRow>, now: seq<TreeRow>): Stopped
    requires Aligned(items, was) && Breaks(items, was, now)
    decreases Size(now), 1, |was|
  {
    SortSize(now);
    StopSorted(items, was, SortRows(now))
  }

  function StopSorted(items: seq<ItemRow>, was: seq<TreeRow>, now: seq<TreeRow>): Stopped
    requires Aligned(items, was) && BreaksSorted(items, was, now)
    decreases Size(now), 0, |was|
  {
    if Inserts(was, now) then
      Prefixed([ItemRow(NewCells(now[0].columns, now[0].flags), MergeItems([], [], now[0].children))],
               [now[0].(children := MergeRows([], now[0].children))],
               [Insert([], now[0].key)] + Under(now[0].key, EditsRows([], now[0].children)),
               StopSorted(items, was, now[1..]))
    else
      AlignedTail(items, was);
      if Removes(was, now) then Prefixed([], [], [Remove([], was[0].key)], StopSorted(items[1..], was[1..], now))
      else
        var cells := UpdatedCells(items[0].cells, was[0].columns, now[0].columns);
        if RowBreaks(items[0].cells, was[0].columns, now[0].columns) then
          Stopped([items[0].(cells := cells)] + items[1..], was, [])
        else if Breaks(items[0].children, was[0].children, now[0].children) then
          var below := Stop(items[0].children, was[0].children, now[0].children);
          Stopped([ItemRow(cells, below.items)] + items[1..],
                  [was[0].(columns := now[0].columns, children := below.rows)] + was[1..],
                  Under(now[0].key, below.edits))
        else
          Prefixed([ItemRow(cells, MergeItems(items[0].children, was[0].children, now[0].children))],
                   [was[0].(columns := now[0].columns, children := MergeRows(was[0].children, now[0].children))],
                   Under(now[0].key, EditsRows(was[0].children, now[0].children)),
                   StopSorted(items[1..], was[1..], now[1..]))
  }

  lemma PrefixedTwice(
    items: seq<ItemRow>, rows: seq<TreeRow>, edits: seq<Edit>,
    items': seq<ItemRow>, rows': seq<TreeRow>, edits': seq<Edit>, s: Stopped)
    ensures Prefixed(items, rows, edits, Prefixed(items', rows', edits', s))
            == Prefixed(items + items', rows + rows', edits + edits', s)
  {
    assert items + (items' + s.items) == items + items' + s.items;
    assert rows + (rows' + s.rows) == rows + rows' + s.rows;
    assert edits + (edits' + s.edits) == edits + edits' + s.edits;
  }

  /** The edits up to an exception are the first of those of a whole merge. */
  lemma {:induction false} StopEdits(items: seq<ItemRow>, was: seq<TreeRow>, now: seq<TreeRow>)
    requires Aligned(items, was) && Breaks(items, was, now)
    ensures Stop(items, was, now).edits <= EditsRows(was, now)
    decreases Size(now), 1, |was|
  {
    SortSize(now);
    StopSortedEdits(items, was, SortRows(now));
  }

  lemma {:induction false} StopSortedEdits(items: seq<ItemRow>, was: seq<TreeRow>, now: seq<TreeRow>)
    requires Aligned(items, was) && BreaksSorted(items, was, now)
    ensures StopSorted(items, was, now).edits <= EditsSorted(was, now)
    decreases Size(now), 0, |was|
  {
    hide Under, MergeItems, MergeRows, UpdatedCells, NewCells, RowBreaks, Aligned;
    if Inserts(was, now) {
      StopSortedEdits(items, was, now[1..]);
    } else {
      AlignedTail(items, was);
      if Removes(was, now) {
        StopSortedEdits(items[1..], was[1..], now);
      } else if RowBreaks(items[0].cells, was[0].columns, now[0].columns) {
      } else if Breaks(items[0].children, was[0].children, now[0].children) {
        StopEdits(items[0].children, was[0].children, now[0].children);
        var some, all := Stop(items[0].children, was[0].children, now[0].children).edits,
                         EditsRows(was[0].children, now[0].children);
        assert all == some + all[|some|..];
        UnderAppend(now[0].key, some, all[|some|..]);
        EditsMatched(was, now);
      } else {
        StopSortedEdits(items[1..], was[1..], now[1..]);
        EditsMatched(was, now);
      }
    }
  }

  lemma EditsMatched(was: seq<TreeRow>, now: seq<TreeRow>)
    requires was != [] && now != [] && was[0].key == now[0].key
    ensures EditsSorted(was, now)
            == Under(now[0].key, EditsRows(was[0].children, now[0].children)) + EditsSorted(was[1..], now[1..])
  {
  }

  lemma {:induction false} UnderAppend(k: int, a: seq<Edit>, b: seq<Edit>)
    ensures Under(k, a + b) == Under(k, a) + Under(k, b)
  {
    if a == [] {
      assert a + b == b;
    } else {
      assert (a + b)[1..] == a[1..] + b;
      UnderAppend(k, a[1..], b);
    }
  }

  // ----- the loop

  lemma {:induction false} ElementSize(rows: seq<TreeRow>, i: nat)
    requires i < |rows|
    ensures Size(rows[i].children) < Size(rows)
  {
    if i > 0 { ElementSize(rows[1..], i - 1); }
  }

  lemma AlignedSlice(items: seq<ItemRow>, rows: seq<TreeRow>, i: nat)
    requires |items| == |rows| && i < |rows| && Aligned(items[i..], rows[i..])
    ensures Aligned(items[i + 1..], rows[i + 1..]) && Aligned(items[i].children, rows[i].children)
  {
    AlignedTail(items[i..], rows[i..]);
    assert items[i..][1..] == items[i + 1..] && rows[i..][1..] == rows[i + 1..];
  }

  /** The loop is done with the rows up to index; merging what remains gives the merge of the whole. */
  ghost predicate MergedSoFar(
    items0: seq<ItemRow>, rows0: seq<TreeRow>, newRows: seq<TreeRow>,
    items: seq<ItemRow>, rows: seq<TreeRow>, index: nat, newIndex: nat)
    requires Aligned(items0, rows0)
  {
    && index <= |rows| == |items| && newIndex <= |newRows|
    && var its, was, now := items[index..], rows[index..], newRows[newIndex..];
    && Aligned(its, was)
    && BreaksSorted(items0, rows0, newRows) == BreaksSorted(its, was, now)
    && MergeSorted(rows0, newRows) == rows[..index] + MergeSorted(was, now)
    && MergeItemsSorted(items0, rows0, newRows) == items[..index] + MergeItemsSorted(its, was, now)
  }

  lemma InsertedNext(
    items0: seq<ItemRow>, rows0: seq<TreeRow>, newRows: seq<TreeRow>,
    items: seq<ItemRow>, rows: seq<TreeRow>, index: nat, newIndex: nat, childItems: seq<ItemRow>, children: seq<TreeRow>)
    requires Aligned(items0, rows0) && MergedSoFar(items0, rows0, newRows, items, rows, index, newIndex)
    requires newIndex < |newRows| && (index == |rows| || rows[index].key > newRows[newIndex].key)
    requires children == MergeRows([], newRows[newIndex].children)
    requires childItems == MergeItems([], [], newRows[newIndex].children)
    ensures var r := newRows[newIndex];
            var item, row := ItemRow(NewCells(r.columns, r.flags), childItems), r.(children := children);
            MergedSoFar(items0, rows0, newRows, items[..index] + [item] + items[index..],
                        rows[..index] + [row] + rows[index..], index + 1, newIndex + 1)
  {
    var its, was, now, r := items[index..], rows[index..], newRows[newIndex..], newRows[newIndex];
    assert now[1..] == newRows[newIndex + 1..];
    InsertStep(rows[..index], was, now, children);
    InsertItemStep(items[..index], its, was, now, childItems);
    Spliced(rows[..index], r.(children := children), was);
    Spliced(items[..index], ItemRow(NewCells(r.columns, r.flags), childItems), its);
  }

  lemma RemovedNext(
    items0: seq<ItemRow>, rows0: seq<TreeRow>, newRows: seq<TreeRow>,
    items: seq<ItemRow>, rows: seq<TreeRow>, index: nat, newIndex: nat)
    requires Aligned(items0, rows0) && MergedSoFar(items0, rows0, newRows, items, rows, index, newIndex)
    requires index < |rows| && (newIndex == |newRows| || rows[index].key < newRows[newIndex].key)
    ensures MergedSoFar(items0, rows0, newRows, items[..index] + items[index + 1..],
                        rows[..index] + rows[index + 1..], index, newIndex)
  {
    AlignedSlice(items, rows, index);
    assert items[index..][1..] == items[index + 1..] && rows[index..][1..] == rows[index + 1..];
    Cut(rows[..index], rows[index + 1..]);
    Cut(items[..index], items[index + 1..]);
  }

  lemma MatchedNext(
    items0: seq<ItemRow>, rows0: seq<TreeRow>, newRows: seq<TreeRow>, items: seq<ItemRow>, rows: seq<TreeRow>,
    index: nat, newIndex: nat, cells: seq<Cell>, childItems: seq<ItemRow>, children: seq<TreeRow>)
    requires Aligned(items0, rows0) && MergedSoFar(items0, rows0, newRows, items, rows, index, newIndex)
    requires index < |rows| && newIndex < |newRows| && rows[index].key == newRows[newIndex].key
    requires cells == UpdatedCells(items[index].cells, rows[index].columns, newRows[newIndex].columns)
    requires !RowBreaks(items[index].cells, rows[index].columns, newRows[newIndex].columns)
    requires Aligned(items[index].children, rows[index].children)
    requires !Breaks(items[index].children, rows[index].children, newRows[newIndex].children)
    requires children == MergeRows(rows[index].children, newRows[newIndex].children)
    requires childItems == MergeItems(items[index].children, rows[index].children, newRows[newIndex].children)
    ensures var row := rows[index].(columns := newRows[newIndex].columns, children := children);
            MergedSoFar(items0, rows0, newRows, items[index := ItemRow(cells, childItems)],
                        rows[index := row], index + 1, newIndex + 1)
  {
    var its, was, now := items[index..], rows[index..], newRows[newIndex..];
    var row, item := rows[index].(columns := newRows[newIndex].columns, children := children), ItemRow(cells, childItems);
    assert now[1..] == newRows[newIndex + 1..] && was[1..] == rows[index + 1..] && its[1..] == items[index + 1..];
    MatchStep(rows[..index], was, now, children);
    MatchItemStep(items[..index], its, was, now, cells, childItems);
    Replaced(rows, index, row);
    Replaced(items, index, item);
  }

  lemma Cut<T>(done: seq<T>, rest: seq<T>)
    ensures (done + rest)[..|done|] == done && (done + rest)[|done|..] == rest
  {
  }

  lemma Spliced<T>(done: seq<T>, x: T, rest: seq<T>)
    ensures var s := done + [x] + rest;
            s[..|done| + 1] == done + [x] && s[|done| + 1..] == rest
  {
  }

  lemma Replaced<T>(s: seq<T>, i: nat, x: T)
    requires i < |s|
    ensures s[i := x][..i + 1] == s[..i] + [x] && s[i := x][i + 1..] == s[i + 1..]
  {
  }

  /** If the merge breaks, it stops where merging what remains stops, after what has been done. */
  ghost predicate StopsSoFar(
    items0: seq<ItemRow>, rows0: seq<TreeRow>, newRows: seq<TreeRow>, done: Stopped,
    items: seq<ItemRow>, was: seq<TreeRow>, now: seq<TreeRow>)
    requires Aligned(items0, rows0)
  {
    && Aligned(items, was)
    && (BreaksSorted(items0, rows0, newRows) ==>
          && BreaksSorted(items, was, now)
          && StopSorted(items0, rows0, newRows) == Prefixed(done.items, done.rows, done.edits, StopSorted(items, was, now)))
  }

  /** One more step is done. */
  lemma StopsStep(
    items0: seq<ItemRow>, rows0: seq<TreeRow>, newRows: seq<TreeRow>, done: Stopped, step: Stopped,
    items: seq<ItemRow>, was: seq<TreeRow>, now: seq<TreeRow>, items': seq<ItemRow>, was': seq<TreeRow>, now': seq<TreeRow>)
    requires Aligned(items0, rows0) && StopsSoFar(items0, rows0, newRows, done, items, was, now)
    requires Aligned(items', was')
    requires BreaksSorted(items, was, now) ==>
               && BreaksSorted(items', was', now')
               && StopSorted(items, was, now) == Prefixed(step.items, step.rows, step.edits, StopSorted(items', was', now'))
    ensures StopsSoFar(items0, rows0, newRows,
                       Stopped(done.items + step.items, done.rows + step.rows, done.edits + step.edits), items', was', now')
  {
    if BreaksSorted(items0, rows0, newRows) {
      PrefixedTwice(done.items, done.rows, done.edits, step.items, step.rows, step.edits, StopSorted(items', was', now'));
    }
  }

  lemma StopsInserted(
    items0: seq<ItemRow>, rows0: seq<TreeRow>, newRows: seq<TreeRow>, done: Stopped,
    items: seq<ItemRow>, was: seq<TreeRow>, now: seq<TreeRow>,
    childItems: seq<ItemRow>, children: seq<TreeRow>, below: seq<Edit>)
    requires Aligned(items0, rows0) && StopsSoFar(items0, rows0, newRows, done, items, was, now) && Inserts(was, now)
    requires childItems == MergeItems([], [], now[0].children) && children == MergeRows([], now[0].children)
    requires below == EditsRows([], now[0].children)
    ensures var r := now[0];
            StopsSoFar(items0, rows0, newRows,
                       Stopped(done.items + [ItemRow(NewCells(r.columns, r.flags), childItems)],
                               done.rows + [r.(children := children)],
                               done.edits + [Insert([], r.key)] + Under(r.key, below)),
                       items, was, now[1..])
  {
    hide Under, NewCells, EditsRows, MergeItems, MergeRows, Aligned;
    var r := now[0];
    var step := Stopped([ItemRow(NewCells(r.columns, r.flags), childItems)], [r.(children := children)],
                        [Insert([], r.key)] + Under(r.key, below));
    StopsStep(items0, rows0, newRows, done, step, items, was, now, items, was, now[1..]);
    assert done.edits + [Insert([], r.key)] + Under(r.key, below) == done.edits + step.edits;
  }

  lemma StopsRemoved(
    items0: seq<ItemRow>, rows0: seq<TreeRow>, newRows: seq<TreeRow>, done: Stopped,
    items: seq<ItemRow>, was: seq<TreeRow>, now: seq<TreeRow>)
    requires Aligned(items0, rows0) && StopsSoFar(items0, rows0, newRows, done, items, was, now) && Removes(was, now)
    ensures |items| == |was|
    ensures StopsSoFar(items0, rows0, newRows, done.(edits := done.edits + [Remove([], was[0].key)]),
                       items[1..], was[1..], now)
  {
    hide Aligned;
    AlignedTail(items, was);
    var step := Stopped([], [], [Remove([], was[0].key)]);
    StopsStep(items0, rows0, newRows, done, step, items, was, now, items[1..], was[1..], now);
    assert done.items + step.items == done.items && done.rows + step.rows == done.rows;
  }

  lemma StopsMatched(
    items0: seq<ItemRow>, rows0: seq<TreeRow>, newRows: seq<TreeRow>, done: Stopped,
    items: seq<ItemRow>, was: seq<TreeRow>, now: seq<TreeRow>,
    cells: seq<Cell>, childItems: seq<ItemRow>, children: seq<TreeRow>, below: seq<Edit>)
    requires Aligned(items0, rows0) && StopsSoFar(items0, rows0, newRows, done, items, was, now)
    requires was != [] && now != [] && was[0].key == now[0].key && |items| == |was|
    requires Aligned(items[0].children, was[0].children)
    requires !RowBreaks(items[0].cells, was[0].columns, now[0].columns)
    requires !Breaks(items[0].children, was[0].children, now[0].children)
    requires cells == UpdatedCells(items[0].cells, was[0].columns, now[0].columns)
    requires childItems == MergeItems(items[0].children, was[0].children, now[0].children)
    requires children == MergeRows(was[0].children, now[0].children)
    requires below == EditsRows(was[0].children, now[0].children)
    ensures StopsSoFar(items0, rows0, newRows,
                       Stopped(done.items + [ItemRow(cells, childItems)],
                               done.rows + [was[0].(columns := now[0].columns, children := children)],
                               done.edits + Under(now[0].key, below)),
                       items[1..], was[1..], now[1..])
  {
    hide Under, UpdatedCells, EditsRows, MergeItems, MergeRows, Aligned, Breaks, RowBreaks;
    AlignedTail(items, was);
    var step := Stopped([ItemRow(cells, childItems)], [was[0].(columns := now[0].columns, children := children)],
                        Under(now[0].key, below));
    StopsStep(items0, rows0, newRows, done, step, items, was, now, items[1..], was[1..], now[1..]);
  }

  /** The row at hand breaks. */
  lemma StopsHere(
    items0: seq<ItemRow>, rows0: seq<TreeRow>, newRows: seq<TreeRow>, done: Stopped,
    items: seq<ItemRow>, was: seq<TreeRow>, now: seq<TreeRow>, cells: seq<Cell>)
    requires Aligned(items0, rows0) && StopsSoFar(items0, rows0, newRows, done, items, was, now)
    requires BreaksSorted(items0, rows0, newRows)
    requires was != [] && now != [] && was[0].key == now[0].key && |items| == |was|
    requires RowBreaks(items[0].cells, was[0].columns, now[0].columns)
    requires cells == UpdatedCells(items[0].cells, was[0].columns, now[0].columns)
    ensures StopSorted(items0, rows0, newRows)
            == Stopped(done.items + ([items[0].(cells := cells)] + items[1..]), done.rows + was, done.edits)
  {
    hide UpdatedCells, Aligned, RowBreaks;
    assert done.edits + [] == done.edits;
  }

  /** The rows below the row at hand break. */
  lemma StopsBelow(
    items0: seq<ItemRow>, rows0: seq<TreeRow>, newRows: seq<TreeRow>, done: Stopped,
    items: seq<ItemRow>, was: seq<TreeRow>, now: seq<TreeRow>, cells: seq<Cell>, below: Stopped)
    requires Aligned(items0, rows0) && StopsSoFar(items0, rows0, newRows, done, items, was, now)
    requires BreaksSorted(items0, rows0, newRows)
    requires was != [] && now != [] && was[0].key == now[0].key && |items| == |was|
    requires !RowBreaks(items[0].cells, was[0].columns, now[0].columns)
    requires Aligned(items[0].children, was[0].children) && Breaks(items[0].children, was[0].children, now[0].children)
    requires cells == UpdatedCells(items[0].cells, was[0].columns, now[0].columns)
    requires below == Stop(items[0].children, was[0].children, now[0].children)
    ensures StopSorted(items0, rows0, newRows)
            == Stopped(done.items + ([ItemRow(cells, below.items)] + items[1..]),
                       done.rows + ([was[0].(columns := now[0].columns, children := below.rows)] + was[1..]),
                       done.edits + Under(now[0].key, below.edits))
  {
    hide UpdatedCells, Aligned, RowBreaks, Breaks, Stop, Under;
  }

  lemma Around<T>(s: seq<T>, i: nat, x: T)
    requires i < |s|
    ensures s[i := x] == s[..i] + ([x] + s[i..][1..])
  {
  }

  /** The merge returns where it stops: at the row at hand. */
  lemma ReturnsHere(
    items0: seq<ItemRow>, rows0: seq<TreeRow>, newRows0: seq<TreeRow>,
    items: seq<ItemRow>, rows: seq<TreeRow>, edits: seq<Edit>, index: nat, news: seq<TreeRow>, cells: seq<Cell>)
    requires Aligned(items0, rows0) && BreaksSorted(items0, rows0, SortRows(newRows0))
    requires index < |rows| == |items| && news != [] && rows[index].key == news[0].key
    requires StopsSoFar(items0, rows0, SortRows(newRows0), Stopped(items[..index], rows[..index], edits),
                        items[index..], rows[index..], news)
    requires RowBreaks(items[index].cells, rows[index].columns, news[0].columns)
    requires cells == UpdatedCells(items[index].cells, rows[index].columns, news[0].columns)
    ensures Breaks(items0, rows0, newRows0)
    ensures Stop(items0, rows0, newRows0) == Stopped(items[index := items[index].(cells := cells)], rows, edits)
    ensures edits <= EditsRows(rows0, newRows0)
  {
    hide StopsSoFar, StopSorted, BreaksSorted, RowBreaks, UpdatedCells, Aligned, EditsRows;
    StopsHere(items0, rows0, SortRows(newRows0), Stopped(items[..index], rows[..index], edits),
              items[index..], rows[index..], news, cells);
    StopEdits(items0, rows0, newRows0);
    Around(items, index, items[index].(cells := cells));
  }

  /** Or below it. */
  lemma ReturnsBelow(
    items0: seq<ItemRow>, rows0: seq<TreeRow>, newRows0: seq<TreeRow>,
    items: seq<ItemRow>, rows: seq<TreeRow>, edits: seq<Edit>, index: nat, news: seq<TreeRow>, cells: seq<Cell>, below: Stopped)
    requires Aligned(items0, rows0) && BreaksSorted(items0, rows0, SortRows(newRows0))
    requires index < |rows| == |items| && news != [] && rows[index].key == news[0].key
    requires StopsSoFar(items0, rows0, SortRows(newRows0), Stopped(items[..index], rows[..index], edits),
                        items[index..], rows[index..], news)
    requires !RowBreaks(items[index].cells, rows[index].columns, news[0].columns)
    requires cells == UpdatedCells(items[index].cells, rows[index].columns, news[0].columns)
    requires Aligned(items[index].children, rows[index].children)
    requires Breaks(items[index].children, rows[index].children, news[0].children)
    requires below == Stop(items[index].children, rows[index].children, news[0].children)
    ensures var row := rows[index].(columns := news[0].columns, children := below.rows);
            && Breaks(items0, rows0, newRows0)
            && Stop(items0, rows0, newRows0)
               == Stopped(items[index := ItemRow(cells, below.items)], rows[index := row],
                          edits + Under(news[0].key, below.edits))
            && edits + Under(news[0].key, below.edits) <= EditsRows(rows0, newRows0)
  {
    hide StopsSoFar, StopSorted, BreaksSorted, RowBreaks, UpdatedCells, Aligned, EditsRows, Under;
    StopsBelow(items0, rows0, SortRows(newRows0), Stopped(items[..index], rows[..index], edits),
               items[index..], rows[index..], news, cells, below);
    StopEdits(items0, rows0, newRows0);
    Around(items, index, ItemRow(cells, below.items));
    Around(rows, index, rows[index].(columns := news[0].columns, children := below.rows));
  }

  /** The edits so far, before the rows `was` and the new rows from newIndex on. */
  ghost predicate EditedSoFar(rows0: seq<TreeRow>, newRows: seq<TreeRow>, was: seq<TreeRow>, newIndex: nat, edits: seq<Edit>) {
    newIndex <= |newRows| && EditsSorted(rows0, newRows) == edits + EditsSorted(was, newRows[newIndex..])
  }

  lemma EditedNext(rows0: seq<TreeRow>, newRows: seq<TreeRow>, was: seq<TreeRow>, newIndex: nat, edits: seq<Edit>)
    requires EditedSoFar(rows0, newRows, was, newIndex, edits) && (was != [] || newIndex < |newRows|)
    ensures var now := newRows[newIndex..];
            if Inserts(was, now) then
              EditedSoFar(rows0, newRows, was, newIndex + 1,
                          edits + [Insert([], now[0].key)] + Under(now[0].key, EditsRows([], now[0].children)))
            else if Removes(was, now) then
              EditedSoFar(rows0, newRows, was[1..], newIndex, edits + [Remove([], was[0].key)])
            else
              EditedSoFar(rows0, newRows, was[1..], newIndex + 1,
                          edits + Under(now[0].key, EditsRows(was[0].children, now[0].children)))
  {
    var now := newRows[newIndex..];
    assert now != [] ==> now[1..] == newRows[newIndex + 1..];
  }

  /** Merges the new rows into the rows and into their items. `edits` are the calls that insert or remove
      rows of the item model, on all levels. It raises exactly if a row that is kept breaks, and then
      leaves rows and items as they were brought up to date so far, row for row. */
  method Merge(items0: seq<ItemRow>, rows0: seq<TreeRow>, newRows0: seq<TreeRow>)
    returns (items: seq<ItemRow>, rows: seq<TreeRow>, edits: seq<Edit>, raised: bool)
    requires Aligned(items0, rows0)
    ensures raised <==> Breaks(items0, rows0, newRows0)
    ensures Aligned(items, rows)
    ensures !raised ==> rows == MergeRows(rows0, newRows0) && items == MergeItems(items0, rows0, newRows0)
    ensures !raised ==> edits == EditsRows(rows0, newRows0)
    ensures raised ==> Stopped(items, rows, edits) == Stop(items0, rows0, newRows0)
    ensures raised ==> edits <= EditsRows(rows0, newRows0)
    ensures !raised && StrictTree(rows0) && DistinctTree(newRows0) ==> Minimal(edits, rows0, newRows0)
    decreases Size(newRows0)
  {
    hide MergedSoFar, EditedSoFar, StopsSoFar, MergeSorted, MergeItemsSorted, BreaksSorted, StopSorted, EditsSorted, Under,
      EditsRows, StrictTree, DistinctTree, Minimal, Aligned, RowBreaks, UpdatedCells, NewCells, MergeRows, MergeItems,
      Breaks, Stop, SortRows, Size;
    var newRows := SortRows(newRows0);
    SortSize(newRows0);
    items, rows, edits := items0, rows0, [];
    var index, newIndex := 0, 0;
    MergeStarts(items0, rows0, newRows);
    EditsStart(rows0, newRows);
    while index < |rows| || newIndex < |newRows|
      invariant 0 <= index <= |rows| == |items| && 0 <= newIndex <= |newRows|
      invariant Aligned(items, rows)
      invariant MergedSoFar(items0, rows0, newRows, items, rows, index, newIndex)
      invariant EditedSoFar(rows0, newRows, rows[index..], newIndex, edits)
      invariant StopsSoFar(items0, rows0, newRows, Stopped(items[..index], rows[..index], edits),
                           items[index..], rows[index..], newRows[newIndex..])
      decreases |newRows| - newIndex + |rows| - index
    {
      if newIndex < |newRows| { ElementSize(newRows, newIndex); }
      EditedNext(rows0, newRows, rows[index..], newIndex, edits);
      ghost var done := Stopped(items[..index], rows[..index], edits);
      ghost var its, olds, news := items[index..], rows[index..], newRows[newIndex..];
      if index == |rows| || (newIndex < |newRows| && rows[index].key > newRows[newIndex].key) {
        var newRow := newRows[newIndex];
        BreaksFromNothing(newRow.children);
        var childItems, children, below, broken := Merge([], [], newRow.children);
        var item, row := ItemRow(NewCells(newRow.columns, newRow.flags), childItems), newRow.(children := children);
        InsertedNext(items0, rows0, newRows, items, rows, index, newIndex, childItems, children);
        StopsInserted(items0, rows0, newRows, done, its, olds, news, childItems, children, below);
        AlignedInsert(items, rows, index, item, row);
        Spliced(rows[..index], row, rows[index..]);
        Spliced(items[..index], item, items[index..]);
        items := items[..index] + [item] + items[index..];
        rows := rows[..index] + [row] + rows[index..];
        edits := edits + [Insert([], newRow.key)] + Under(newRow.key, below);
        index := index + 1;
        newIndex := newIndex + 1;
      } else if newIndex == |newRows| || rows[index].key < newRows[newIndex].key {
        RemovedNext(items0, rows0, newRows, items, rows, index, newIndex);
        StopsRemoved(items0, rows0, newRows, done, its, olds, news);
        AlignedRemove(items, rows, index);
        Cut(rows[..index], rows[index + 1..]);
        Cut(items[..index], items[index + 1..]);
        items := items[..index] + items[index + 1..];
        edits := edits + [Remove([], rows[index].key)];
        rows := rows[..index] + rows[index + 1..];
      } else {
        var was, newRow := rows[index], newRows[newIndex];
        RestAligned(items0, rows0, newRows, items, rows, index, newIndex);
        var cells, broken := UpdateRow(items[index].cells, was.columns, newRow.columns);
        if broken {
          AlignedUpdate(items, rows, index, items[index].(cells := cells), was);
          assert rows[index := was] == rows;
          ReturnsHere(items0, rows0, newRows0, items, rows, edits, index, news, cells);
          return items[index := items[index].(cells := cells)], rows, edits, true;
        }
        var childItems, children, below, childBroken := Merge(items[index].children, was.children, newRow.children);
        var item, row := ItemRow(cells, childItems), was.(columns := newRow.columns, children := children);
        AlignedUpdate(items, rows, index, item, row);
        if childBroken {
          ReturnsBelow(items0, rows0, newRows0, items, rows, edits, index, news, cells, Stopped(childItems, children, below));
          return items[index := item], rows[index := row], edits + Under(newRow.key, below), true;
        }
        MatchedNext(items0, rows0, newRows, items, rows, index, newIndex, cells, childItems, children);
        StopsMatched(items0, rows0, newRows, done, its, olds, news, cells, childItems, children, below);
        Replaced(rows, index, row);
        Replaced(items, index, item);
        items := items[index := item];
        rows := rows[index := row];
        edits := edits + Under(newRow.key, below);
        index := index + 1;
        newIndex := newIndex + 1;
      }
    }
    MergeEnds(items0, rows0, newRows0, items, rows);
    EditsEnd(rows0, newRows0, edits);
    raised := false;
  }

  lemma {:induction false} AlignedInsert(items: seq<ItemRow>, rows: seq<TreeRow>, i: nat, item: ItemRow, row: TreeRow)
    requires Aligned(items, rows) && i <= |rows| && Aligned(item.children, row.children)
    ensures Aligned(items[..i] + [item] + items[i..], rows[..i] + [row] + rows[i..])
  {
  }

  lemma {:induction false} AlignedRemove(items: seq<ItemRow>, rows: seq<TreeRow>, i: nat)
    requires Aligned(items, rows) && i < |rows|
    ensures Aligned(items[..i] + items[i + 1..], rows[..i] + rows[i + 1..])
  {
  }

  lemma {:induction false} AlignedUpdate(items: seq<ItemRow>, rows: seq<TreeRow>, i: nat, item: ItemRow, row: TreeRow)
    requires Aligned(items, rows) && i < |rows|
    requires Aligned(item.children, row.children) || (item.children == items[i].children && row == rows[i])
    ensures Aligned(items[i := item], rows[i := row])
  {
  }

  lemma BreaksFromNothing(now: seq<TreeRow>)
    ensures Aligned([], []) && !Breaks([], [], now)
  {
    BreaksSortedFromNothing(SortRows(now));
  }

  lemma {:induction false} BreaksSortedFromNothing(now: seq<TreeRow>)
    ensures Aligned([], []) && !BreaksSorted([], [], now)
    decreases |now|
  {
    if now != [] { BreaksSortedFromNothing(now[1..]); }
  }

  /** What breaks in the row at hand breaks the merge. */
  lemma RestAligned(
    items0: seq<ItemRow>, rows0: seq<TreeRow>, newRows: seq<TreeRow>,
    items: seq<ItemRow>, rows: seq<TreeRow>, index: nat, newIndex: nat)
    requires Aligned(items0, rows0) && MergedSoFar(items0, rows0, newRows, items, rows, index, newIndex)
    requires index < |rows| == |items| && newIndex < |newRows| && rows[index].key == newRows[newIndex].key
    ensures Aligned(items[index].children, rows[index].children)
    ensures RowBreaks(items[index].cells, rows[index].columns, newRows[newIndex].columns)
            || Breaks(items[index].children, rows[index].children, newRows[newIndex].children)
            ==> BreaksSorted(items0, rows0, newRows)
  {
    AlignedSlice(items, rows, index);
  }

  lemma EditsStart(rows: seq<TreeRow>, newRows: seq<TreeRow>)
    ensures EditedSoFar(rows, newRows, rows[0..], 0, [])
  {
    assert rows[0..] == rows && newRows[0..] == newRows;
    assert [] + EditsSorted(rows, newRows) == EditsSorted(rows, newRows);
  }

  lemma EditsEnd(rows0: seq<TreeRow>, newRows0: seq<TreeRow>, edits: seq<Edit>)
    requires EditedSoFar(rows0, SortRows(newRows0), [], |SortRows(newRows0)|, edits)
    ensures edits == EditsRows(rows0, newRows0)
    ensures StrictTree(rows0) && DistinctTree(newRows0) ==> Minimal(edits, rows0, newRows0)
  {
    hide MinimalAt, StrictTree, DistinctTree;
    assert edits + [] == edits;
    if StrictTree(rows0) && DistinctTree(newRows0) {
      forall path, k ensures MinimalAt(edits, rows0, newRows0, path, k) { EditsAreMinimal(rows0, newRows0, path, k); }
    }
  }

  lemma MergeStarts(items: seq<ItemRow>, rows: seq<TreeRow>, newRows: seq<TreeRow>)
    requires Aligned(items, rows)
    ensures MergedSoFar(items, rows, newRows, items, rows, 0, 0)
    ensures StopsSoFar(items, rows, newRows, Stopped(items[..0], rows[..0], []), items[0..], rows[0..], newRows[0..])
  {
    assert items[0..] == items && rows[0..] == rows && newRows[0..] == newRows;
    if BreaksSorted(items, rows, newRows) {
      var s := StopSorted(items, rows, newRows);
      assert [] + s.items == s.items && [] + s.rows == s.rows && [] + s.edits == s.edits;
    }
  }

  lemma MergeEnds(
    items0: seq<ItemRow>, rows0: seq<TreeRow>, newRows0: seq<TreeRow>, items: seq<ItemRow>, rows: seq<TreeRow>)
    requires Aligned(items0, rows0)
    requires MergedSoFar(items0, rows0, SortRows(newRows0), items, rows, |rows|, |SortRows(newRows0)|)
    ensures !Breaks(items0, rows0, newRows0)
    ensures items == MergeItems(items0, rows0, newRows0) && rows == MergeRows(rows0, newRows0)
  {
    assert items[..|rows|] + [] == items && rows[..|rows|] + [] == rows;
  }

  lemma InsertStep(done: seq<TreeRow>, was: seq<TreeRow>, now: seq<TreeRow>, children: seq<TreeRow>)
    requires Inserts(was, now) && children == MergeRows([], now[0].children)
    ensures done + MergeSorted(was, now) == done + [now[0].(children := children)] + MergeSorted(was, now[1..])
  {
  }

  lemma InsertItemStep(
    done: seq<ItemRow>, items: seq<ItemRow>, was: seq<TreeRow>, now: seq<TreeRow>, children: seq<ItemRow>)
    requires Aligned(items, was) && Inserts(was, now) && children == MergeItems([], [], now[0].children)
    ensures done + MergeItemsSorted(items, was, now)
            == done + [ItemRow(NewCells(now[0].columns, now[0].flags), children)] + MergeItemsSorted(items, was, now[1..])
  {
  }

  lemma MatchStep(done: seq<TreeRow>, was: seq<TreeRow>, now: seq<TreeRow>, children: seq<TreeRow>)
    requires was != [] && now != [] && was[0].key == now[0].key && children == MergeRows(was[0].children, now[0].children)
    ensures done + MergeSorted(was, now)
            == done + [was[0].(columns := now[0].columns, children := children)] + MergeSorted(was[1..], now[1..])
  {
  }

  lemma MatchItemStep(
    done: seq<ItemRow>, items: seq<ItemRow>, was: seq<TreeRow>, now: seq<TreeRow>, cells: seq<Cell>, children: seq<ItemRow>)
    requires Aligned(items, was) && was != [] && now != [] && was[0].key == now[0].key
    requires cells == UpdatedCells(items[0].cells, was[0].columns, now[0].columns)
    requires Aligned(items[0].children, was[0].children)
    requires children == MergeItems(items[0].children, was[0].children, now[0].children)
    ensures Aligned(items[1..], was[1..])
    ensures done + MergeItemsSorted(items, was, now)
            == done + [ItemRow(cells, children)] + MergeItemsSorted(items[1..], was[1..], now[1..])
  {
    AlignedTail(items, was);
  }

  // ----- the class

  /** Every row has n columns, all the way down. */
  predicate Uniform(n: nat, rows: seq<TreeRow>) {
    forall i :: 0 <= i < |rows| ==> |rows[i].columns| == n && Uniform(n, rows[i].children)
  }

  lemma UniformCons(n: nat, r: TreeRow, rows: seq<TreeRow>)
    ensures Uniform(n, [r] + rows) <==> |r.columns| == n && Uniform(n, r.children) && Uniform(n, rows)
  {
    var all := [r] + rows;
    assert all[0] == r && all[1..] == rows;
    if Uniform(n, all) {
      forall i | 0 <= i < |rows| ensures |rows[i].columns| == n && Uniform(n, rows[i].children) { assert all[i + 1] == rows[i]; }
    }
  }

  lemma {:induction false} UniformSort(n: nat, rows: seq<TreeRow>)
    requires Uniform(n, rows)
    ensures Uniform(n, SortRows(rows))
  {
    if rows != [] {
      assert rows == [rows[0]] + rows[1..];
      UniformCons(n, rows[0], rows[1..]);
      UniformSort(n, rows[1..]);
      UniformInsert(n, rows[0], SortRows(rows[1..]));
    }
  }

  lemma {:induction false} UniformInsert(n: nat, r: TreeRow, rows: seq<TreeRow>)
    requires |r.columns| == n && Uniform(n, r.children) && Uniform(n, rows)
    ensures Uniform(n, InsertSorted(r, rows))
  {
    UniformCons(n, r, rows);
    if rows != [] && r.key > rows[0].key {
      assert rows == [rows[0]] + rows[1..];
      UniformCons(n, rows[0], rows[1..]);
      UniformInsert(n, r, rows[1..]);
      UniformCons(n, rows[0], InsertSorted(r, rows[1..]));
    }
  }

  /** Rows of one fixed number of columns always fit, and stay of that number. */
  lemma {:induction false} UniformFits(n: nat, was: seq<TreeRow>, now: seq<TreeRow>)
    requires Uniform(n, was) && Uniform(n, now)
    ensures Fits(was, now) && Uniform(n, MergeRows(was, now))
    decreases Size(now), 1, |was|
  {
    SortSize(now);
    UniformSort(n, now);
    UniformFitsSorted(n, was, SortRows(now));
  }

  lemma {:induction false} UniformFitsSorted(n: nat, was: seq<TreeRow>, now: seq<TreeRow>)
    requires Uniform(n, was) && Uniform(n, now)
    ensures FitsSorted(was, now) && Uniform(n, MergeSorted(was, now))
    decreases Size(now), 0, |was|
  {
    if was != [] { assert was == [was[0]] + was[1..]; UniformCons(n, was[0], was[1..]); }
    if now != [] { assert now == [now[0]] + now[1..]; UniformCons(n, now[0], now[1..]); }
    if Inserts(was, now) {
      UniformFits(n, [], now[0].children);
      UniformFitsSorted(n, was, now[1..]);
      UniformCons(n, MergeSorted(was, now)[0], MergeSorted(was, now[1..]));
    } else if Removes(was, now) {
      UniformFitsSorted(n, was[1..], now);
    } else if was != [] {
      UniformFits(n, was[0].children, now[0].children);
      UniformFitsSorted(n, was[1..], now[1..]);
      UniformCons(n, MergeSorted(was, now)[0], MergeSorted(was[1..], now[1..]));
    }
  }

  class ModelMerger {
    const columnCount: nat
    var modelData: seq<TreeRow>
    var model: seq<ItemRow>

    /** The model and the model data are in sync. */
    ghost predicate Valid()
      reads this
    {
      Mirrors(model, modelData)
    }

    /** What every update keeps, in sync or not: as many items as rows. */
    ghost predicate InShape()
      reads this
    {
      Aligned(model, modelData)
    }

    constructor (columnCount: nat)
      ensures Valid() && InShape() && modelData == [] && StrictTree(modelData) && this.columnCount == columnCount
    {
      this.columnCount, modelData, model := columnCount, [], [];
    }

    /** It raises exactly if a row that is kept breaks, which none does while model and model data are in
        sync, and then has been carried out up to that row. Without an exception the new data are reached; with distinct keys on every level the data stay
        sorted by them, and the calls of the item model are minimal on every level. In sync before, they are
        in sync afterwards exactly when the rows kept keep their number of columns; rows of one fixed number
        of columns do. */
    method Update(newModelData: seq<TreeRow>) returns (edits: seq<Edit>, raised: bool)
      requires InShape()
      modifies this
      ensures InShape()
      ensures raised <==> old(Breaks(model, modelData, newModelData))
      ensures raised ==> !old(Valid()) && edits <= EditsRows(old(modelData), newModelData)
      ensures raised ==> Stopped(model, modelData, edits) == old(Stop(model, modelData, newModelData))
      ensures old(Valid()) ==> (Valid() <==> Fits(old(modelData), newModelData))
      ensures old(Valid()) && Uniform(columnCount, old(modelData)) && Uniform(columnCount, newModelData) ==>
                Valid() && Uniform(columnCount, modelData)
      ensures !raised ==>
                && modelData == MergeRows(old(modelData), newModelData)
                && model == MergeItems(old(model), old(modelData), newModelData)
                && SameRows(modelData, SortTree(newModelData))
                && edits == EditsRows(old(modelData), newModelData)
                && (DistinctTree(newModelData) ==> StrictTree(modelData))
                && (DistinctTree(newModelData) && StrictTree(old(modelData)) ==>
                      Minimal(edits, old(modelData), newModelData))
    {
      if Valid() { MirrorsExactlyWhenFits(model, modelData, newModelData); }
      MergeReachesNew(modelData, newModelData);
      if Uniform(columnCount, modelData) && Uniform(columnCount, newModelData) {
        UniformFits(columnCount, modelData, newModelData);
      }
      if DistinctTree(newModelData) {
        MergedIsStrict(modelData, newModelData);
      }
      model, modelData, edits, raised := Merge(model, modelData, newModelData);
    }
  }
}
