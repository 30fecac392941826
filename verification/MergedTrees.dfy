/** What a merge leaves under each path of keys: after it went through, and after it raised. The new rows
    have distinct keys on every level, and the old ones are sorted by theirs. */
module MergedTrees {
  import opened Wrappers
  import opened Merging

  // ----- the data of a cell

  /** Setting the data of a column: a role of the new data gets its value, one that only the old data had is
      gone, and one that neither had stays as it was; unless old and new data are equal. */
  lemma RolesAfter(cells: seq<Cell>, was: seq<Column>, now: seq<Column>, j: nat, role: Role)
    requires j < |cells|
    ensures var cell := UpdatedCells(cells, was, now)[j];
            && |UpdatedCells(cells, was, now)| == |cells| && cell.flags == cells[j].flags
            && (j >= |was| || j >= |now| || was[j] == now[j] ==> cell == cells[j])
            && (j < |was| && j < |now| && was[j] != now[j] ==>
                  && (role in now[j] ==> role in cell.data && cell.data[role] == now[j][role])
                  && (role !in now[j] && role in was[j] ==> role !in cell.data)
                  && (role !in now[j] && role !in was[j] ==>
                        (role in cell.data <==> role in cells[j].data)
                        && (role in cell.data ==> cell.data[role] == cells[j].data[role])))
  {
  }

  // ----- a merge that goes through

  lemma {:induction false} MergeAligned(items: seq<ItemRow>, was: seq<TreeRow>, now: seq<TreeRow>)
    requires Aligned(items, was)
    ensures Aligned(MergeItems(items, was, now), MergeRows(was, now))
    decreases Size(now), 1, |was|
  {
    SortSize(now);
    MergeSortedAligned(items, was, SortRows(now));
  }

  lemma {:induction false} MergeSortedAligned(items: seq<ItemRow>, was: seq<TreeRow>, now: seq<TreeRow>)
    requires Aligned(items, was)
    ensures Aligned(MergeItemsSorted(items, was, now), MergeSorted(was, now))
    decreases Size(now), 0, |was|
  {
    hide UpdatedCells, NewCells;
    if Inserts(was, now) {
      MergeAligned([], [], now[0].children);
      MergeSortedAligned(items, was, now[1..]);
      AlignedCons(MergeItemsSorted(items, was, now)[0], MergeSorted(was, now)[0],
                  MergeItemsSorted(items, was, now[1..]), MergeSorted(was, now[1..]));
    } else if was != [] {
      AlignedTail(items, was);
      if Removes(was, now) {
        MergeSortedAligned(items[1..], was[1..], now);
      } else {
        MergeAligned(items[0].children, was[0].children, now[0].children);
        MergeSortedAligned(items[1..], was[1..], now[1..]);
        AlignedCons(MergeItemsSorted(items, was, now)[0], MergeSorted(was, now)[0],
                    MergeItemsSorted(items[1..], was[1..], now[1..]), MergeSorted(was[1..], now[1..]));
      }
    }
  }

  lemma AlignedCons(x: ItemRow, y: TreeRow, items: seq<ItemRow>, rows: seq<TreeRow>)
    requires Aligned(items, rows) && Aligned(x.children, y.children)
    ensures Aligned([x] + items, [y] + rows)
  {
  }

  /** Looking up in the first row, or in the others. */
  lemma ShownCons(x: ItemRow, y: TreeRow, items: seq<ItemRow>, rows: seq<TreeRow>, path: seq<int>)
    requires Aligned(items, rows) && Aligned(x.children, y.children) && path != []
    ensures Aligned([x] + items, [y] + rows)
    ensures Shown([x] + items, [y] + rows, path)
            == if path[0] != y.key then Shown(items, rows, path)
               else if |path| == 1 then Some(Face(y.columns, y.flags, x.cells))
               else Shown(x.children, y.children, path[1..])
  {
    AlignedCons(x, y, items, rows);
    assert ([x] + items)[1..] == items && ([y] + rows)[1..] == rows;
  }

  /** What a merge is to show under a path, as the two trees have it: nothing that the new rows do not have;
      a row that is only in the new rows as it is there; a row that is in both with the new columns, its old
      flags, and its old cells brought up to date. */
  function MergedFace(items: seq<ItemRow>, was: seq<TreeRow>, now: seq<TreeRow>, path: seq<int>): Option<Face>
    requires Aligned(items, was)
  {
    var old_, new_ := Shown(items, was, path), RowAt(now, path);
    if new_.None? then None
    else if old_.None? then
      Some(Face(new_.value.columns, new_.value.flags, NewCells(new_.value.columns, new_.value.flags)))
    else
      Some(Face(new_.value.columns, old_.value.flags, UpdatedCells(old_.value.cells, old_.value.columns, new_.value.columns)))
  }

  lemma FaceInserted(items: seq<ItemRow>, was: seq<TreeRow>, now: seq<TreeRow>, path: seq<int>)
    requires Aligned(items, was) && StrictlyAscending(was) && path != [] && Inserts(was, now)
    ensures Aligned([], [])
    ensures MergedFace(items, was, now, path)
            == if path[0] != now[0].key then MergedFace(items, was, now[1..], path)
               else if |path| == 1 then
                 Some(Face(now[0].columns, now[0].flags, NewCells(now[0].columns, now[0].flags)))
               else MergedFace([], [], now[0].children, path[1..])
  {
    hide NewCells, UpdatedCells, Aligned;
    BreaksFromNothing([]);
    if path[0] == now[0].key { NothingShown(items, was, path); }
  }

  lemma FaceRemoved(items: seq<ItemRow>, was: seq<TreeRow>, now: seq<TreeRow>, path: seq<int>)
    requires Aligned(items, was) && StrictlyAscending(now) && path != [] && Removes(was, now)
    ensures |items| == |was| && Aligned(items[1..], was[1..])
    ensures MergedFace(items, was, now, path) == MergedFace(items[1..], was[1..], now, path)
  {
    hide NewCells, UpdatedCells, Aligned;
    AlignedTail(items, was);
    if path[0] == was[0].key { NoRowAt(now, path); }
  }

  lemma FaceMatched(items: seq<ItemRow>, was: seq<TreeRow>, now: seq<TreeRow>, path: seq<int>)
    requires Aligned(items, was) && path != [] && was != [] && now != [] && was[0].key == now[0].key
    ensures |items| == |was| && Aligned(items[1..], was[1..]) && Aligned(items[0].children, was[0].children)
    ensures MergedFace(items, was, now, path)
            == if path[0] != was[0].key then MergedFace(items[1..], was[1..], now[1..], path)
               else if |path| == 1 then
                 Some(Face(now[0].columns, was[0].flags, UpdatedCells(items[0].cells, was[0].columns, now[0].columns)))
               else MergedFace(items[0].children, was[0].children, now[0].children, path[1..])
  {
    hide NewCells, UpdatedCells, Aligned;
    AlignedTail(items, was);
  }

  /** After a merge every path shows what it is to show. */
  lemma {:induction false} MergedAt(items: seq<ItemRow>, was: seq<TreeRow>, now: seq<TreeRow>, path: seq<int>)
    requires Aligned(items, was) && StrictTree(was) && DistinctTree(now) && path != []
    ensures Aligned(MergeItems(items, was, now), MergeRows(was, now))
    ensures Shown(MergeItems(items, was, now), MergeRows(was, now), path) == MergedFace(items, was, now, path)
    decreases Size(now), 1, |was|
  {
    hide StrictTree, DistinctTree, Shown, RowAt;
    SortSize(now);
    SortDistinct(now);
    SortedMergedAt(items, was, SortRows(now), path);
    SortKeepsRows(now, path);
  }

  lemma {:induction false} SortedMergedAt(items: seq<ItemRow>, was: seq<TreeRow>, now: seq<TreeRow>, path: seq<int>)
    requires Aligned(items, was) && StrictTree(was) && DistinctTree(now) && StrictlyAscending(now) && path != []
    ensures Aligned(MergeItemsSorted(items, was, now), MergeSorted(was, now))
    ensures Shown(MergeItemsSorted(items, was, now), MergeSorted(was, now), path) == MergedFace(items, was, now, path)
    decreases Size(now), 0, |was|
  {
    hide StrictTree, DistinctTree, RowAt, Aligned, UpdatedCells, NewCells, MergedFace, MergeItems, MergeRows;
    StrictIsAscending(was);
    StrictNothing();
    if was != [] { StrictTail(was); }
    if now != [] { DistinctTail(now); }
    if Inserts(was, now) {
      FaceInserted(items, was, now, path);
      MergeAligned([], [], now[0].children);
      SortedMergedAt(items, was, now[1..], path);
      if |path| > 1 { MergedAt([], [], now[0].children, path[1..]); }
      ShownCons(MergeItemsSorted(items, was, now)[0], MergeSorted(was, now)[0],
                MergeItemsSorted(items, was, now[1..]), MergeSorted(was, now[1..]), path);
    } else if Removes(was, now) {
      FaceRemoved(items, was, now, path);
      SortedMergedAt(items[1..], was[1..], now, path);
    } else if was == [] {
      NothingMerged(items, path);
    } else {
      FaceMatched(items, was, now, path);
      MergeAligned(items[0].children, was[0].children, now[0].children);
      SortedMergedAt(items[1..], was[1..], now[1..], path);
      if |path| > 1 { MergedAt(items[0].children, was[0].children, now[0].children, path[1..]); }
      ShownCons(MergeItemsSorted(items, was, now)[0], MergeSorted(was, now)[0],
                MergeItemsSorted(items[1..], was[1..], now[1..]), MergeSorted(was[1..], now[1..]), path);
    }
  }

  lemma NothingMerged(items: seq<ItemRow>, path: seq<int>)
    requires Aligned(items, []) && path != []
    ensures Aligned(MergeItemsSorted(items, [], []), MergeSorted([], []))
    ensures Shown(MergeItemsSorted(items, [], []), MergeSorted([], []), path) == MergedFace(items, [], [], path)
  {
  }

  // ----- a merge that raises

  /** The order in which a merge comes to the rows: by their keys, a row before those below it. */
  predicate Before(a: seq<int>, b: seq<int>)
    decreases |a|
  {
    b != [] && (a == [] || a[0] < b[0] || (a[0] == b[0] && Before(a[1..], b[1..])))
  }

  /** Where a merge comes to a row that breaks. */
  function BreakPath(items: seq<ItemRow>, was: seq<TreeRow>, now: seq<TreeRow>): seq<int>
    requires Aligned(items, was) && Breaks(items, was, now)
    decreases Size(now), 1, |was|
  {
    SortSize(now);
    BreakPathSorted(items, was, SortRows(now))
  }

  function BreakPathSorted(items: seq<ItemRow>, was: seq<TreeRow>, now: seq<TreeRow>): seq<int>
    requires Aligned(items, was) && BreaksSorted(items, was, now)
    decreases Size(now), 0, |was|
  {
    if Inserts(was, now) then BreakPathSorted(items, was, now[1..])
    else
      AlignedTail(items, was);
      if Removes(was, now) then BreakPathSorted(items[1..], was[1..], now)
      else if RowBreaks(items[0].cells, was[0].columns, now[0].columns) then [was[0].key]
      else if Breaks(items[0].children, was[0].children, now[0].children) then
        [was[0].key] + BreakPath(items[0].children, was[0].children, now[0].children)
      else BreakPathSorted(items[1..], was[1..], now[1..])
  }

  /** A row breaks there, */
  lemma {:induction false} BreaksThere(items: seq<ItemRow>, was: seq<TreeRow>, now: seq<TreeRow>)
    requires Aligned(items, was) && StrictTree(was) && DistinctTree(now) && Breaks(items, was, now)
    ensures BreakPath(items, was, now) != [] && BreaksAt(items, was, now, BreakPath(items, was, now))
    decreases Size(now), 1, |was|
  {
    hide BreaksAt, DistinctTree, StrictTree, Aligned;
    SortSize(now);
    SortDistinct(now);
    BreaksThereSorted(items, was, SortRows(now));
    BreaksAtSorted(items, was, now, BreakPath(items, was, now));
  }

  lemma {:induction false} BreaksThereSorted(items: seq<ItemRow>, was: seq<TreeRow>, now: seq<TreeRow>)
    requires Aligned(items, was) && StrictTree(was) && DistinctTree(now) && StrictlyAscending(now)
    requires BreaksSorted(items, was, now)
    ensures BreakPathSorted(items, was, now) != [] && BreaksAt(items, was, now, BreakPathSorted(items, was, now))
    decreases Size(now), 0, |was|
  {
    hide BreaksAt, DistinctTree, StrictTree, RowBreaks, Aligned;
    StrictIsAscending(was);
    if was != [] { StrictTail(was); AlignedTail(items, was); }
    if now != [] { DistinctTail(now); }
    var p := BreakPathSorted(items, was, now);
    if Inserts(was, now) {
      BreaksThereSorted(items, was, now[1..]);
      BreaksAtInserted(items, was, now, p);
    } else if Removes(was, now) {
      BreaksThereSorted(items[1..], was[1..], now);
      BreaksAtRemoved(items, was, now, p);
    } else if RowBreaks(items[0].cells, was[0].columns, now[0].columns) {
      BreaksAtMatch(items, was, now, p);
    } else if Breaks(items[0].children, was[0].children, now[0].children) {
      BreaksThere(items[0].children, was[0].children, now[0].children);
      assert p[1..] == BreakPath(items[0].children, was[0].children, now[0].children);
      BreaksAtMatch(items, was, now, p);
    } else {
      BreaksThereSorted(items[1..], was[1..], now[1..]);
      BreaksAtTail(items, was, now, p);
      BreaksAtMatch(items, was, now, p);
    }
  }

  /** Only rows from the first old one on break. */
  lemma BreaksFromHere(items: seq<ItemRow>, was: seq<TreeRow>, now: seq<TreeRow>, path: seq<int>)
    requires Aligned(items, was) && StrictlyAscending(was) && path != [] && BreaksAt(items, was, now, path)
    ensures was != [] && path[0] >= was[0].key
  {
    if was == [] || path[0] < was[0].key { NothingShown(items, was, path); }
  }

  /** and none before it does. */
  lemma {:induction false} BreaksThereFirst(items: seq<ItemRow>, was: seq<TreeRow>, now: seq<TreeRow>, path: seq<int>)
    requires Aligned(items, was) && StrictTree(was) && DistinctTree(now) && Breaks(items, was, now)
    requires path != [] && BreaksAt(items, was, now, path)
    ensures path == BreakPath(items, was, now) || Before(BreakPath(items, was, now), path)
    decreases Size(now), 1, |was|
  {
    hide BreaksAt, DistinctTree, StrictTree, Aligned;
    SortSize(now);
    SortDistinct(now);
    BreaksAtSorted(items, was, now, path);
    BreaksThereFirstSorted(items, was, SortRows(now), path);
  }

  lemma {:induction false} BreaksThereFirstSorted(items: seq<ItemRow>, was: seq<TreeRow>, now: seq<TreeRow>, path: seq<int>)
    requires Aligned(items, was) && StrictTree(was) && DistinctTree(now) && StrictlyAscending(now)
    requires BreaksSorted(items, was, now) && path != [] && BreaksAt(items, was, now, path)
    ensures path == BreakPathSorted(items, was, now) || Before(BreakPathSorted(items, was, now), path)
    decreases Size(now), 0, |was|
  {
    hide BreaksAt, DistinctTree, StrictTree, RowBreaks, Aligned;
    StrictIsAscending(was);
    if was != [] { StrictTail(was); AlignedTail(items, was); }
    if now != [] { DistinctTail(now); }
    if Inserts(was, now) {
      BreaksAtInserted(items, was, now, path);
      BreaksThereFirstSorted(items, was, now[1..], path);
    } else if Removes(was, now) {
      BreaksAtRemoved(items, was, now, path);
      BreaksThereFirstSorted(items[1..], was[1..], now, path);
    } else {
      BreaksAtMatch(items, was, now, path);
      BreaksFromHere(items, was, now, path);
      if RowBreaks(items[0].cells, was[0].columns, now[0].columns) {
        if path[0] == was[0].key && |path| == 1 { assert path == [was[0].key]; }
      } else if Breaks(items[0].children, was[0].children, now[0].children) {
        var below := BreakPath(items[0].children, was[0].children, now[0].children);
        if path[0] == was[0].key {
          BreaksThereFirst(items[0].children, was[0].children, now[0].children, path[1..]);
          assert path == [was[0].key] + path[1..];
          assert ([was[0].key] + below)[1..] == below;
        }
      } else {
        if path[0] == was[0].key { RowBreaksMerge(items[0].children, was[0].children, now[0].children, path[1..]); }
        BreaksThereFirstSorted(items[1..], was[1..], now[1..], path);
      }
    }
  }

  /** What a merge that raises at p is to show under a path: before p what a whole merge shows, under p the
      old row with its cells brought up to date as far as they go, and otherwise what was there. */
  function StoppedFace(items: seq<ItemRow>, was: seq<TreeRow>, now: seq<TreeRow>, p: seq<int>, path: seq<int>): Option<Face>
    requires Aligned(items, was)
  {
    var shown, new_ := Shown(items, was, path), RowAt(now, path);
    if Before(path, p) then MergedFace(items, was, now, path)
    else if path == p && shown.Some? && new_.Some? then
      Some(shown.value.(cells := UpdatedCells(shown.value.cells, shown.value.columns, new_.value.columns)))
    else shown
  }

  lemma {:induction false} StopAligned(items: seq<ItemRow>, was: seq<TreeRow>, now: seq<TreeRow>)
    requires Aligned(items, was) && Breaks(items, was, now)
    ensures Aligned(Stop(items, was, now).items, Stop(items, was, now).rows)
    decreases Size(now), 1, |was|
  {
    SortSize(now);
    StopSortedAligned(items, was, SortRows(now));
  }

  lemma {:induction false} StopSortedAligned(items: seq<ItemRow>, was: seq<TreeRow>, now: seq<TreeRow>)
    requires Aligned(items, was) && BreaksSorted(items, was, now)
    ensures Aligned(StopSorted(items, was, now).items, StopSorted(items, was, now).rows)
    decreases Size(now), 0, |was|
  {
    hide UpdatedCells, NewCells, Aligned, RowBreaks, Breaks, MergeItems, MergeRows;
    var s := StopSorted(items, was, now);
    if Inserts(was, now) {
      MergeAligned([], [], now[0].children);
      StopSortedAligned(items, was, now[1..]);
      var t := StopSorted(items, was, now[1..]);
      AlignedCons(s.items[0], s.rows[0], t.items, t.rows);
    } else {
      AlignedTail(items, was);
      if Removes(was, now) {
        StopSortedAligned(items[1..], was[1..], now);
        var t := StopSorted(items[1..], was[1..], now);
        assert [] + t.items == t.items && [] + t.rows == t.rows;
      } else if RowBreaks(items[0].cells, was[0].columns, now[0].columns) {
        assert was == [was[0]] + was[1..];
        AlignedCons(s.items[0], was[0], items[1..], was[1..]);
      } else if Breaks(items[0].children, was[0].children, now[0].children) {
        StopAligned(items[0].children, was[0].children, now[0].children);
        AlignedCons(s.items[0], s.rows[0], items[1..], was[1..]);
      } else {
        MergeAligned(items[0].children, was[0].children, now[0].children);
        StopSortedAligned(items[1..], was[1..], now[1..]);
        var t := StopSorted(items[1..], was[1..], now[1..]);
        AlignedCons(s.items[0], s.rows[0], t.items, t.rows);
      }
    }
  }

  /** After a merge that raised every path shows what it is to show. */
  lemma {:induction false} StoppedAt(items: seq<ItemRow>, was: seq<TreeRow>, now: seq<TreeRow>, path: seq<int>)
    requires Aligned(items, was) && StrictTree(was) && DistinctTree(now) && Breaks(items, was, now) && path != []
    ensures var s := Stop(items, was, now);
            && Aligned(s.items, s.rows)
            && Shown(s.items, s.rows, path) == StoppedFace(items, was, now, BreakPath(items, was, now), path)
    decreases Size(now), 1, |was|
  {
    hide StrictTree, DistinctTree, Shown, RowAt, Before, UpdatedCells, NewCells;
    SortSize(now);
    SortDistinct(now);
    SortKeepsRows(now, path);
    SortedStoppedAt(items, was, SortRows(now), path);
  }

  lemma {:induction false} SortedStoppedAt(items: seq<ItemRow>, was: seq<TreeRow>, now: seq<TreeRow>, path: seq<int>)
    requires Aligned(items, was) && StrictTree(was) && DistinctTree(now) && StrictlyAscending(now)
    requires BreaksSorted(items, was, now) && path != []
    ensures var s := StopSorted(items, was, now);
            && Aligned(s.items, s.rows)
            && Shown(s.items, s.rows, path) == StoppedFace(items, was, now, BreakPathSorted(items, was, now), path)
    decreases Size(now), 0, |was|, 1
  {
    hide StrictTree, DistinctTree, RowAt, Aligned, UpdatedCells, NewCells, MergedFace, MergeItems, MergeRows, RowBreaks,
      Breaks, BreaksAt, StopSorted, Stop, Shown, StoppedFace, StrictlyAscending;
    StopSortedAligned(items, was, now);
    if Inserts(was, now) {
      StoppedInserted(items, was, now, path);
    } else if Removes(was, now) {
      StoppedRemoved(items, was, now, path);
    } else {
      AlignedTail(items, was);
      if RowBreaks(items[0].cells, was[0].columns, now[0].columns) {
        StoppedHere(items, was, now, path);
      } else if Breaks(items[0].children, was[0].children, now[0].children) {
        StoppedBelow(items, was, now, path);
      } else {
        StoppedLater(items, was, now, path);
      }
    }
  }

  /** A break lies behind the rows that are inserted or removed before it. */
  lemma BreaksBehind(items: seq<ItemRow>, was: seq<TreeRow>, now: seq<TreeRow>, k: int)
    requires Aligned(items, was) && StrictTree(was) && DistinctTree(now) && StrictlyAscending(now)
    requires BreaksSorted(items, was, now) && (was != [] ==> k < was[0].key)
    ensures BreakPathSorted(items, was, now) != [] && k < BreakPathSorted(items, was, now)[0]
  {
    hide BreaksAt, DistinctTree, StrictTree, Aligned, BreaksSorted, BreakPathSorted;
    BreaksThereSorted(items, was, now);
    StrictIsAscending(was);
    BreaksFromHere(items, was, now, BreakPathSorted(items, was, now));
  }

  lemma {:induction false} StoppedInserted(items: seq<ItemRow>, was: seq<TreeRow>, now: seq<TreeRow>, path: seq<int>)
    requires Aligned(items, was) && StrictTree(was) && DistinctTree(now) && StrictlyAscending(now)
    requires BreaksSorted(items, was, now) && path != [] && Inserts(was, now)
    ensures var s := StopSorted(items, was, now);
            && Aligned(s.items, s.rows)
            && Shown(s.items, s.rows, path) == StoppedFace(items, was, now, BreakPathSorted(items, was, now), path)
    decreases Size(now), 0, |was|, 0
  {
    hide StrictTree, DistinctTree, Aligned, UpdatedCells, NewCells, MergedFace, MergeItems, MergeRows, Shown;
    StrictIsAscending(was);
    DistinctTail(now);
    BreaksBehind(items, was, now[1..], now[0].key);
    FaceInserted(items, was, now, path);
    MergeAligned([], [], now[0].children);
    StrictNothing();
    SortedStoppedAt(items, was, now[1..], path);
    if |path| > 1 { MergedAt([], [], now[0].children, path[1..]); }
    var s, t := StopSorted(items, was, now), StopSorted(items, was, now[1..]);
    ShownCons(s.items[0], s.rows[0], t.items, t.rows, path);
    if path[0] == now[0].key { assert Before(path, BreakPathSorted(items, was, now)); NothingShown([], [], path); }
  }

  lemma ShownRest(items: seq<ItemRow>, rows: seq<TreeRow>, path: seq<int>)
    requires Aligned(items, rows) && path != [] && rows != [] && path[0] != rows[0].key
    ensures |items| == |rows| && Aligned(items[1..], rows[1..]) && Shown(items, rows, path) == Shown(items[1..], rows[1..], path)
  {
    hide Aligned;
    AlignedTail(items, rows);
  }

  lemma {:induction false} StoppedRemoved(items: seq<ItemRow>, was: seq<TreeRow>, now: seq<TreeRow>, path: seq<int>)
    requires Aligned(items, was) && StrictTree(was) && DistinctTree(now) && StrictlyAscending(now)
    requires BreaksSorted(items, was, now) && path != [] && Removes(was, now)
    ensures var s := StopSorted(items, was, now);
            && Aligned(s.items, s.rows)
            && Shown(s.items, s.rows, path) == StoppedFace(items, was, now, BreakPathSorted(items, was, now), path)
    decreases Size(now), 0, |was|, 0
  {
    hide StrictTree, DistinctTree, Aligned, UpdatedCells, NewCells, MergedFace, MergeItems, MergeRows, Shown, RowAt;
    StrictIsAscending(was);
    StrictTail(was);
    AlignedTail(items, was);
    FaceRemoved(items, was, now, path);
    if path[0] != was[0].key { ShownRest(items, was, path); }
    BreaksBehind(items[1..], was[1..], now, was[0].key);
    SortedStoppedAt(items[1..], was[1..], now, path);
    var t := StopSorted(items[1..], was[1..], now);
    assert [] + t.items == t.items && [] + t.rows == t.rows;
  }

  /** The lookups under a path, where the first rows match. */
  lemma ShownMatched(items: seq<ItemRow>, was: seq<TreeRow>, now: seq<TreeRow>, path: seq<int>)
    requires Aligned(items, was) && StrictTree(was) && StrictlyAscending(now)
    requires path != [] && was != [] && now != [] && was[0].key == now[0].key
    ensures |items| == |was| && Aligned(items[1..], was[1..]) && Aligned(items[0].children, was[0].children)
    ensures path[0] < was[0].key ==> Shown(items, was, path).None? && MergedFace(items, was, now, path).None?
    ensures path[0] != was[0].key ==> Shown(items, was, path) == Shown(items[1..], was[1..], path)
    ensures path[0] == was[0].key ==>
              Shown(items, was, path) == if |path| == 1 then Some(Face(was[0].columns, was[0].flags, items[0].cells))
                                         else Shown(items[0].children, was[0].children, path[1..])
    ensures RowAt(now, path) == if path[0] != now[0].key then RowAt(now[1..], path)
                                else if |path| == 1 then Some(now[0]) else RowAt(now[0].children, path[1..])
  {
    hide StrictTree, Aligned;
    StrictIsAscending(was);
    AlignedTail(items, was);
    if path[0] < was[0].key {
      NothingShown(items, was, path);
      NoRowAt(now, path);
    }
  }

  lemma {:induction false} StoppedHere(items: seq<ItemRow>, was: seq<TreeRow>, now: seq<TreeRow>, path: seq<int>)
    requires Aligned(items, was) && StrictTree(was) && DistinctTree(now) && StrictlyAscending(now)
    requires BreaksSorted(items, was, now) && path != [] && was != [] && now != [] && was[0].key == now[0].key
    requires |items| == |was| && Aligned(items[0].children, was[0].children)
    requires RowBreaks(items[0].cells, was[0].columns, now[0].columns)
    ensures var s := StopSorted(items, was, now);
            && Aligned(s.items, s.rows)
            && Shown(s.items, s.rows, path) == StoppedFace(items, was, now, BreakPathSorted(items, was, now), path)
    decreases Size(now), 0, |was|, 0
  {
    hide StrictTree, DistinctTree, Aligned, UpdatedCells, NewCells, MergedFace, MergeItems, MergeRows, Shown,
      RowBreaks, Breaks;
    StopSortedAligned(items, was, now);
    FaceMatched(items, was, now, path);
    ShownMatched(items, was, now, path);
    var s, k := StopSorted(items, was, now), was[0].key;
    assert was == [was[0]] + was[1..];
    ShownCons(s.items[0], was[0], items[1..], was[1..], path);
    assert path == [path[0]] + path[1..] && [k][1..] == [];
    assert Before(path, [k]) <==> path[0] < k;
  }

  lemma {:induction false} StoppedBelow(items: seq<ItemRow>, was: seq<TreeRow>, now: seq<TreeRow>, path: seq<int>)
    requires Aligned(items, was) && StrictTree(was) && DistinctTree(now) && StrictlyAscending(now)
    requires BreaksSorted(items, was, now) && path != [] && was != [] && now != [] && was[0].key == now[0].key
    requires |items| == |was| && Aligned(items[0].children, was[0].children)
    requires !RowBreaks(items[0].cells, was[0].columns, now[0].columns)
    requires Breaks(items[0].children, was[0].children, now[0].children)
    ensures var s := StopSorted(items, was, now);
            && Aligned(s.items, s.rows)
            && Shown(s.items, s.rows, path) == StoppedFace(items, was, now, BreakPathSorted(items, was, now), path)
    decreases Size(now), 0, |was|, 0
  {
    hide StrictTree, DistinctTree, Aligned, UpdatedCells, NewCells, MergedFace, MergeItems, MergeRows, Shown,
      RowBreaks, Breaks, Stop, BreakPath, RowAt;
    StopSortedAligned(items, was, now);
    FaceMatched(items, was, now, path);
    ShownMatched(items, was, now, path);
    var s, k := StopSorted(items, was, now), was[0].key;
    StrictTail(was);
    DistinctTail(now);
    var below, p := Stop(items[0].children, was[0].children, now[0].children),
                    BreakPath(items[0].children, was[0].children, now[0].children);
    BreaksThere(items[0].children, was[0].children, now[0].children);
    assert BreakPathSorted(items, was, now) == [k] + p && ([k] + p)[1..] == p && path == [path[0]] + path[1..];
    StopAligned(items[0].children, was[0].children, now[0].children);
    ShownCons(s.items[0], s.rows[0], items[1..], was[1..], path);
    assert path[0] == k ==> (Before(path, [k] + p) <==> Before(path[1..], p));
    if |path| > 1 {
      StoppedAt(items[0].children, was[0].children, now[0].children, path[1..]);
    } else {
      assert Before(path[1..], p);
    }
  }

  lemma {:induction false} StoppedLater(items: seq<ItemRow>, was: seq<TreeRow>, now: seq<TreeRow>, path: seq<int>)
    requires Aligned(items, was) && StrictTree(was) && DistinctTree(now) && StrictlyAscending(now)
    requires BreaksSorted(items, was, now) && path != [] && was != [] && now != [] && was[0].key == now[0].key
    requires |items| == |was| && Aligned(items[0].children, was[0].children)
    requires !RowBreaks(items[0].cells, was[0].columns, now[0].columns)
    requires !Breaks(items[0].children, was[0].children, now[0].children)
    ensures var s := StopSorted(items, was, now);
            && Aligned(s.items, s.rows)
            && Shown(s.items, s.rows, path) == StoppedFace(items, was, now, BreakPathSorted(items, was, now), path)
    decreases Size(now), 0, |was|, 0
  {
    hide StrictTree, DistinctTree, Aligned, UpdatedCells, NewCells, MergedFace, MergeItems, MergeRows, Shown,
      RowBreaks, Breaks, Stop, BreakPath, RowAt, BreaksAt;
    StopSortedAligned(items, was, now);
    FaceMatched(items, was, now, path);
    ShownMatched(items, was, now, path);
    var s, k := StopSorted(items, was, now), was[0].key;
    StrictIsAscending(was);
    StrictTail(was);
    DistinctTail(now);
    BreaksBehind(items[1..], was[1..], now[1..], k);
    MergeAligned(items[0].children, was[0].children, now[0].children);
    SortedStoppedAt(items[1..], was[1..], now[1..], path);
    var t := StopSorted(items[1..], was[1..], now[1..]);
    if |path| > 1 { MergedAt(items[0].children, was[0].children, now[0].children, path[1..]); }
    ShownCons(s.items[0], s.rows[0], t.items, t.rows, path);
  }

  // ----- the edits before it raises

  /** Where an edit takes place. */
  function Place(e: Edit): seq<int> {
    e.path + [e.key]
  }

  /** No edit takes place before the first rows. */
  lemma NoEditBefore(was: seq<TreeRow>, now: seq<TreeRow>, e: Edit)
    requires StrictTree(was) && DistinctTree(now) && StrictlyAscending(now)
    requires (was != [] ==> Place(e)[0] < was[0].key) && (now != [] ==> Place(e)[0] < now[0].key)
    ensures Times(EditsSorted(was, now), e) == 0
  {
    hide Times, EditsSorted, StrictTree, DistinctTree;
    StrictIsAscending(was);
    SortedEditsAreMinimal(was, now, e.path, e.key);
    BelowFirst(was, Place(e)[0]);
    BelowFirst(now, Place(e)[0]);
  }

  lemma ThreeTimes(a: seq<Edit>, b: seq<Edit>, c: seq<Edit>, e: Edit)
    ensures Times(a + b + c, e) == Times(a, e) + Times(b, e) + Times(c, e)
  {
    TimesAppend(a + b, c, e);
    TimesAppend(a, b, e);
  }

  /** Until it raises a merge makes exactly the edits that take place before the row that breaks. */
  lemma {:induction false} EditsBefore(items: seq<ItemRow>, was: seq<TreeRow>, now: seq<TreeRow>, e: Edit)
    requires Aligned(items, was) && StrictTree(was) && DistinctTree(now) && Breaks(items, was, now)
    ensures Times(Stop(items, was, now).edits, e)
            == if Before(Place(e), BreakPath(items, was, now)) then Times(EditsRows(was, now), e) else 0
    decreases Size(now), 1, |was|
  {
    hide StrictTree, DistinctTree, Times, Before, Place, Aligned;
    SortSize(now);
    SortDistinct(now);
    SortedEditsBefore(items, was, SortRows(now), e);
  }

  lemma {:induction false} SortedEditsBefore(items: seq<ItemRow>, was: seq<TreeRow>, now: seq<TreeRow>, e: Edit)
    requires Aligned(items, was) && StrictTree(was) && DistinctTree(now) && StrictlyAscending(now)
    requires BreaksSorted(items, was, now)
    ensures Times(StopSorted(items, was, now).edits, e)
            == if Before(Place(e), BreakPathSorted(items, was, now)) then Times(EditsSorted(was, now), e) else 0
    decreases Size(now), 0, |was|, 1
  {
    hide StrictTree, DistinctTree, Times, Aligned, Under, UpdatedCells, NewCells, MergeItems, MergeRows, RowBreaks, Breaks,
      Stop, BreakPath, EditsRows;
    StrictIsAscending(was);
    if was != [] { StrictTail(was); AlignedTail(items, was); }
    if now != [] { DistinctTail(now); }
    if Inserts(was, now) {
      BreaksBehind(items, was, now[1..], now[0].key);
      SortedEditsBefore(items, was, now[1..], e);
      var one, below := [Insert([], now[0].key)], Under(now[0].key, EditsRows([], now[0].children));
      ThreeTimes(one, below, EditsSorted(was, now[1..]), e);
      ThreeTimes(one, below, StopSorted(items, was, now[1..]).edits, e);
      TimesOne(Insert([], now[0].key), e);
      TimesUnder(now[0].key, EditsRows([], now[0].children), e);
    } else if Removes(was, now) {
      BreaksBehind(items[1..], was[1..], now, was[0].key);
      SortedEditsBefore(items[1..], was[1..], now, e);
      TimesAppend([Remove([], was[0].key)], EditsSorted(was[1..], now), e);
      TimesAppend([Remove([], was[0].key)], StopSorted(items[1..], was[1..], now).edits, e);
      TimesOne(Remove([], was[0].key), e);
    } else {
      MatchedEditsBefore(items, was, now, e);
    }
  }

  lemma {:induction false} MatchedEditsBefore(items: seq<ItemRow>, was: seq<TreeRow>, now: seq<TreeRow>, e: Edit)
    requires Aligned(items, was) && StrictTree(was) && DistinctTree(now) && StrictlyAscending(now)
    requires BreaksSorted(items, was, now) && was != [] && now != [] && was[0].key == now[0].key
    ensures Times(StopSorted(items, was, now).edits, e)
            == if Before(Place(e), BreakPathSorted(items, was, now)) then Times(EditsSorted(was, now), e) else 0
    decreases Size(now), 0, |was|, 0
  {
    hide StrictTree, DistinctTree, Times, Aligned, Under, UpdatedCells, NewCells, MergeItems, MergeRows, RowBreaks, Breaks,
      Stop, BreakPath, EditsRows, EditsSorted;
    StrictIsAscending(was);
    StrictTail(was);
    AlignedTail(items, was);
    DistinctTail(now);
    EditsHere(was, now, e);
    var k, all := was[0].key, EditsRows(was[0].children, now[0].children);
    if RowBreaks(items[0].cells, was[0].columns, now[0].columns) {
      NoTimes(e);
      BeforeFirst(Place(e), k, []);
    } else if Breaks(items[0].children, was[0].children, now[0].children) {
      var p := BreakPath(items[0].children, was[0].children, now[0].children);
      BreaksThere(items[0].children, was[0].children, now[0].children);
      BeforeFirst(Place(e), k, p);
      TimesUnder(k, Stop(items[0].children, was[0].children, now[0].children).edits, e);
      if e.path != [] && e.path[0] == k {
        assert Place(e)[1..] == Place(e.(path := e.path[1..]));
        EditsBefore(items[0].children, was[0].children, now[0].children, e.(path := e.path[1..]));
      }
    } else {
      BreaksBehind(items[1..], was[1..], now[1..], k);
      SortedEditsBefore(items[1..], was[1..], now[1..], e);
      TimesAppend(Under(k, all), StopSorted(items[1..], was[1..], now[1..]).edits, e);
    }
  }

  lemma NoTimes(e: Edit)
    ensures Times([], e) == 0
  {
  }

  /** Before a path that starts with k. */
  lemma BeforeFirst(q: seq<int>, k: int, p: seq<int>)
    requires q != []
    ensures ([k] + p)[1..] == p
    ensures Before(q, [k] + p) <==> q[0] < k || (q[0] == k && Before(q[1..], p))
    ensures |q| == 1 && p != [] ==> Before(q[1..], p)
  {
    assert ([k] + p)[1..] == p;
  }

  /** The edits where the first rows match. */
  lemma EditsHere(was: seq<TreeRow>, now: seq<TreeRow>, e: Edit)
    requires StrictTree(was) && DistinctTree(now) && StrictlyAscending(now)
    requires was != [] && now != [] && was[0].key == now[0].key
    ensures var k, all := was[0].key, EditsRows(was[0].children, now[0].children);
            && Times(Under(k, all), e) == (if e.path != [] && e.path[0] == k then Times(all, e.(path := e.path[1..])) else 0)
            && Times(EditsSorted(was, now), e) == Times(Under(k, all), e) + Times(EditsSorted(was[1..], now[1..]), e)
            && (Place(e)[0] <= k ==> Times(EditsSorted(was[1..], now[1..]), e) == 0)
  {
    hide StrictTree, DistinctTree, Times, Under, EditsRows, EditsSorted;
    StrictIsAscending(was);
    StrictTail(was);
    DistinctTail(now);
    var k, all := was[0].key, EditsRows(was[0].children, now[0].children);
    EditsMatched(was, now);
    TimesAppend(Under(k, all), EditsSorted(was[1..], now[1..]), e);
    TimesUnder(k, all, e);
    if Place(e)[0] <= k { NoEditBefore(was[1..], now[1..], e); }
  }

  /** A merge that raised was carried out up to p, and no further: a row breaks there and none before it; what
      every path shows; and which edits were made. */
  ghost predicate CarriedOutTo(items: seq<ItemRow>, was: seq<TreeRow>, now: seq<TreeRow>, s: Stopped, p: seq<int>)
    requires Aligned(items, was)
  {
    && Aligned(s.items, s.rows)
    && BreaksAt(items, was, now, p) && p != []
    && (forall q :: q != [] && BreaksAt(items, was, now, q) ==> q == p || Before(p, q))
    && (forall q :: q != [] ==> Shown(s.items, s.rows, q) == StoppedFace(items, was, now, p, q))
    && (forall e :: Times(s.edits, e) == if Before(Place(e), p) then Times(EditsRows(was, now), e) else 0)
  }

  /** Every merge that raises is carried out exactly up to the first row that breaks. */
  lemma StopsAtFirstBreak(items: seq<ItemRow>, was: seq<TreeRow>, now: seq<TreeRow>)
    requires Aligned(items, was) && StrictTree(was) && DistinctTree(now) && Breaks(items, was, now)
    ensures exists p :: CarriedOutTo(items, was, now, Stop(items, was, now), p)
  {
    hide StrictTree, DistinctTree, Breaks, BreaksAt, BreakPath, Stop, StoppedFace, Shown, Before, Place, Times, EditsRows;
    var s, p := Stop(items, was, now), BreakPath(items, was, now);
    StopAligned(items, was, now);
    BreaksThere(items, was, now);
    forall q | q != [] && BreaksAt(items, was, now, q) ensures q == p || Before(p, q) {
      BreaksThereFirst(items, was, now, q);
    }
    forall q | q != [] ensures Shown(s.items, s.rows, q) == StoppedFace(items, was, now, p, q) {
      StoppedAt(items, was, now, q);
    }
    forall e ensures Times(s.edits, e) == if Before(Place(e), p) then Times(EditsRows(was, now), e) else 0 {
      EditsBefore(items, was, now, e);
    }
    assert CarriedOutTo(items, was, now, s, p);
  }
}
