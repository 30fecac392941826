/** A replay against the server: the state it starts with, over what a run saved, compared with what a
    peer that joins at that moment is told. The server files messages in the order in which it handles
    them; the replay reads them in the order of their ids, in which they arrived. On one connection the
    two orders are the same, across connections they need not be. */
module ReplayedRuns {
  import opened Wrappers
  import opened ApexTypes
  import opened ApexRouting
  import opened ApexLogs
  import opened ApexRuns
  import opened ApexTheorems
  import opened SavedRuns
  import opened Sequences
  import R = Replaying
  import S = Saving
  import T = SavingTheorems

  // ----- the rows of a run

  /** The row of a saved message, as the replay reads it: without error and with a node id. Its content is
      identified by the id of the message. */
  function RowOf(m: Message): Option<R.Row> {
    if m.error.Some? || m.parsed.None? || m.parsed.value.nodeId.None? then None
    else
      var n, body := m.parsed.value.nodeId.value, m.parsed.value.body;
      Some(match body
           case Registration(_) => R.Row(m.receivedAt, R.RegistrationType, n, false, m.id)
           case StatusReport(_, isUnchanged) => R.Row(m.receivedAt, R.StatusType, n, isUnchanged, m.id)
           case _ => R.Row(m.receivedAt, R.OtherType, n, false, m.id))
  }

  /** The rows that saving these items adds, in the order in which the messages were handled. */
  function RowsOf(items: seq<S.Item>): seq<R.Row> {
    if items == [] then []
    else
      var last := items[|items| - 1];
      var row := if last.Received? then RowOf(last.msg) else None;
      RowsOf(items[..|items| - 1]) + (if row.Some? then [row.value] else [])
  }

  lemma {:induction false} RowsAppend(a: seq<S.Item>, b: seq<S.Item>)
    ensures RowsOf(a + b) == RowsOf(a) + RowsOf(b)
    decreases |b|
  {
    if b == [] {
      assert a + b == a;
    } else {
      assert (a + b)[..|a + b| - 1] == a + b[..|b| - 1];
      RowsAppend(a, b[..|b| - 1]);
    }
  }

  /** What a row says about a node, to a reader for whom a registration starts anew. */
  datatype Current = Current(registration: R.Data, recentNew: Option<R.Data>, recentUnchanged: Option<R.Data>)

  function CurrentStep(c: Option<Current>, r: R.Row, n: NodeId): Option<Current> {
    if r.nodeId != n then c
    else
      match R.KindOf(r)
      case Some(Registration) => Some(Current(r.data, None, None))
      case Some(New) => if c.None? then None else Some(c.value.(recentNew := Some(r.data), recentUnchanged := None))
      case Some(Unchanged) => if c.None? then None else Some(c.value.(recentUnchanged := Some(r.data)))
      case None => c
  }

  function CurrentOf(rows: seq<R.Row>, n: NodeId): Option<Current> {
    if rows == [] then None else CurrentStep(CurrentOf(rows[..|rows| - 1], n), rows[|rows| - 1], n)
  }

  predicate Reported(rows: seq<R.Row>, n: NodeId, kind: R.Kind) {
    exists i :: 0 <= i < |rows| && R.IsKind(rows[i], R.Key(n, kind))
  }

  lemma ReportedSnoc(rows: seq<R.Row>, r: R.Row, n: NodeId, kind: R.Kind)
    ensures Reported(rows + [r], n, kind) <==> Reported(rows, n, kind) || R.IsKind(r, R.Key(n, kind))
  {
    if Reported(rows, n, kind) {
      var i :| 0 <= i < |rows| && R.IsKind(rows[i], R.Key(n, kind));
      assert (rows + [r])[i] == rows[i];
    }
    if R.IsKind(r, R.Key(n, kind)) { assert (rows + [r])[|rows|] == r; }
  }

  /** The seed has what is current, and besides what a registration should have ended. */
  lemma {:induction false} SeedAndCurrent(rows: seq<R.Row>, n: NodeId)
    ensures R.Seed(rows, R.Key(n, R.New)).Some? <==> Reported(rows, n, R.New)
    ensures R.Seed(rows, R.Key(n, R.Unchanged)).Some? ==> Reported(rows, n, R.Unchanged)
    ensures var c := CurrentOf(rows, n);
            c.Some? ==>
              && R.Seed(rows, R.Key(n, R.Registration)) == Some(c.value.registration)
              && (c.value.recentNew.Some? ==>
                    && R.Seed(rows, R.Key(n, R.New)) == c.value.recentNew
                    && R.Seed(rows, R.Key(n, R.Unchanged)) == c.value.recentUnchanged)
  {
    if rows != [] {
      var rows0, r := rows[..|rows| - 1], rows[|rows| - 1];
      assert rows == rows0 + [r];
      SeedAndCurrent(rows0, n);
      SeedSnoc(rows0, r, n);
      ReportedSnoc(rows0, r, n, R.New);
      ReportedSnoc(rows0, r, n, R.Unchanged);
    }
  }

  lemma SeedSnoc(rows: seq<R.Row>, r: R.Row, n: NodeId)
    ensures var now := rows + [r];
            && R.Seed(now, R.Key(n, R.Registration))
               == (if R.IsKind(r, R.Key(n, R.Registration)) then Some(r.data) else R.Seed(rows, R.Key(n, R.Registration)))
            && R.Seed(now, R.Key(n, R.New))
               == (if R.IsKind(r, R.Key(n, R.New)) then Some(r.data) else R.Seed(rows, R.Key(n, R.New)))
            && R.Seed(now, R.Key(n, R.Unchanged))
               == (if R.IsKind(r, R.Key(n, R.Unchanged)) then Some(r.data)
                   else if R.IsKind(r, R.Key(n, R.New)) then None
                   else R.Seed(rows, R.Key(n, R.Unchanged)))
  {
    var now := rows + [r];
    assert now[..|rows|] == rows;
    var since := R.SinceNew(rows, n);
    assert (since + [r])[..|since|] == since;
  }

  // ----- the table

  function Insert(r: R.Row, rows: seq<R.Row>): seq<R.Row> {
    if rows == [] || r.data < rows[0].data then [r] + rows else [rows[0]] + Insert(r, rows[1..])
  }

  /** The rows in the order in which the replay reads them: that of their ids. */
  function Table(rows: seq<R.Row>): seq<R.Row> {
    if rows == [] then [] else Insert(rows[|rows| - 1], Table(rows[..|rows| - 1]))
  }

  predicate DistinctIds(rows: seq<R.Row>) {
    forall i, j :: 0 <= i < j < |rows| ==> rows[i].data != rows[j].data
  }

  predicate Reports(r: R.Row, n: NodeId) {
    r.nodeId == n && R.KindOf(r).Some?
  }

  /** The reports of a node stand in the order of their ids. */
  predicate InIdOrder(rows: seq<R.Row>, n: NodeId) {
    forall i, j :: 0 <= i < j < |rows| && Reports(rows[i], n) && Reports(rows[j], n) ==> rows[i].data < rows[j].data
  }

  predicate AllInIdOrder(rows: seq<R.Row>) {
    forall i, j :: 0 <= i < j < |rows| ==> rows[i].data < rows[j].data
  }

  lemma {:induction false} InsertSorts(r: R.Row, rows: seq<R.Row>)
    requires AllInIdOrder(rows) && forall x :: x in rows ==> x.data != r.data
    ensures AllInIdOrder(Insert(r, rows)) && forall x :: x in Insert(r, rows) <==> x == r || x in rows
  {
    if rows != [] && r.data >= rows[0].data {
      assert rows == [rows[0]] + rows[1..];
      var rest := Insert(r, rows[1..]);
      InsertSorts(r, rows[1..]);
      forall j | 0 <= j < |rest| ensures rows[0].data < rest[j].data { assert rest[j] in rest; }
    }
  }

  lemma {:induction false} TableSorts(rows: seq<R.Row>)
    requires DistinctIds(rows)
    ensures AllInIdOrder(Table(rows)) && forall x :: x in Table(rows) <==> x in rows
  {
    if rows != [] {
      var rows0, r := rows[..|rows| - 1], rows[|rows| - 1];
      assert rows == rows0 + [r];
      TableSorts(rows0);
      InsertSorts(r, Table(rows0));
    }
  }

  /** The id is that of the newest row of its kind, and of an Unchanged status newer than any New one. */
  predicate Newest(rows: seq<R.Row>, k: R.Key, d: R.Data) {
    && (exists r :: r in rows && R.IsKind(r, k) && r.data == d)
    && (forall r :: r in rows && R.IsKind(r, k) ==> r.data <= d)
    && (k.kind.Unchanged? ==> forall r :: r in rows && R.IsKind(r, R.Key(k.nodeId, R.New)) ==> r.data < d)
  }

  /** In the order of ids the seed is what is newest. */
  lemma {:induction false} SeedIsNewest(rows: seq<R.Row>, k: R.Key, d: R.Data)
    requires InIdOrder(rows, k.nodeId)
    ensures R.Seed(rows, k) == Some(d) <==> Newest(rows, k, d)
  {
    if rows != [] {
      var rows0, r := rows[..|rows| - 1], rows[|rows| - 1];
      assert rows == rows0 + [r];
      SeedIsNewest(rows0, k, d);
      SeedSnoc(rows0, r, k.nodeId);
      if Reports(r, k.nodeId) { LastIsGreatest(rows0, r, k.nodeId); }
      NewestSnoc(rows0, r, k, d);
    }
  }

  lemma LastIsGreatest(rows: seq<R.Row>, r: R.Row, n: NodeId)
    requires InIdOrder(rows + [r], n) && Reports(r, n)
    ensures forall x :: x in rows && Reports(x, n) ==> x.data < r.data
  {
    forall x | x in rows && Reports(x, n) ensures x.data < r.data {
      var i :| 0 <= i < |rows| && rows[i] == x;
      assert (rows + [r])[i] == x && (rows + [r])[|rows|] == r;
    }
  }

  lemma NewestSnoc(rows: seq<R.Row>, r: R.Row, k: R.Key, d: R.Data)
    requires Reports(r, k.nodeId) ==> forall x :: x in rows && Reports(x, k.nodeId) ==> x.data < r.data
    ensures Newest(rows + [r], k, d) <==>
              if R.IsKind(r, k) then d == r.data
              else if k.kind.Unchanged? && R.IsKind(r, R.Key(k.nodeId, R.New)) then false
              else Newest(rows, k, d)
  {
    assert forall x :: x in rows + [r] <==> x in rows || x == r;
    if R.IsKind(r, k) {
      assert r in rows + [r];
    }
  }

  /** An Unchanged status that is not in the seed, nor another one, was followed by a New one. */
  lemma {:induction false} NoSeedMeansReplaced(rows: seq<R.Row>, n: NodeId, u: R.Row)
    requires InIdOrder(rows, n) && R.Seed(rows, R.Key(n, R.Unchanged)) == None
    requires u in rows && R.IsKind(u, R.Key(n, R.Unchanged))
    ensures exists r :: r in rows && R.IsKind(r, R.Key(n, R.New)) && u.data < r.data
  {
    hide R.Seed;
    var rows0, r := rows[..|rows| - 1], rows[|rows| - 1];
    assert rows == rows0 + [r];
    SeedSnoc(rows0, r, n);
    assert u in rows0 + [r];
    if R.IsKind(r, R.Key(n, R.New)) {
      LastIsGreatest(rows0, r, n);
      assert r in rows0 + [r];
    } else {
      assert u in rows0;
      NoSeedMeansReplaced(rows0, n, u);
      var x :| x in rows0 && R.IsKind(x, R.Key(n, R.New)) && u.data < x.data;
      assert x in rows0 + [r];
    }
  }

  /** Where the reports of a node are in the order of their ids already, the table has the same seed. */
  lemma TableKeepsSeed(rows: seq<R.Row>, k: R.Key)
    requires DistinctIds(rows) && InIdOrder(rows, k.nodeId)
    ensures R.Seed(Table(rows), k) == R.Seed(rows, k)
  {
    hide Table, R.Seed, DistinctIds;
    TableSorts(rows);
    forall d: R.Data ensures R.Seed(Table(rows), k) == Some(d) <==> R.Seed(rows, k) == Some(d) {
      SeedIsNewest(rows, k, d);
      SeedIsNewest(Table(rows), k, d);
    }
    var a, b := R.Seed(Table(rows), k), R.Seed(rows, k);
    if a.Some? { assert b == Some(a.value); }
    if b.Some? { assert a == Some(b.value); }
  }

  // ----- what is current in the rows is what the shared data hold

  /** No connection but a child's has saved a registration or a status of the node. */
  predicate OnlyChildrenReport(cfg: Config, evs: seq<Event>, n: NodeId) {
    evs == [] ||
    var evs0, ev := evs[..|evs| - 1], evs[|evs| - 1];
    var st := Run(cfg, INITIAL, evs0);
    && OnlyChildrenReport(cfg, evs0, n)
    && (ev.Receive? && ev.w !in st.children ==>
          var row := RowOf(ApexTheorems.Received(cfg, st, ev.w, ev.m));
          row.Some? ==> row.value.nodeId != n || R.KindOf(row.value).None?)
  }

  /** The rows agree with the shared data about the node, and hold an Unchanged status of it only with a
      New one. */
  ghost predicate Agrees(rows: seq<R.Row>, st: State, n: NodeId) {
    && (n in st.shared.registered ==>
          var i := st.shared.registered[n];
          CurrentOf(rows, n) == Some(Current(i.registration.id, IdOf(i.recentNew), IdOf(i.recentUnchanged))))
    && (Reported(rows, n, R.Unchanged) ==> Reported(rows, n, R.New))
  }

  /** A message accepted from a child changes what is current as it changes a reader's view. */
  lemma RowStep(c: Option<Current>, v: Option<NodeView>, m: Message, n: NodeId, k: NodeId)
    requires m.error.None? && m.parsed.Some? && m.parsed.value.nodeId == Some(k)
    requires v.Some? ==> c == Some(Current(v.value.registration.id, IdOf(v.value.recentNew), IdOf(v.value.recentUnchanged)))
    ensures RowOf(m).Some?
    ensures var v', c' := ViewStep(v, Forward(FromChild, ContentOf(m)), n), CurrentStep(c, RowOf(m).value, n);
            v'.Some? ==> c' == Some(Current(v'.value.registration.id, IdOf(v'.value.recentNew), IdOf(v'.value.recentUnchanged)))
  {
  }

  lemma CurrentSnoc(rows: seq<R.Row>, r: R.Row, n: NodeId)
    ensures CurrentOf(rows + [r], n) == CurrentStep(CurrentOf(rows, n), r, n)
  {
    assert (rows + [r])[..|rows|] == rows;
  }

  lemma {:induction false} CurrentIsReported(rows: seq<R.Row>, n: NodeId)
    ensures CurrentOf(rows, n).Some? && CurrentOf(rows, n).value.recentNew.Some? ==> Reported(rows, n, R.New)
  {
    if rows != [] {
      var rows0, r := rows[..|rows| - 1], rows[|rows| - 1];
      assert rows == rows0 + [r];
      CurrentIsReported(rows0, n);
      ReportedSnoc(rows0, r, n, R.New);
    }
  }

  lemma ChildAgrees(cfg: Config, st: State, w: Writer, m: Message, rows: seq<R.Row>, n: NodeId)
    requires Inv(st) && w in st.children && Agrees(rows, st, n)
    ensures var r := ApexTheorems.Received(cfg, st, w, m);
            Agrees(if RowOf(r).Some? then rows + [RowOf(r).value] else rows, ReceiveStep(cfg, st, w, m), n)
  {
    hide Inv, ChildMessage, ChildInner, TableStep, CurrentOf, Reported;
    var s, c := st.shared, st.children[w];
    var i, o := ChildInner(cfg, s, w, c, m), ChildMessage(cfg, s, w, c, m);
    ChildMessageShape(cfg, s, w, c, m);
    ChildKeepsId(cfg, s, w, c, m);
    if i.msg.error.None? {
      ChildTable(cfg, st, w, m);
      AcceptedAgrees(st, w, i, o.msg, rows, n);
    }
  }

  lemma AcceptedAgrees(st: State, w: Writer, i: Outcome<ChildState>, m: Message, rows: seq<R.Row>, n: NodeId)
    requires Inv(st) && w in st.children && Agrees(rows, st, n)
    requires i.msg.parsed.Some? && i.conn.nodeId.Some? && TableStep(st.shared, w, st.children[w], i)
    requires i.msg.parsed.value.nodeId == i.conn.nodeId
    requires m.error.None? && m.parsed == i.msg.parsed && m.id == i.msg.id
    ensures RowOf(m).Some? && Agrees(rows + [RowOf(m).value], st.(shared := i.shared), n)
  {
    hide Informed, AllGrammar, Roles, Accepts, Reported, CurrentOf;
    var s, k := st.shared, i.conn.nodeId.value;
    var v := if n in s.registered then Some(Snapshot(s.registered[n])) else None;
    RowStep(CurrentOf(rows, n), v, m, n, k);
    var r := RowOf(m).value;
    CurrentSnoc(rows, r, n);
    if k != n { assert n in i.shared.registered ==> i.shared.registered[n] == s.registered[n]; }
    AcceptedIsReported(s, w, st.children[w], i, m, rows, n);
  }

  lemma AcceptedIsReported(
    s: Shared, w: Writer, c: ChildState, i: Outcome<ChildState>, m: Message, rows: seq<R.Row>, n: NodeId)
    requires i.msg.parsed.Some? && i.conn.nodeId.Some? && TableStep(s, w, c, i)
    requires i.msg.parsed.value.nodeId == i.conn.nodeId
    requires RowOf(m).Some? && m.parsed == i.msg.parsed
    requires Reported(rows, n, R.Unchanged) ==> Reported(rows, n, R.New)
    requires n in s.registered && s.registered[n].recentNew.Some? ==>
               CurrentOf(rows, n).Some? && CurrentOf(rows, n).value.recentNew.Some?
    ensures Reported(rows + [RowOf(m).value], n, R.Unchanged) ==> Reported(rows + [RowOf(m).value], n, R.New)
  {
    hide Reported, CurrentOf, ViewStep, SensorValid;
    var r := RowOf(m).value;
    ReportedSnoc(rows, r, n, R.New);
    ReportedSnoc(rows, r, n, R.Unchanged);
    CurrentIsReported(rows, n);
  }

  lemma StepAgrees(cfg: Config, evs: seq<Event>, ev: Event, stamp: Stamp, rows: seq<R.Row>, n: NodeId)
    requires OnlyChildrenReport(cfg, evs + [ev], n)
    requires Inv(Run(cfg, INITIAL, evs)) && Agrees(rows, Run(cfg, INITIAL, evs), n)
    ensures var st := Run(cfg, INITIAL, evs);
            Agrees(rows + RowsOf(Queued(cfg, st, ev, stamp)), Step(cfg, st, ev), n)
  {
    hide Inv, Agrees, CurrentOf, Reported;
    var st := Run(cfg, INITIAL, evs);
    var items := Queued(cfg, st, ev, stamp);
    assert (evs + [ev])[..|evs|] == evs;
    if items != [] { OneRow(items[0]); }
    assert rows + [] == rows;
    match ev
    case Receive(w, m) =>
      var r := ApexTheorems.Received(cfg, st, w, m);
      if IsOpen(st, w) && !SavedRuns.Saved(cfg, st, w, m) { UnsavedHasNoRow(cfg, st, w, m); }
      if w in st.children {
        ChildAgrees(cfg, st, w, m, rows, n);
      } else {
        OtherReceives(cfg, st, w, m);
        OtherAgrees(rows, st, ReceiveStep(cfg, st, w, m), RowOf(r), n);
        UnopenedAgrees(cfg, st, w, m, rows, n);
      }
    case _ => NoRowAgrees(cfg, st, ev, rows, n);
  }

  lemma OneRow(item: S.Item)
    ensures RowsOf([item]) == if item.Received? && RowOf(item.msg).Some? then [RowOf(item.msg).value] else []
  {
    assert [item][..0] == [];
  }

  lemma UnsavedHasNoRow(cfg: Config, st: State, w: Writer, m: Message)
    requires IsOpen(st, w) && !SavedRuns.Saved(cfg, st, w, m)
    ensures RowOf(ApexTheorems.Received(cfg, st, w, m)).None?
  {
    hide ChildInner;
  }

  lemma OtherAgrees(rows: seq<R.Row>, st: State, st': State, row: Option<R.Row>, n: NodeId)
    requires Agrees(rows, st, n) && st'.shared.registered == st.shared.registered
    requires row.Some? ==> row.value.nodeId != n || R.KindOf(row.value).None?
    ensures Agrees(rows + (if row.Some? then [row.value] else []), st', n)
  {
    assert rows + [] == rows;
    if row.Some? {
      CurrentSnoc(rows, row.value, n);
      ReportedSnoc(rows, row.value, n, R.New);
      ReportedSnoc(rows, row.value, n, R.Unchanged);
    }
  }

  /** A message for a connection that is not open goes nowhere. */
  lemma UnopenedAgrees(cfg: Config, st: State, w: Writer, m: Message, rows: seq<R.Row>, n: NodeId)
    requires Agrees(rows, st, n)
    ensures !IsOpen(st, w) ==> Agrees(rows, ReceiveStep(cfg, st, w, m), n)
  {
  }

  lemma NoRowAgrees(cfg: Config, st: State, ev: Event, rows: seq<R.Row>, n: NodeId)
    requires Agrees(rows, st, n) && !ev.Receive?
    ensures Agrees(rows, Step(cfg, st, ev), n)
  {
  }

  lemma {:induction false} RowsAgree(cfg: Config, evs: seq<Event>, stamps: seq<Stamp>, n: NodeId)
    requires |stamps| == |evs| && OnlyChildrenReport(cfg, evs, n)
    ensures Agrees(RowsOf(QueuedBy(cfg, evs, stamps)), Run(cfg, INITIAL, evs), n)
  {
    hide Agrees;
    if evs == [] {
      NothingAgrees(n);
    } else {
      var k := |evs| - 1;
      assert evs == evs[..k] + [evs[k]];
      var before, items := QueuedBy(cfg, evs[..k], stamps[..k]), Queued(cfg, Run(cfg, INITIAL, evs[..k]), evs[k], stamps[k]);
      RowsAgree(cfg, evs[..k], stamps[..k], n);
      Reachable(cfg, evs[..k]);
      StepAgrees(cfg, evs[..k], evs[k], stamps[k], RowsOf(before), n);
      RowsAppend(before, items);
    }
  }

  lemma NothingAgrees(n: NodeId)
    ensures Agrees([], INITIAL, n)
  {
  }

  // ----- the shared data hold what was saved

  predicate Holds(rows: seq<R.Row>, k: R.Key, d: R.Data) {
    exists r :: r in rows && R.IsKind(r, k) && r.data == d
  }

  predicate HoldsSensor(rows: seq<R.Row>, i: Sensor, n: NodeId) {
    && Holds(rows, R.Key(n, R.Registration), i.registration.id)
    && (i.recentNew.Some? ==> Holds(rows, R.Key(n, R.New), i.recentNew.value.id))
    && (i.recentUnchanged.Some? ==> Holds(rows, R.Key(n, R.Unchanged), i.recentUnchanged.value.id))
  }

  predicate HoldsNode(rows: seq<R.Row>, st: State, n: NodeId) {
    n in st.shared.registered ==> HoldsSensor(rows, st.shared.registered[n], n)
  }

  lemma HoldsMore(rows: seq<R.Row>, more: seq<R.Row>, i: Sensor, n: NodeId)
    requires HoldsSensor(rows, i, n)
    ensures HoldsSensor(rows + more, i, n)
  {
    assert forall r :: r in rows ==> r in rows + more;
  }

  lemma ChildHolds(cfg: Config, st: State, w: Writer, m: Message, rows: seq<R.Row>, n: NodeId)
    requires Inv(st) && w in st.children && HoldsNode(rows, st, n)
    ensures var r := ApexTheorems.Received(cfg, st, w, m);
            HoldsNode(if RowOf(r).Some? then rows + [RowOf(r).value] else rows, ReceiveStep(cfg, st, w, m), n)
  {
    hide Inv, ChildMessage, ChildInner, TableStep, HoldsSensor;
    var s, c := st.shared, st.children[w];
    var i, o := ChildInner(cfg, s, w, c, m), ChildMessage(cfg, s, w, c, m);
    ChildMessageShape(cfg, s, w, c, m);
    ChildKeepsId(cfg, s, w, c, m);
    if i.msg.error.None? {
      ChildTable(cfg, st, w, m);
      AcceptedHolds(s, w, c, i, o.msg, rows, n);
    }
  }

  lemma AcceptedHolds(s: Shared, w: Writer, c: ChildState, i: Outcome<ChildState>, m: Message, rows: seq<R.Row>, n: NodeId)
    requires n in s.registered ==> HoldsSensor(rows, s.registered[n], n)
    requires i.msg.parsed.Some? && i.conn.nodeId.Some? && TableStep(s, w, c, i)
    requires i.msg.parsed.value.nodeId == i.conn.nodeId
    requires m.error.None? && m.parsed == i.msg.parsed && m.id == i.msg.id
    ensures RowOf(m).Some?
    ensures n in i.shared.registered ==> HoldsSensor(rows + [RowOf(m).value], i.shared.registered[n], n)
  {
    hide Accepts;
    var r := RowOf(m).value;
    assert r in rows + [r];
    if n in s.registered { HoldsMore(rows, [r], s.registered[n], n); }
  }

  lemma StepHolds(cfg: Config, st: State, ev: Event, stamp: Stamp, rows: seq<R.Row>, n: NodeId)
    requires Inv(st) && HoldsNode(rows, st, n)
    ensures HoldsNode(rows + RowsOf(Queued(cfg, st, ev, stamp)), Step(cfg, st, ev), n)
  {
    hide Inv, HoldsSensor;
    var items := Queued(cfg, st, ev, stamp);
    if items != [] { OneRow(items[0]); }
    assert rows + [] == rows;
    match ev
    case Receive(w, m) =>
      if IsOpen(st, w) && !SavedRuns.Saved(cfg, st, w, m) { UnsavedHasNoRow(cfg, st, w, m); }
      if w in st.children {
        ChildHolds(cfg, st, w, m, rows, n);
      } else {
        OtherReceives(cfg, st, w, m);
        if n in st.shared.registered { HoldsMore(rows, RowsOf(items), st.shared.registered[n], n); }
      }
    case Close(w) => if n in CloseStep(st, w).shared.registered { ClosedSensors(st, w, n); }
    case _ =>
  }

  lemma {:induction false} RowsHold(cfg: Config, evs: seq<Event>, stamps: seq<Stamp>, n: NodeId)
    requires |stamps| == |evs|
    ensures HoldsNode(RowsOf(QueuedBy(cfg, evs, stamps)), Run(cfg, INITIAL, evs), n)
  {
    hide HoldsNode;
    if evs == [] {
      NothingHolds(n);
    } else {
      var k := |evs| - 1;
      var before, items := QueuedBy(cfg, evs[..k], stamps[..k]), Queued(cfg, Run(cfg, INITIAL, evs[..k]), evs[k], stamps[k]);
      RowsHold(cfg, evs[..k], stamps[..k], n);
      Reachable(cfg, evs[..k]);
      StepHolds(cfg, Run(cfg, INITIAL, evs[..k]), evs[k], stamps[k], RowsOf(before), n);
      RowsAppend(before, items);
    }
  }

  lemma NothingHolds(n: NodeId)
    ensures HoldsNode([], INITIAL, n)
  {
  }

  // ----- ids

  lemma NewRowId(cfg: Config, st: State, ev: Event, stamp: Stamp)
    ensures var more := RowsOf(Queued(cfg, st, ev, stamp));
            |more| <= 1 && forall r :: r in more ==> ev.Receive? && r.data == ev.m.id
  {
    hide Saved, RowOf, ApexTheorems.Received;
    var items := Queued(cfg, st, ev, stamp);
    if items != [] { OneRow(items[0]); }
    if ev.Receive? {
      ReceivedKeepsId(cfg, st, ev.w, ev.m);
      RowHasId(ApexTheorems.Received(cfg, st, ev.w, ev.m));
    }
  }

  lemma RowHasId(m: Message)
    ensures RowOf(m).Some? ==> RowOf(m).value.data == m.id
  {
  }

  lemma {:induction false} RowIds(cfg: Config, evs: seq<Event>, stamps: seq<Stamp>)
    requires |stamps| == |evs| && FreshIds(evs)
    ensures DistinctIds(RowsOf(QueuedBy(cfg, evs, stamps)))
    ensures forall r :: r in RowsOf(QueuedBy(cfg, evs, stamps)) ==> r.data in IdsOf(evs)
  {
    hide Queued, DistinctIds, Run;
    if evs == [] {
      NothingIsDistinct();
    } else {
      var k := |evs| - 1;
      var st, ev, ids := Run(cfg, INITIAL, evs[..k]), evs[k], IdsOf(evs[..k]);
      var before, items := QueuedBy(cfg, evs[..k], stamps[..k]), Queued(cfg, st, ev, stamps[k]);
      assert ids == IdsOf(evs)[..|ids|];
      RowIds(cfg, evs[..k], stamps[..k]);
      RowsAppend(before, items);
      NewRowId(cfg, st, ev, stamps[k]);
      if ev.Receive? { assert IdsOf(evs)[|ids|] == ev.m.id && ev.m.id !in ids; }
      NewIdIsDistinct(RowsOf(before), RowsOf(items), ids);
    }
  }

  lemma NothingIsDistinct()
    ensures DistinctIds([])
  {
  }

  lemma NewIdIsDistinct(rows: seq<R.Row>, more: seq<R.Row>, ids: seq<nat>)
    requires DistinctIds(rows) && (forall r :: r in rows ==> r.data in ids)
    requires |more| <= 1 && forall r :: r in more ==> r.data !in ids
    ensures DistinctIds(rows + more)
  {
    forall i | 0 <= i < |rows| ensures rows[i].data in ids { assert rows[i] in rows; }
    if more != [] { assert more[0] in more; }
  }

  // ----- what the replay selects

  /** The rows that the query gives: those of the messages table without an error, by their ids. */
  ghost predicate Selected(rows: seq<R.Row>, db: S.Db) {
    && AllInIdOrder(rows)
    && forall r :: r in rows <==> exists p :: p in db.messages && RowOf(db.messages[p].msg) == Some(r)
  }

  lemma {:induction false} RowsOfElements(items: seq<S.Item>, r: R.Row)
    ensures r in RowsOf(items) <==> exists i :: i in items && i.Received? && RowOf(i.msg) == Some(r)
  {
    hide RowOf;
    if items != [] {
      var items0, last := items[..|items| - 1], items[|items| - 1];
      assert items == items0 + [last];
      RowsOfElements(items0, r);
      if r in RowsOf(items0) {
        var i :| i in items0 && i.Received? && RowOf(i.msg) == Some(r);
        assert i in items;
      }
      if last.Received? && RowOf(last.msg) == Some(r) { assert last in items; }
    }
  }

  lemma {:induction false} SameTable(a: seq<R.Row>, b: seq<R.Row>)
    requires AllInIdOrder(a) && AllInIdOrder(b) && forall r :: r in a <==> r in b
    ensures a == b
    decreases |a|
  {
    if a == [] {
      HasMember(b);
    } else {
      assert a[0] in b && b != [] && b[0] in a;
      var i :| 0 <= i < |b| && b[i] == a[0];
      var j :| 0 <= j < |a| && a[j] == b[0];
      assert a[0] == b[0];
      forall r ensures r in a[1..] <==> r in b[1..] {
        InRest(a, r);
        InRest(b, r);
      }
      SameTable(a[1..], b[1..]);
    }
  }

  lemma HasMember(rows: seq<R.Row>)
    ensures rows == [] || exists r :: r in rows
  {
    if rows != [] { assert rows[0] in rows; }
  }

  lemma InRest(rows: seq<R.Row>, r: R.Row)
    requires AllInIdOrder(rows) && rows != []
    ensures r in rows[1..] <==> r in rows && r != rows[0]
  {
    if r in rows && r != rows[0] {
      var i :| 0 <= i < |rows| && rows[i] == r;
      assert rows[1..][i - 1] == r;
    }
    if r in rows[1..] {
      var i :| 0 <= i < |rows[1..]| && rows[1..][i] == r;
      assert rows[i + 1] == r && rows[0].data < r.data;
    }
  }

  lemma SelectedFromItems(db: S.Db, items: seq<S.Item>, r: R.Row)
    requires T.AllRows(db, items)
    ensures (exists p :: p in db.messages && RowOf(db.messages[p].msg) == Some(r)) <==> r in RowsOf(items)
  {
    hide RowOf;
    RowsOfElements(items, r);
    if r in RowsOf(items) {
      var i :| i in items && i.Received? && RowOf(i.msg) == Some(r);
      T.KnownIds(items, i);
      assert T.RowOfItem(db, i);
      assert i.msg.id in db.messages;
    }
    if exists p :: p in db.messages && RowOf(db.messages[p].msg) == Some(r) {
      var p :| p in db.messages && RowOf(db.messages[p].msg) == Some(r);
      assert p in T.Stored(items);
      var i :| i in items && i.Received? && i.msg.id == p;
      assert T.RowOfItem(db, i);
    }
  }

  /** What the replay selects from the saved messages are the rows of the run. */
  lemma SelectsRows(cfg: Config, evs: seq<Event>, stamps: seq<Stamp>, rows: seq<R.Row>)
    requires |stamps| == |evs| && FreshIds(evs) && Selected(rows, S.ApplyAll(S.EMPTY, QueuedBy(cfg, evs, stamps)))
    ensures rows == Table(RowsOf(QueuedBy(cfg, evs, stamps)))
    ensures forall r :: r in rows <==> r in RowsOf(QueuedBy(cfg, evs, stamps))
  {
    hide Table, QueuedBy, T.AllRows, RowsOf, RowOf, DistinctIds, AllInIdOrder;
    var items := QueuedBy(cfg, evs, stamps);
    QueuedIsOrderly(cfg, evs, stamps);
    T.SavedRows(items);
    RowIds(cfg, evs, stamps);
    TableSorts(RowsOf(items));
    forall r ensures r in rows <==> r in Table(RowsOf(items)) {
      SelectedFromItems(S.ApplyAll(S.EMPTY, items), items, r);
    }
    SameTable(rows, Table(RowsOf(items)));
  }

  // ----- the seed against the server

  /** Nothing that has been reported about the node has a greater id than what the shared data hold, and
      what they hold is in the order of ids: an Unchanged status they lack came before the New one. */
  predicate NothingNewer(rows: seq<R.Row>, i: Sensor, n: NodeId) {
    && (forall r :: r in rows && R.IsKind(r, R.Key(n, R.Registration)) ==> r.data <= i.registration.id)
    && (forall r :: r in rows && R.IsKind(r, R.Key(n, R.New)) ==> i.recentNew.Some? && r.data <= i.recentNew.value.id)
    && (forall r :: r in rows && R.IsKind(r, R.Key(n, R.Unchanged)) ==>
          match i.recentUnchanged
          case Some(u) => r.data <= u.id
          case None => i.recentNew.Some? && r.data < i.recentNew.value.id)
    && (i.recentUnchanged.Some? && i.recentNew.Some? ==> i.recentNew.value.id < i.recentUnchanged.value.id)
  }

  /** The seed is what the shared data hold. */
  predicate SeedIs(rows: seq<R.Row>, i: Sensor, n: NodeId) {
    && R.Seed(rows, R.Key(n, R.Registration)) == Some(i.registration.id)
    && R.Seed(rows, R.Key(n, R.New)) == IdOf(i.recentNew)
    && R.Seed(rows, R.Key(n, R.Unchanged)) == IdOf(i.recentUnchanged)
  }

  lemma HeldIsNewest(rows: seq<R.Row>, k: R.Key, d: R.Data)
    requires InIdOrder(rows, k.nodeId) && Holds(rows, k, d)
    ensures R.Seed(rows, k) == Some(d) <==>
              && (forall r :: r in rows && R.IsKind(r, k) ==> r.data <= d)
              && (k.kind.Unchanged? ==> forall r :: r in rows && R.IsKind(r, R.Key(k.nodeId, R.New)) ==> r.data < d)
  {
    hide R.Seed;
    SeedIsNewest(rows, k, d);
  }

  lemma NewSeedNone(rows: seq<R.Row>, n: NodeId)
    requires InIdOrder(rows, n)
    ensures R.Seed(rows, R.Key(n, R.New)) == None <==> forall r :: r in rows ==> !R.IsKind(r, R.Key(n, R.New))
  {
    hide R.Seed;
    SeedAndCurrent(rows, n);
    if Reported(rows, n, R.New) {
      var i :| 0 <= i < |rows| && R.IsKind(rows[i], R.Key(n, R.New));
      assert rows[i] in rows;
    }
  }

  /** With no Unchanged status in the shared data: the seed has none either if and only if a New one came
      after each. */
  lemma UnchangedSeedNone(rows: seq<R.Row>, n: NodeId, report: Option<Content>)
    requires InIdOrder(rows, n) && R.Seed(rows, R.Key(n, R.New)) == IdOf(report)
    ensures R.Seed(rows, R.Key(n, R.Unchanged)) == None <==>
              forall r :: r in rows && R.IsKind(r, R.Key(n, R.Unchanged)) ==> report.Some? && r.data < report.value.id
  {
    hide R.Seed;
    var k := R.Key(n, R.Unchanged);
    if report.Some? { SeedIsNewest(rows, R.Key(n, R.New), report.value.id); } else { NewSeedNone(rows, n); }
    if R.Seed(rows, k).Some? {
      SeedIsNewest(rows, k, R.Seed(rows, k).value);
    } else {
      forall u | u in rows && R.IsKind(u, k) ensures report.Some? && u.data < report.value.id {
        NoSeedMeansReplaced(rows, n, u);
      }
    }
  }

  lemma SeedIsExactlyWhen(rows: seq<R.Row>, i: Sensor, n: NodeId)
    requires InIdOrder(rows, n) && HoldsSensor(rows, i, n)
    ensures SeedIs(rows, i, n) <==> NothingNewer(rows, i, n)
  {
    hide R.Seed, InIdOrder, Holds;
    HeldIsNewest(rows, R.Key(n, R.Registration), i.registration.id);
    if i.recentNew.Some? { HeldIsNewest(rows, R.Key(n, R.New), i.recentNew.value.id); } else { NewSeedNone(rows, n); }
    if R.Seed(rows, R.Key(n, R.New)) == IdOf(i.recentNew) {
      if i.recentUnchanged.Some? {
        HeldIsNewest(rows, R.Key(n, R.Unchanged), i.recentUnchanged.value.id);
        if i.recentNew.Some? { NewBefore(rows, n, i.recentNew.value.id, i.recentUnchanged.value.id); }
      } else {
        UnchangedSeedNone(rows, n, i.recentNew);
      }
    }
  }

  /** All New statuses come before an id if and only if the newest does. */
  lemma NewBefore(rows: seq<R.Row>, n: NodeId, report: R.Data, d: R.Data)
    requires InIdOrder(rows, n) && R.Seed(rows, R.Key(n, R.New)) == Some(report)
    ensures (forall r :: r in rows && R.IsKind(r, R.Key(n, R.New)) ==> r.data < d) <==> report < d
  {
    hide R.Seed;
    SeedIsNewest(rows, R.Key(n, R.New), report);
  }

  /** The state with which a replay of what a run saved starts is, for a registered node, what a peer that
      joins then is told, if and only if no saved message about the node has a greater id than the one of
      its kind that the shared data hold, and these are in the order of ids themselves. */
  lemma SeedIsReplayedExactlyWhen(cfg: Config, evs: seq<Event>, stamps: seq<Stamp>, rows: seq<R.Row>, n: NodeId)
    requires |stamps| == |evs| && FreshIds(evs) && Selected(rows, S.ApplyAll(S.EMPTY, QueuedBy(cfg, evs, stamps)))
    requires n in Run(cfg, INITIAL, evs).shared.registered
    ensures var i := Run(cfg, INITIAL, evs).shared.registered[n];
            SeedIs(rows, i, n) <==> NothingNewer(rows, i, n)
  {
    hide Table, SeedIs, QueuedBy, Run, Selected;
    var handled, i := RowsOf(QueuedBy(cfg, evs, stamps)), Run(cfg, INITIAL, evs).shared.registered[n];
    SelectsRows(cfg, evs, stamps, rows);
    RowIds(cfg, evs, stamps);
    TableSorts(handled);
    RowsHold(cfg, evs, stamps, n);
    SeedIsExactlyWhen(rows, i, n);
  }

  /** Where the reports of a node are handled in the order of their ids, and only children report it, the
      replay starts with its registration, and with its statuses exactly if it has reported a New one since
      that registration, or never has. Otherwise it also sends what was reported before. */
  lemma InOrderSeedExactlyWhen(cfg: Config, evs: seq<Event>, stamps: seq<Stamp>, rows: seq<R.Row>, n: NodeId)
    requires |stamps| == |evs| && FreshIds(evs) && Selected(rows, S.ApplyAll(S.EMPTY, QueuedBy(cfg, evs, stamps)))
    requires OnlyChildrenReport(cfg, evs, n)
    requires n in Run(cfg, INITIAL, evs).shared.registered
    requires InIdOrder(RowsOf(QueuedBy(cfg, evs, stamps)), n)
    ensures var i := Run(cfg, INITIAL, evs).shared.registered[n];
            && R.Seed(rows, R.Key(n, R.Registration)) == Some(i.registration.id)
            && (SeedIs(rows, i, n) <==> i.recentNew.Some? || !Reported(rows, n, R.New))
  {
    hide Table, R.Seed, QueuedBy, InIdOrder, OnlyChildrenReport, Selected;
    var handled := RowsOf(QueuedBy(cfg, evs, stamps));
    SelectsRows(cfg, evs, stamps, rows);
    RowIds(cfg, evs, stamps);
    TableKeepsSeed(handled, R.Key(n, R.Registration));
    TableKeepsSeed(handled, R.Key(n, R.New));
    TableKeepsSeed(handled, R.Key(n, R.Unchanged));
    RowsAgree(cfg, evs, stamps, n);
    Reachable(cfg, evs);
    SeedAndCurrent(handled, n);
    SameReported(rows, handled, n);
  }

  lemma SameReported(a: seq<R.Row>, b: seq<R.Row>, n: NodeId)
    requires forall r :: r in a <==> r in b
    ensures Reported(a, n, R.New) <==> Reported(b, n, R.New)
  {
    if Reported(a, n, R.New) {
      var i :| 0 <= i < |a| && R.IsKind(a[i], R.Key(n, R.New));
      assert a[i] in b;
    }
    if Reported(b, n, R.New) {
      var i :| 0 <= i < |b| && R.IsKind(b[i], R.Key(n, R.New));
      assert b[i] in a;
    }
  }

  // ----- one connection

  /** What one connection receives is numbered and handled in the same order. */
  predicate ChannelsInOrder(evs: seq<Event>) {
    forall i, j :: 0 <= i < j < |evs| && evs[i].Receive? && evs[j].Receive? && evs[i].w == evs[j].w ==>
      evs[i].m.id < evs[j].m.id
  }

  /** No other connection has saved a report of the node. */
  predicate OnlyReporter(items: seq<S.Item>, n: NodeId, w: Writer) {
    forall item :: item in items && item.Received? && RowOf(item.msg).Some? && Reports(RowOf(item.msg).value, n) ==>
      item.conn == w
  }

  predicate CameBy(evs: seq<Event>, w: Writer, d: R.Data) {
    exists i :: 0 <= i < |evs| && evs[i].Receive? && evs[i].w == w && evs[i].m.id == d
  }

  /** The reports of a node that one connection alone reports are in the order of their ids. */
  lemma {:induction false} OneReporterInOrder(cfg: Config, evs: seq<Event>, stamps: seq<Stamp>, n: NodeId, w: Writer)
    requires |stamps| == |evs| && ChannelsInOrder(evs) && OnlyReporter(QueuedBy(cfg, evs, stamps), n, w)
    ensures InIdOrder(RowsOf(QueuedBy(cfg, evs, stamps)), n)
    ensures forall r :: r in RowsOf(QueuedBy(cfg, evs, stamps)) && Reports(r, n) ==> CameBy(evs, w, r.data)
  {
    hide Queued, InIdOrder, Run, CameBy, Reports;
    if evs == [] {
      NothingInOrder(n);
    } else {
      var k := |evs| - 1;
      var st, ev := Run(cfg, INITIAL, evs[..k]), evs[k];
      var before, items := QueuedBy(cfg, evs[..k], stamps[..k]), Queued(cfg, st, ev, stamps[k]);
      OneReporterInOrder(cfg, evs[..k], stamps[..k], n, w);
      RowsAppend(before, items);
      assert OnlyReporter(items, n, w);
      NextReport(cfg, st, ev, stamps[k], n, w);
      NextInOrder(evs, RowsOf(before), RowsOf(items), n, w);
    }
  }

  lemma NothingInOrder(n: NodeId)
    ensures InIdOrder([], n)
  {
  }

  lemma NextReport(cfg: Config, st: State, ev: Event, stamp: Stamp, n: NodeId, w: Writer)
    requires OnlyReporter(Queued(cfg, st, ev, stamp), n, w)
    ensures var more := RowsOf(Queued(cfg, st, ev, stamp));
            |more| <= 1 && forall r :: r in more && Reports(r, n) ==> ev.Receive? && ev.w == w && r.data == ev.m.id
  {
    hide Reports, Saved, RowOf;
    var items := Queued(cfg, st, ev, stamp);
    NewRowId(cfg, st, ev, stamp);
    if items != [] { OneRow(items[0]); }
  }

  lemma NextInOrder(evs: seq<Event>, rows: seq<R.Row>, more: seq<R.Row>, n: NodeId, w: Writer)
    requires evs != [] && ChannelsInOrder(evs) && InIdOrder(rows, n) && |more| <= 1
    requires forall r :: r in rows && Reports(r, n) ==> CameBy(evs[..|evs| - 1], w, r.data)
    requires var ev := evs[|evs| - 1];
             forall r :: r in more && Reports(r, n) ==> ev.Receive? && ev.w == w && r.data == ev.m.id
    ensures InIdOrder(rows + more, n)
    ensures forall r :: r in rows + more && Reports(r, n) ==> CameBy(evs, w, r.data)
  {
    hide Reports;
    var k := |evs| - 1;
    forall i | 0 <= i < |rows| && Reports(rows[i], n)
      ensures CameBy(evs, w, rows[i].data) && (evs[k].Receive? && evs[k].w == w ==> rows[i].data < evs[k].m.id)
    {
      assert rows[i] in rows;
      var j :| 0 <= j < k && evs[..k][j].Receive? && evs[..k][j].w == w && evs[..k][j].m.id == rows[i].data;
      assert evs[j] == evs[..k][j];
    }
    forall r | r in rows + more && Reports(r, n) ensures CameBy(evs, w, r.data) {
      if r in rows { var i :| 0 <= i < |rows| && rows[i] == r; } else { assert r in more; assert evs[k].m.id == r.data; }
    }
    if more != [] { assert more[0] in more; }
  }

  // ----- an input

  const NODE := "n"

  function RegisterAs(id: nat): Message {
    Message(id, 0, Some(Parsed(Some(NODE), None, 0, Registration(""))), None, 0)
  }

  /** Two children register as one node. The second, whose first message was refused by the parser, sends
      its registration before the first child registers again, and is handled after that. */
  const OVERTAKEN := [
    OpenChild, OpenChild, Receive(1, RegisterAs(1)),
    Receive(2, Message(2, 0, None, Some(Error(Silent, ParserError)), 0)),
    Receive(1, RegisterAs(4)), Receive(2, RegisterAs(3))]

  function RowFor(id: nat): R.Row {
    R.Row(0, R.RegistrationType, NODE, false, id)
  }

  /** A run with what it led to. */
  ghost predicate LedTo(cfg: Config, evs: seq<Event>, stamps: seq<Stamp>, ids: seq<nat>, rows: seq<R.Row>, st: State) {
    && |stamps| == |evs|
    && Run(cfg, INITIAL, evs) == st && IdsOf(evs) == ids
    && RowsOf(QueuedBy(cfg, evs, stamps)) == rows
    && OnlyChildrenReport(cfg, evs, NODE)
  }

  /** One more event, with the ids and the rows that it adds. */
  lemma LedOn(cfg: Config, evs: seq<Event>, k: nat, stamps: seq<Stamp>, ids: seq<nat>, rows: seq<R.Row>, st: State,
              ids': seq<nat>, rows': seq<R.Row>)
    requires k < |evs| == |stamps| && LedTo(cfg, evs[..k], stamps[..k], ids, rows, st)
    requires evs[k].Receive? ==> evs[k].w in st.children
    requires ids' == ids + if evs[k].Receive? then [evs[k].m.id] else []
    requires rows' == rows + RowsOf(Queued(cfg, st, evs[k], stamps[k]))
    ensures LedTo(cfg, evs[..k + 1], stamps[..k + 1], ids', rows', Step(cfg, st, evs[k]))
  {
    hide Queued, Step, RowsOf;
    assert evs[..k + 1][..k] == evs[..k] && stamps[..k + 1][..k] == stamps[..k];
    RowsAppend(QueuedBy(cfg, evs[..k], stamps[..k]), Queued(cfg, st, evs[k], stamps[k]));
  }

  /** No subscriber is there, and the node, if it is registered, belongs to this child. */
  predicate MayRegister(st: State, w: Writer) {
    && w in st.children && st.shared.dmms == [] && st.shared.parentsAll == []
    && var c := st.children[w];
       c.registration.None? || (c.nodeId == Some(NODE) && Owns(st.shared, w, c.nodeId))
  }

  lemma RegisterOutcome(cfg: Config, st: State, w: Writer, id: nat)
    requires MayRegister(st, w)
    ensures var o := ChildMessage(cfg, st.shared, w, st.children[w], RegisterAs(id));
            && o.msg.error.None? && !o.escaped && RowOf(o.msg) == Some(RowFor(id))
            && o.shared.dmms == [] && o.shared.parentsAll == []
            && o.conn.registration.Some? && o.conn.nodeId == Some(NODE) && Owns(o.shared, w, Some(NODE))
            && o.shared.registered[NODE].registration.id == id
  {
    var s, c := st.shared, st.children[w];
    var i := ChildInner(cfg, s, w, c, RegisterAs(id));
    assert ParentTargets(i.shared, false, None) == [];
    assert ErrorReplies(w, i.msg, i.conn.nodeId) == [];
  }

  lemma RegisterStep(cfg: Config, st: State, w: Writer, id: nat, stamp: Stamp)
    requires MayRegister(st, w)
    ensures var st' := ReceiveStep(cfg, st, w, RegisterAs(id));
            && MayRegister(st', w) && st'.children[w].registration.Some?
            && (forall x :: x != w && x in st.children ==> x in st'.children && st'.children[x] == st.children[x])
            && NODE in st'.shared.registered && st'.shared.registered[NODE].registration.id == id
    ensures RowsOf(Queued(cfg, st, Receive(w, RegisterAs(id)), stamp)) == [RowFor(id)]
  {
    hide ChildMessage, RowOf;
    RegisterOutcome(cfg, st, w, id);
    OneRow(S.Received(w, ApexTheorems.Received(cfg, st, w, RegisterAs(id))));
  }

  lemma RefusedStep(cfg: Config, st: State, w: Writer, m: Message, stamp: Stamp)
    requires w in st.children && m.error == Some(Error(Silent, ParserError))
    ensures ReceiveStep(cfg, st, w, m) == st
    ensures RowsOf(Queued(cfg, st, Receive(w, m), stamp)) == []
  {
    var o := ChildMessage(cfg, st.shared, w, st.children[w], m);
    assert o.msg == m && st.shared.sent + [] == st.shared.sent;
    assert st.children[w := st.children[w]] == st.children;
    OneRow(S.Received(w, m));
  }

  /** The server tells a peer that joins then the registration with id 3; the replay starts with that with
      id 4. */
  lemma OvertakenRegistration(cfg: Config, stamps: seq<Stamp>, rows: seq<R.Row>)
    requires |stamps| == |OVERTAKEN| && Selected(rows, S.ApplyAll(S.EMPTY, QueuedBy(cfg, OVERTAKEN, stamps)))
    ensures FreshIds(OVERTAKEN) && ChannelsInOrder(OVERTAKEN) && OnlyChildrenReport(cfg, OVERTAKEN, NODE)
    ensures NODE in Run(cfg, INITIAL, OVERTAKEN).shared.registered
    ensures Run(cfg, INITIAL, OVERTAKEN).shared.registered[NODE].registration.id == 3
    ensures R.Seed(rows, R.Key(NODE, R.Registration)) == Some(4)
  {
    OvertakenRun(cfg, stamps);
    SelectsRows(cfg, OVERTAKEN, stamps, rows);
  }

  lemma OvertakenRun(cfg: Config, stamps: seq<Stamp>)
    requires |stamps| == |OVERTAKEN|
    ensures FreshIds(OVERTAKEN) && ChannelsInOrder(OVERTAKEN) && OnlyChildrenReport(cfg, OVERTAKEN, NODE)
    ensures NODE in Run(cfg, INITIAL, OVERTAKEN).shared.registered
    ensures Run(cfg, INITIAL, OVERTAKEN).shared.registered[NODE].registration.id == 3
    ensures R.Seed(Table(RowsOf(QueuedBy(cfg, OVERTAKEN, stamps))), R.Key(NODE, R.Registration)) == Some(4)
  {
    hide ReceiveStep, Queued, OnlyChildrenReport, R.Seed, Table, IdsOf, RowsOf, Distinct, ChannelsInOrder;
    var e := OVERTAKEN;
    var st1 := Step(cfg, INITIAL, OpenChild);
    var st2 := Step(cfg, st1, OpenChild);
    var st3 := ReceiveStep(cfg, st2, 1, e[2].m);
    var st5 := ReceiveStep(cfg, st3, 1, e[4].m);
    var st6 := ReceiveStep(cfg, st5, 2, e[5].m);
    OpeningRows(cfg, INITIAL, stamps[0]);
    OpeningRows(cfg, st1, stamps[1]);
    RegisterStep(cfg, st2, 1, 1, stamps[2]);
    RefusedStep(cfg, st3, 2, e[3].m, stamps[3]);
    RegisterStep(cfg, st3, 1, 4, stamps[4]);
    RegisterStep(cfg, st5, 2, 3, stamps[5]);
    NothingLed(cfg);
    LedOn(cfg, e, 0, stamps, [], [], INITIAL, [], []);
    LedOn(cfg, e, 1, stamps, [], [], st1, [], []);
    LedOn(cfg, e, 2, stamps, [], [], st2, [1], [RowFor(1)]);
    LedOn(cfg, e, 3, stamps, [1], [RowFor(1)], st3, [1, 2], [RowFor(1)]);
    LedOn(cfg, e, 4, stamps, [1, 2], [RowFor(1)], st3, [1, 2, 4], [RowFor(1), RowFor(4)]);
    LedOn(cfg, e, 5, stamps, [1, 2, 4], [RowFor(1), RowFor(4)], st5, [1, 2, 4, 3], [RowFor(1), RowFor(4), RowFor(3)]);
    assert e[..6] == e && stamps[..6] == stamps;
    OvertakenIds(IdsOf(e));
    OvertakenSeed();
  }

  lemma OvertakenIds(ids: seq<nat>)
    requires ids == [1, 2, 4, 3]
    ensures Distinct(ids) && ChannelsInOrder(OVERTAKEN)
  {
  }

  lemma NothingLed(cfg: Config)
    ensures LedTo(cfg, [], [], [], [], INITIAL)
  {
  }

  lemma OpeningRows(cfg: Config, st: State, stamp: Stamp)
    ensures RowsOf(Queued(cfg, st, OpenChild, stamp)) == []
  {
    OneRow(Queued(cfg, st, OpenChild, stamp)[0]);
  }

  lemma OvertakenSeed()
    ensures R.Seed(Table([RowFor(1), RowFor(4), RowFor(3)]), R.Key(NODE, R.Registration)) == Some(4)
  {
    hide R.Seed, Table;
    var rows := [RowFor(1), RowFor(4), RowFor(3)];
    TableSorts(rows);
    assert rows[1] in rows;
    SeedIsNewest(Table(rows), R.Key(NODE, R.Registration), 4);
  }
}
