/** What the database holds after any run of the saving thread, with rollovers at any time: exactly the
    connections active at the last rollover or opened since and the messages pointed to then or received
    since, as if there had never been a rollover. */
module SavingTheorems {
  import opened Wrappers
  import opened ApexTypes
  import opened Saving

  // ----- rollovers among the items

  datatype Write = Save(item: Item) | RollOver

  function Written(ws: seq<Write>): Db {
    if ws == [] then EMPTY
    else
      var db, w := Written(ws[..|ws| - 1]), ws[|ws| - 1];
      if w.RollOver? then RolledOver(db) else Apply(db, w.item)
  }

  /** The items alone. */
  function Items(ws: seq<Write>): seq<Item> {
    if ws == [] then []
    else
      var items, w := Items(ws[..|ws| - 1]), ws[|ws| - 1];
      if w.RollOver? then items else items + [w.item]
  }

  /** What the server guarantees of the next item, given all before it: fresh ids, and messages and
      disconnections only of open connections. */
  predicate Follows(db: Db, item: Item) {
    match item
    case Connected(id, _, _, _) => id !in db.connections
    case Received(conn, m) => Active(db, conn) && m.id !in db.messages
    case Disconnected(id, _, _) => Active(db, id)
    case Stop => false
  }

  predicate Orderly(items: seq<Item>) {
    items == [] ||
    (Orderly(items[..|items| - 1]) && Follows(ApplyAll(EMPTY, items[..|items| - 1]), items[|items| - 1]))
  }

  /** r holds rows of s only, and those of all active connections. */
  ghost predicate Restricts(r: Db, s: Db) {
    && (forall c :: c in r.connections ==> c in s.connections && r.connections[c] == s.connections[c])
    && (forall c :: Active(s, c) ==> c in r.connections)
    && (forall p :: p in r.messages ==> p in s.messages && r.messages[p] == s.messages[p])
  }

  /** Both foreign keys resolve, and a row points to messages of its own connection. */
  ghost predicate Closed(db: Db) {
    && (forall c, p :: c in db.connections && PointsTo(db.connections[c], p) ==>
          p in db.messages && db.messages[p].connectionId == c)
    && (forall p :: p in db.messages ==> db.messages[p].connectionId in db.connections)
  }

  lemma PointPointers(row: ConnectionRow, m: Message)
    ensures forall p :: PointsTo(Point(row, m), p) ==> PointsTo(row, p) || p == m.id
    ensures Point(row, m).disconnectTime == row.disconnectTime
  {
  }

  lemma ConnectKeeps(r: Db, s: Db, item: Item)
    requires item.Connected? && Restricts(r, s) && Closed(r) && Follows(s, item)
    ensures Restricts(Apply(r, item), Apply(s, item)) && Closed(Apply(r, item))
  {
    var d := Apply(r, item);
    assert forall p :: !PointsTo(d.connections[item.id], p);
    forall c, p | c in d.connections && PointsTo(d.connections[c], p)
      ensures p in d.messages && d.messages[p].connectionId == c
    {
      assert c != item.id;
      assert d.connections[c] == r.connections[c];
    }
  }

  lemma ReceiveRestricts(r: Db, s: Db, conn: ConnectionId, m: Message)
    requires Restricts(r, s) && Active(s, conn) && m.id !in s.messages
    ensures Restricts(Apply(r, Received(conn, m)), Apply(s, Received(conn, m)))
  {
    PointPointers(s.connections[conn], m);
  }

  lemma ReceiveCloses(r: Db, conn: ConnectionId, m: Message)
    requires Closed(r) && conn in r.connections && m.id !in r.messages
    ensures Closed(Apply(r, Received(conn, m)))
  {
    var d, row := Apply(r, Received(conn, m)), r.connections[conn];
    PointPointers(row, m);
    assert d.connections[conn] == Point(row, m);
    assert d.messages == r.messages[m.id := MessageRow(conn, m)];
    forall c, p | c in d.connections && PointsTo(d.connections[c], p)
      ensures p in d.messages && d.messages[p].connectionId == c
    {
      if c != conn { assert d.connections[c] == r.connections[c]; }
      if p != m.id || c != conn { assert PointsTo(r.connections[c], p); }
    }
  }

  lemma DisconnectCloses(r: Db, item: Item)
    requires item.Disconnected? && Closed(r)
    ensures Closed(Apply(r, item))
  {
    var d := Apply(r, item);
    assert d.messages == r.messages && d.connections.Keys == r.connections.Keys;
    forall c, p | c in d.connections && PointsTo(d.connections[c], p)
      ensures p in d.messages && d.messages[p].connectionId == c
    {
      assert PointsTo(r.connections[c], p);
    }
  }

  lemma DisconnectRestricts(r: Db, s: Db, item: Item)
    requires item.Disconnected? && Restricts(r, s) && Follows(s, item)
    ensures Restricts(Apply(r, item), Apply(s, item))
  {
    hide PointsTo;
  }

  lemma ApplyKeeps(r: Db, s: Db, item: Item)
    requires Restricts(r, s) && Closed(r) && Follows(s, item)
    ensures Restricts(Apply(r, item), Apply(s, item)) && Closed(Apply(r, item))
  {
    match item
    case Connected(_, _, _, _) => ConnectKeeps(r, s, item);
    case Received(conn, m) =>
      ReceiveRestricts(r, s, conn, m);
      ReceiveCloses(r, conn, m);
    case Disconnected(_, _, _) =>
      DisconnectRestricts(r, s, item);
      DisconnectCloses(r, item);
  }

  lemma RollOverKeeps(r: Db, s: Db)
    requires Restricts(r, s) && Closed(r)
    ensures Restricts(RolledOver(r), s) && Closed(RolledOver(r))
  {
    RollOverCloses(r);
  }

  lemma RollOverCloses(r: Db)
    requires Closed(r)
    ensures Closed(RolledOver(r))
  {
    var d := RolledOver(r);
    forall c, p | c in d.connections && PointsTo(d.connections[c], p)
      ensures p in d.messages && d.messages[p].connectionId == c
    {
      assert Active(r, c) && PointsTo(r.connections[c], p);
      assert Pointed(r, p);
    }
    forall p | p in d.messages ensures d.messages[p].connectionId in d.connections {
      var c :| c in r.connections && Active(r, c) && PointsTo(r.connections[c], p);
      assert r.messages[p].connectionId == c;
    }
  }

  /** After any rollovers the database is a part of the full one, with all open connections and closed
      foreign keys. */
  lemma {:induction false} RolloverRestricts(ws: seq<Write>)
    requires Orderly(Items(ws))
    ensures Restricts(Written(ws), ApplyAll(EMPTY, Items(ws))) && Closed(Written(ws))
  {
    if ws != [] {
      var ws0, w := ws[..|ws| - 1], ws[|ws| - 1];
      if w.RollOver? {
        RolloverRestricts(ws0);
        RollOverKeeps(Written(ws0), ApplyAll(EMPTY, Items(ws0)));
      } else {
        assert Items(ws)[..|Items(ws)| - 1] == Items(ws0);
        RolloverRestricts(ws0);
        ApplyKeeps(Written(ws0), ApplyAll(EMPTY, Items(ws0)), w.item);
      }
    }
  }

  // ----- exactly what the current database holds

  function Opened(items: seq<Item>): set<ConnectionId> {
    set i | i in items && i.Connected? :: i.id
  }

  function Stored(items: seq<Item>): set<MessageId> {
    set i | i in items && i.Received? :: i.msg.id
  }

  /** d is what a database rolled over at s0 holds after the items that took s0 to s: the connections
      active at the rollover or opened since, closed or not, and the messages pointed to at the rollover
      or received since, all as in s. */
  ghost predicate Continues(d: Db, s0: Db, items: seq<Item>, s: Db) {
    && (forall c :: c in d.connections <==> Active(s0, c) || c in Opened(items))
    && (forall c :: c in d.connections ==> c in s.connections && d.connections[c] == s.connections[c])
    && (forall p :: p in d.messages <==> Pointed(s0, p) || p in Stored(items))
    && (forall p :: p in d.messages ==> p in s.messages && d.messages[p] == s.messages[p])
  }

  /** Rolling over a part gives what rolling over all would. */
  lemma RollOverForgets(r: Db, s: Db)
    requires Restricts(r, s) && Closed(r)
    ensures Continues(RolledOver(r), s, [], s)
  {
    forall c ensures Active(r, c) <==> Active(s, c) {
    }
    forall p ensures p in RolledOver(r).messages <==> Pointed(s, p) {
      if Pointed(s, p) {
        var c :| c in s.connections && Active(s, c) && PointsTo(s.connections[c], p);
        assert Active(r, c) && PointsTo(r.connections[c], p);
      }
      if Pointed(r, p) {
        var c :| c in r.connections && Active(r, c) && PointsTo(r.connections[c], p);
        assert Active(s, c) && PointsTo(s.connections[c], p);
      }
    }
  }

  lemma OpenedSnoc(items: seq<Item>, item: Item)
    ensures Opened(items + [item]) == Opened(items) + (if item.Connected? then {item.id} else {})
    ensures Stored(items + [item]) == Stored(items) + (if item.Received? then {item.msg.id} else {})
  {
    forall i ensures i in items + [item] <==> i in items || i == item {
    }
    forall c ensures c in Opened(items + [item]) <==> c in Opened(items) || (item.Connected? && c == item.id) {
      if c in Opened(items) { var i :| i in items && i.Connected? && i.id == c; assert i in items + [item]; }
      if item.Connected? { assert item in items + [item]; }
    }
    forall p ensures p in Stored(items + [item]) <==> p in Stored(items) || (item.Received? && p == item.msg.id) {
      if p in Stored(items) { var i :| i in items && i.Received? && i.msg.id == p; assert i in items + [item]; }
      if item.Received? { assert item in items + [item]; }
    }
  }

  lemma ContinuesNext(d: Db, s0: Db, items: seq<Item>, s: Db, item: Item)
    requires Continues(d, s0, items, s) && Follows(s, item)
    requires forall c :: Active(s, c) ==> c in d.connections
    ensures Continues(Apply(d, item), s0, items + [item], Apply(s, item))
  {
    hide Opened, Stored, Pointed, Point;
    OpenedSnoc(items, item);
  }

  lemma ActiveNext(s: Db, item: Item, c: ConnectionId)
    ensures Active(Apply(s, item), c) ==> Active(s, c) || (item.Connected? && item.id == c)
  {
    if item.Received? && item.conn in s.connections { PointPointers(s.connections[item.conn], item.msg); }
  }

  lemma {:induction false} OrderlyPrefix(a: seq<Item>, b: seq<Item>)
    requires Orderly(a + b)
    ensures Orderly(a)
    decreases |b|
  {
    if b == [] {
      assert a + b == a;
    } else {
      assert (a + b)[..|a + b| - 1] == a + b[..|b| - 1];
      OrderlyPrefix(a, b[..|b| - 1]);
    }
  }

  lemma {:induction false} ContinuesAll(d: Db, before: seq<Item>, items: seq<Item>)
    requires Orderly(before + items) && Continues(d, ApplyAll(EMPTY, before), [], ApplyAll(EMPTY, before))
    ensures var s0, s := ApplyAll(EMPTY, before), ApplyAll(EMPTY, before + items);
            && Continues(ApplyAll(d, items), s0, items, s)
            && forall c :: Active(s, c) ==> c in ApplyAll(d, items).connections
  {
    hide Continues, Follows, Active, Apply;
    if items == [] {
      assert before + items == before;
      ActiveContinues(d, ApplyAll(EMPTY, before));
    } else {
      var items0, item := items[..|items| - 1], items[|items| - 1];
      var s0, s := ApplyAll(EMPTY, before), ApplyAll(EMPTY, before + items0);
      assert (before + items)[..|before + items| - 1] == before + items0 && items0 + [item] == items;
      ContinuesAll(d, before, items0);
      ContinuesNext(ApplyAll(d, items0), s0, items0, s, item);
      ActiveStays(ApplyAll(d, items0), s0, items0, s, item);
    }
  }

  lemma ActiveContinues(d: Db, s: Db)
    requires Continues(d, s, [], s)
    ensures forall c :: Active(s, c) ==> c in d.connections
  {
  }

  lemma ActiveStays(d: Db, s0: Db, items: seq<Item>, s: Db, item: Item)
    requires forall c :: Active(s, c) ==> c in d.connections
    requires Continues(Apply(d, item), s0, items + [item], Apply(s, item)) && Continues(d, s0, items, s)
    ensures forall c :: Active(Apply(s, item), c) ==> c in Apply(d, item).connections
  {
    hide Apply;
    OpenedSnoc(items, item);
    forall c | Active(Apply(s, item), c) ensures c in Apply(d, item).connections { ActiveNext(s, item, c); }
  }

  lemma {:induction false} ClosedAfter(d: Db, before: seq<Item>, items: seq<Item>)
    requires Orderly(before + items) && Closed(d) && Restricts(d, ApplyAll(EMPTY, before))
    ensures Closed(ApplyAll(d, items)) && Restricts(ApplyAll(d, items), ApplyAll(EMPTY, before + items))
  {
    hide Closed, Restricts, Follows, Apply;
    if items == [] {
      assert before + items == before;
    } else {
      var items0, item := items[..|items| - 1], items[|items| - 1];
      assert (before + items)[..|before + items| - 1] == before + items0;
      ClosedAfter(d, before, items0);
      ApplyKeeps(ApplyAll(d, items0), ApplyAll(EMPTY, before + items0), item);
    }
  }

  /** After any writes and rollovers, one more rollover and any items: the new database has exactly the
      connections active at that rollover and those opened since, whether they are still open or not,
      and exactly the messages pointed to at that rollover and those received since, each as if there
      had never been a rollover; and its foreign keys resolve. */
  lemma RolloverCommutes(ws: seq<Write>, items: seq<Item>)
    requires Orderly(Items(ws) + items)
    ensures var d := ApplyAll(RolledOver(Written(ws)), items);
            && Continues(d, ApplyAll(EMPTY, Items(ws)), items, ApplyAll(EMPTY, Items(ws) + items))
            && Restricts(d, ApplyAll(EMPTY, Items(ws) + items)) && Closed(d)
  {
    hide Continues, Restricts, Closed;
    var r, s0 := Written(ws), ApplyAll(EMPTY, Items(ws));
    OrderlyPrefix(Items(ws), items);
    RolloverRestricts(ws);
    RollOverForgets(r, s0);
    RollOverKeeps(r, s0);
    ContinuesAll(RolledOver(r), Items(ws), items);
    ClosedAfter(RolledOver(r), Items(ws), items);
  }

  // ----- what the rows hold

  function Ended(items: seq<Item>): set<ConnectionId> {
    set i | i in items && i.Disconnected? :: i.id
  }

  predicate RowOfItem(db: Db, i: Item) {
    match i
    case Connected(id, clientType, peer, time) =>
      id in db.connections ==>
        var row := db.connections[id];
        row.clientType == clientType && row.peer == peer && row.connectTime == time
    case Received(conn, m) =>
      m.id in db.messages ==> db.messages[m.id].connectionId == conn && db.messages[m.id].msg == m
    case Disconnected(id, time, reason) =>
      id in db.connections ==>
        db.connections[id].disconnectTime == Some(time) && db.connections[id].disconnectReason == Some(reason)
    case Stop => true
  }

  /** Every row is that of the items: of a message its connection and all that was received and found out
      about it; of a connection its type, peer and time, and the time and reason of its end if it has ended. */
  ghost predicate RowsFrom(db: Db, items: seq<Item>) {
    && db.messages.Keys <= Stored(items) && db.connections.Keys <= Opened(items)
    && (forall i :: i in items ==> RowOfItem(db, i))
    && (forall c :: c in db.connections && c !in Ended(items) ==>
          db.connections[c].disconnectTime.None? && db.connections[c].disconnectReason.None?)
  }

  /** There is a row for each of them. */
  ghost predicate AllRows(db: Db, items: seq<Item>) {
    RowsFrom(db, items) && db.messages.Keys == Stored(items) && db.connections.Keys == Opened(items)
  }

  lemma EndedSnoc(items: seq<Item>, item: Item)
    ensures Ended(items + [item]) == Ended(items) + (if item.Disconnected? then {item.id} else {})
    ensures forall i :: i in items + [item] <==> i in items || i == item
  {
    forall i ensures i in items + [item] <==> i in items || i == item {
    }
    forall c ensures c in Ended(items + [item]) <==> c in Ended(items) || (item.Disconnected? && c == item.id) {
      if c in Ended(items) { var i :| i in items && i.Disconnected? && i.id == c; assert i in items + [item]; }
      if item.Disconnected? { assert item in items + [item]; }
    }
  }

  /** Ids that an item refers to are those of rows that it made. */
  lemma KnownIds(items: seq<Item>, i: Item)
    requires i in items
    ensures i.Received? ==> i.msg.id in Stored(items)
    ensures i.Connected? ==> i.id in Opened(items)
    ensures i.Disconnected? ==> i.id in Ended(items)
  {
  }

  lemma ConnectAddsRow(db: Db, items: seq<Item>, item: Item)
    requires AllRows(db, items) && item.Connected? && Follows(db, item) && Ended(items) <= Opened(items)
    ensures AllRows(Apply(db, item), items + [item])
  {
    hide Stored, Opened, Ended;
    OpenedSnoc(items, item);
    EndedSnoc(items, item);
    forall i | i in items ensures RowOfItem(Apply(db, item), i) {
      KnownIds(items, i);
      assert RowOfItem(db, i);
    }
  }

  lemma ReceiveAddsRow(db: Db, items: seq<Item>, item: Item)
    requires AllRows(db, items) && item.Received? && Follows(db, item)
    ensures AllRows(Apply(db, item), items + [item])
  {
    hide Stored, Opened, Ended, Point;
    OpenedSnoc(items, item);
    EndedSnoc(items, item);
    PointKeeps(db.connections[item.conn], item.msg);
    forall i | i in items ensures RowOfItem(Apply(db, item), i) {
      KnownIds(items, i);
      assert RowOfItem(db, i);
    }
  }

  lemma PointKeeps(row: ConnectionRow, m: Message)
    ensures var r := Point(row, m);
            && r.clientType == row.clientType && r.peer == row.peer && r.connectTime == row.connectTime
            && r.disconnectTime == row.disconnectTime && r.disconnectReason == row.disconnectReason
  {
  }

  lemma DisconnectAddsEnd(db: Db, items: seq<Item>, item: Item)
    requires AllRows(db, items) && item.Disconnected? && Follows(db, item)
    ensures AllRows(Apply(db, item), items + [item])
  {
    hide Stored, Opened, Ended;
    OpenedSnoc(items, item);
    EndedSnoc(items, item);
    forall i | i in items ensures RowOfItem(Apply(db, item), i) {
      assert RowOfItem(db, i);
    }
  }

  /** After any items the tables hold a row for each message and each connection, which says exactly what
      its items say, and no other row. */
  lemma {:induction false} SavedRows(items: seq<Item>)
    requires Orderly(items)
    ensures AllRows(ApplyAll(EMPTY, items), items) && Ended(items) <= Opened(items)
  {
    hide AllRows, Apply, Stored, Opened, Ended;
    if items == [] {
      NoRows();
    } else {
      var items0, item := items[..|items| - 1], items[|items| - 1];
      var db := ApplyAll(EMPTY, items0);
      assert items == items0 + [item];
      SavedRows(items0);
      OpenedSnoc(items0, item);
      EndedSnoc(items0, item);
      match item
      case Connected(_, _, _, _) => ConnectAddsRow(db, items0, item);
      case Received(_, _) => ReceiveAddsRow(db, items0, item);
      case Disconnected(_, _, _) =>
        DisconnectAddsEnd(db, items0, item);
        OpenRows(db, items0, item.id);
    }
  }

  lemma NoRows()
    ensures AllRows(EMPTY, []) && Ended([]) == Opened([]) == {}
  {
  }

  lemma OpenRows(db: Db, items: seq<Item>, c: ConnectionId)
    requires AllRows(db, items) && c in db.connections
    ensures c in Opened(items)
  {
  }

  /** So does any part of the tables, as a rollover leaves it. */
  lemma RestrictedRows(r: Db, s: Db, items: seq<Item>)
    requires Restricts(r, s) && RowsFrom(s, items)
    ensures RowsFrom(r, items)
  {
    forall i | i in items ensures RowOfItem(r, i) { assert RowOfItem(s, i); }
  }

  /** And the connections that a rollover keeps are those opened and not ended. */
  lemma ActiveExactlyWhen(items: seq<Item>, c: ConnectionId)
    requires Orderly(items)
    ensures Active(ApplyAll(EMPTY, items), c) <==> c in Opened(items) && c !in Ended(items)
  {
    SavedRows(items);
    var db := ApplyAll(EMPTY, items);
    if c in Ended(items) {
      var i :| i in items && i.Disconnected? && i.id == c;
      assert RowOfItem(db, i);
    }
  }

  /** The last message of its kind that a connection sent, as the connection's row recalls it. */
  predicate IsRecent(h: seq<Message>, p: MessageId) {
    || LastUnless(h, Registrations, {}) == Some(p)
    || LastUnless(h, News, {Registrations}) == Some(p)
    || LastUnless(h, Unchangeds, {Registrations, News}) == Some(p)
    || LastUnless(h, Detections, {Registrations}) == Some(p)
  }

  /** Such a message of a connection that is still open. */
  predicate Recalled(items: seq<Item>, p: MessageId) {
    exists c :: c in Opened(items) && c !in Ended(items) && IsRecent(History(items, c), p)
  }

  lemma NothingRecalled()
    ensures forall p :: !Recalled([], p)
  {
  }

  lemma PointedAreRecalled(items: seq<Item>, p: MessageId)
    requires Orderly(items)
    ensures Pointed(ApplyAll(EMPTY, items), p) <==> Recalled(items, p)
  {
    hide Orderly, Opened, Ended, ApplyAll, History, LastUnless;
    var db := ApplyAll(EMPTY, items);
    forall c ensures Active(db, c) <==> c in Opened(items) && c !in Ended(items) { ActiveExactlyWhen(items, c); }
    forall c | c in db.connections ensures PointsTo(db.connections[c], p) <==> IsRecent(History(items, c), p) {
      PointersMeanHistory(items, c);
    }
    if Pointed(db, p) {
      var c :| c in db.connections && Active(db, c) && PointsTo(db.connections[c], p);
      assert c in Opened(items) && IsRecent(History(items, c), p);
    }
    if Recalled(items, p) {
      var c :| c in Opened(items) && c !in Ended(items) && IsRecent(History(items, c), p);
      assert Active(db, c) && PointsTo(db.connections[c], p);
    }
  }

  /** The database of the saving thread, once it has drained its queue: every row says what its items say, and
      there is one for each message received and each connection opened since the last rollover, for each
      connection that was open then, and for the last message of each kind of such a connection. */
  lemma ThreadRows(evs: seq<ThreadEvent>)
    requires Orderly(UpToStop(Added(evs))) && (ThreadRun(evs).pending == [] || ThreadRun(evs).exited)
    ensures var t, all := ThreadRun(evs), UpToStop(Added(evs));
            var before := if t.rolled.None? then [] else t.rolled.value;
            && RowsFrom(t.db, all) && before <= all
            && var since := all[|before|..];
            && (forall p :: p in t.db.messages <==> p in Stored(since) || Recalled(before, p))
            && t.db.connections.Keys == Opened(since) + (Opened(before) - Ended(before))
  {
    hide Recalled, RowsFrom, Restricts, Closed, Orderly, Continues, Stored, Opened, Ended, ApplyAll, ThreadRun, Added, UpToStop;
    var t, all := ThreadRun(evs), UpToStop(Added(evs));
    SavedRows(all);
    ThreadRefinesSequentialSaving(evs);
    AllRowsAreFrom(ApplyAll(EMPTY, all), all);
    RestrictedRows(t.db, ApplyAll(EMPTY, all), all);
    if t.rolled.None? {
      NoRows();
      NothingRecalled();
      assert all[0..] == all;
    } else {
      var before := t.rolled.value;
      assert all == before + all[|before|..];
      OrderlyPrefix(before, all[|before|..]);
      ContinuedKeys(t.db, before, all[|before|..], all);
    }
  }

  lemma ContinuedKeys(d: Db, before: seq<Item>, since: seq<Item>, all: seq<Item>)
    requires Orderly(before) && Continues(d, ApplyAll(EMPTY, before), since, ApplyAll(EMPTY, all))
    ensures forall p :: p in d.messages <==> p in Stored(since) || Recalled(before, p)
    ensures d.connections.Keys == Opened(since) + (Opened(before) - Ended(before))
  {
    hide Orderly, Stored, Opened, Ended, ApplyAll, Active, Pointed, Recalled;
    forall p ensures Pointed(ApplyAll(EMPTY, before), p) <==> Recalled(before, p) { PointedAreRecalled(before, p); }
    forall c ensures Active(ApplyAll(EMPTY, before), c) <==> c in Opened(before) && c !in Ended(before) {
      ActiveExactlyWhen(before, c);
    }
  }

  lemma AllRowsAreFrom(db: Db, items: seq<Item>)
    requires AllRows(db, items)
    ensures RowsFrom(db, items) && db.messages.Keys == Stored(items) && db.connections.Keys == Opened(items)
  {
  }

  // ----- what the pointers of a row mean

  /** The messages without error that a connection sent since it was inserted. */
  function History(items: seq<Item>, c: ConnectionId): seq<Message> {
    if items == [] then []
    else
      var before, item := History(items[..|items| - 1], c), items[|items| - 1];
      if item.Connected? && item.id == c then []
      else if item.Received? && item.conn == c && item.msg.error.None? && item.msg.parsed.Some? then before + [item.msg]
      else before
  }

  datatype Kind = Registrations | News | Unchangeds | Detections

  predicate Is(m: Message, k: Kind) {
    m.parsed.Some? &&
    match k
    case Registrations => m.parsed.value.body.Registration?
    case News => m.parsed.value.body.StatusReport? && !m.parsed.value.body.isUnchanged
    case Unchangeds => m.parsed.value.body.StatusReport? && m.parsed.value.body.isUnchanged
    case Detections => m.parsed.value.body.Detection?
  }

  /** The last message of one kind, unless one of the others came after it. */
  function LastUnless(h: seq<Message>, k: Kind, others: set<Kind>): Option<MessageId> {
    if h == [] then None
    else if Is(h[|h| - 1], k) then Some(h[|h| - 1].id)
    else if exists o :: o in others && Is(h[|h| - 1], o) then None
    else LastUnless(h[..|h| - 1], k, others)
  }

  predicate Means(row: ConnectionRow, h: seq<Message>) {
    && row.recentRegistration == LastUnless(h, Registrations, {})
    && row.recentNew == LastUnless(h, News, {Registrations})
    && row.recentUnchanged == LastUnless(h, Unchangeds, {Registrations, News})
    && row.recentDetection == LastUnless(h, Detections, {Registrations})
  }

  lemma PointMeans(row: ConnectionRow, h: seq<Message>, m: Message)
    requires Means(row, h) && m.error.None? && m.parsed.Some?
    ensures Means(Point(row, m), h + [m])
  {
    assert (h + [m])[..|h|] == h;
    assert Registrations in {Registrations} && News in {Registrations, News} && Registrations in {Registrations, News};
  }

  /** After any items, the row of a connection points to its last registration, its last New status and
      its last detection since, and its last Unchanged status since the New one. */
  lemma {:induction false} PointersMeanHistory(items: seq<Item>, c: ConnectionId)
    requires c in ApplyAll(EMPTY, items).connections
    ensures Means(ApplyAll(EMPTY, items).connections[c], History(items, c))
  {
    if items != [] {
      var before, item := ApplyAll(EMPTY, items[..|items| - 1]), items[|items| - 1];
      if !(item.Connected? && item.id == c) {
        PointersMeanHistory(items[..|items| - 1], c);
        if item.Received? && item.conn == c && item.msg.error.None? && item.msg.parsed.Some? {
          PointMeans(before.connections[c], History(items[..|items| - 1], c), item.msg);
        }
      }
    }
  }

  // ----- the thread

  datatype ThreadEvent = Add(item: Item) | Round(rolloverDue: bool)

  /** `drained` is what rounds have taken from the queue so far, `rolled` what they had taken when the
      database was last rolled over. */
  datatype Thread = Thread(pending: seq<Item>, db: Db, exited: bool, drained: seq<Item>, rolled: Option<seq<Item>>)

  const STARTED := Thread([], EMPTY, false, [], None)

  /** What SqliteThread.Add and SqliteThread.Round do. An exited thread does no more rounds. */
  function ThreadStep(t: Thread, ev: ThreadEvent): Thread {
    match ev
    case Add(item) => t.(pending := t.pending + [item])
    case Round(due) =>
      if t.exited then t
      else
        var db := if due then RolledOver(t.db) else t.db;
        Thread([], ApplyAll(db, UpToStop(t.pending)), Stop in t.pending, t.drained + t.pending,
               if due then Some(t.drained) else t.rolled)
  }

  function ThreadRun(evs: seq<ThreadEvent>): Thread {
    if evs == [] then STARTED else ThreadStep(ThreadRun(evs[..|evs| - 1]), evs[|evs| - 1])
  }

  function Added(evs: seq<ThreadEvent>): seq<Item> {
    if evs == [] then []
    else Added(evs[..|evs| - 1]) + (if evs[|evs| - 1].Add? then [evs[|evs| - 1].item] else [])
  }

  lemma UpToStopCons(x: Item, a: seq<Item>, b: seq<Item>)
    requires !x.Stop?
    ensures UpToStop([x] + a + b) == [x] + UpToStop(a + b) && UpToStop([x] + a) == [x] + UpToStop(a)
    ensures Stop in [x] + a <==> Stop in a
    ensures [x] + (a + UpToStop(b)) == [x] + a + UpToStop(b)
  {
    assert ([x] + a + b)[1..] == a + b && ([x] + a)[1..] == a;
  }

  lemma {:induction false} UpToStopAppend(a: seq<Item>, b: seq<Item>)
    ensures UpToStop(a + b) == if Stop in a then UpToStop(a) else a + UpToStop(b)
    decreases |a|
  {
    if a == [] {
      assert a + b == b;
    } else if a[0].Stop? {
      assert (a + b)[0] == a[0];
    } else {
      UpToStopAppend(a[1..], b);
      UpToStopCons(a[0], a[1..], b);
      assert a == [a[0]] + a[1..];
    }
  }

  /** Writing more items, without a rollover in between. */
  lemma {:induction false} WrittenMore(ws: seq<Write>, items: seq<Item>) returns (ws': seq<Write>)
    ensures Written(ws') == ApplyAll(Written(ws), items)
    ensures Items(ws') == Items(ws) + items
  {
    if items == [] {
      ws' := ws;
    } else {
      var ws1 := WrittenMore(ws, items[..|items| - 1]);
      ws' := ws1 + [Save(items[|items| - 1])];
      assert ws'[..|ws'| - 1] == ws1;
    }
  }

  /** The database is that of writing `ws` before the last rollover, if there was one, and `more` after
      it; together these are the drained items up to the sentinel. */
  ghost predicate WrittenAs(t: Thread, ws: seq<Write>, more: seq<Item>) {
    match t.rolled
    case None => t.db == ApplyAll(EMPTY, more) && more == UpToStop(t.drained)
    case Some(rolled) =>
      && t.db == ApplyAll(RolledOver(Written(ws)), more)
      && Items(ws) == rolled && rolled + more == UpToStop(t.drained)
  }

  /** The rounds write every drained item up to the sentinel, once and in order. */
  lemma {:induction false} ThreadWrites(evs: seq<ThreadEvent>) returns (ws: seq<Write>, more: seq<Item>)
    ensures var t := ThreadRun(evs);
            && WrittenAs(t, ws, more)
            && (t.exited <==> Stop in t.drained)
            && t.drained + t.pending == Added(evs)
  {
    hide WrittenAs, RolledOver;
    if evs == [] {
      ws, more := [], [];
      NothingWritten();
    } else {
      var t, ev := ThreadRun(evs[..|evs| - 1]), evs[|evs| - 1];
      ws, more := ThreadWrites(evs[..|evs| - 1]);
      match ev
      case Add(item) => PendingIsNotWritten(t, ThreadStep(t, ev), ws, more);
      case Round(due) => if !t.exited { ws, more := RoundWrites(t, due, ws, more); }
    }
  }

  lemma NothingWritten()
    ensures WrittenAs(STARTED, [], [])
  {
  }

  lemma PendingIsNotWritten(t: Thread, t': Thread, ws: seq<Write>, more: seq<Item>)
    requires WrittenAs(t, ws, more) && t' == t.(pending := t'.pending)
    ensures WrittenAs(t', ws, more)
  {
  }

  lemma RoundWrites(t: Thread, due: bool, ws: seq<Write>, more: seq<Item>) returns (ws': seq<Write>, more': seq<Item>)
    requires WrittenAs(t, ws, more) && !t.exited && Stop !in t.drained
    ensures WrittenAs(ThreadStep(t, Round(due)), ws', more')
  {
    hide RolledOver, ApplyAll, UpToStop, Written, Items;
    NeverStops(t.drained);
    UpToStopAppend(t.drained, t.pending);
    var drained := UpToStop(t.pending);
    if due {
      ws' := WrittenSoFar(t, ws, more);
      more' := drained;
    } else {
      ws', more' := ws, more + drained;
      match t.rolled
      case None => ApplyAppend(EMPTY, more, drained);
      case Some(rolled) =>
        ApplyAppend(RolledOver(Written(ws)), more, drained);
        assert rolled + (more + drained) == rolled + more + drained;
    }
  }

  lemma WrittenSoFar(t: Thread, ws: seq<Write>, more: seq<Item>) returns (ws': seq<Write>)
    requires WrittenAs(t, ws, more) && UpToStop(t.drained) == t.drained
    ensures Written(ws') == t.db && Items(ws') == t.drained
  {
    hide RolledOver;
    if t.rolled.None? {
      ws' := WrittenMore([], more);
      assert [] + more == more;
    } else {
      assert (ws + [RollOver])[..|ws|] == ws;
      ws' := WrittenMore(ws + [RollOver], more);
    }
  }

  /** Once the queue is drained up to the sentinel, the database is determined: without a rollover it is
      that of saving the items one at a time; otherwise it has all connections that were active at the
      last rollover or opened since, and all messages pointed to then or received since, as saving one
      at a time leaves them. */
  lemma ThreadRefinesSequentialSaving(evs: seq<ThreadEvent>)
    requires Orderly(UpToStop(Added(evs))) && (ThreadRun(evs).pending == [] || ThreadRun(evs).exited)
    ensures var t, all := ThreadRun(evs), UpToStop(Added(evs));
            && (t.rolled.None? ==> t.db == ApplyAll(EMPTY, all))
            && (t.rolled.Some? ==>
                  && t.rolled.value <= all
                  && Continues(t.db, ApplyAll(EMPTY, t.rolled.value), all[|t.rolled.value|..], ApplyAll(EMPTY, all)))
            && Restricts(t.db, ApplyAll(EMPTY, all)) && Closed(t.db)
  {
    var t, all := ThreadRun(evs), UpToStop(Added(evs));
    var ws, more := ThreadWrites(evs);
    UpToStopAppend(t.drained, t.pending);
    assert t.drained + [] == t.drained;
    WrittenRefines(t, ws, more, all);
  }

  lemma WrittenRefines(t: Thread, ws: seq<Write>, more: seq<Item>, all: seq<Item>)
    requires WrittenAs(t, ws, more) && UpToStop(t.drained) == all && Orderly(all)
    ensures Restricts(t.db, ApplyAll(EMPTY, all)) && Closed(t.db)
    ensures t.rolled.None? ==> t.db == ApplyAll(EMPTY, all)
    ensures t.rolled.Some? ==>
              && t.rolled.value <= all
              && Continues(t.db, ApplyAll(EMPTY, t.rolled.value), all[|t.rolled.value|..], ApplyAll(EMPTY, all))
  {
    hide Continues, Restricts, Closed, RolledOver;
    if t.rolled.None? {
      var ws' := WrittenMore([], more);
      assert [] + more == more;
      RolloverRestricts(ws');
    } else {
      assert all[|t.rolled.value|..] == more;
      RolloverCommutes(ws, more);
    }
  }

  /** Without a rollover the tables are the same altogether. */
  lemma {:induction false} ThreadWithoutRollover(evs: seq<ThreadEvent>)
    requires forall i :: 0 <= i < |evs| ==> evs[i].Add? || !evs[i].rolloverDue
    ensures ThreadRun(evs).db == ApplyAll(EMPTY, UpToStop(ThreadRun(evs).drained))
    ensures ThreadRun(evs).exited <==> Stop in ThreadRun(evs).drained
  {
    if evs != [] {
      var t, ev := ThreadRun(evs[..|evs| - 1]), evs[|evs| - 1];
      ThreadWithoutRollover(evs[..|evs| - 1]);
      if ev.Round? && !t.exited {
        NeverStops(t.drained);
        UpToStopAppend(t.drained, t.pending);
        ApplyAppend(EMPTY, t.drained, UpToStop(t.pending));
      }
    }
  }
}
