/** The database that shadows the connections: its tables, the saver that writes them and rolls over
    to a new database, and the thread that feeds the saver in batches. */
module Saving {
  import opened Wrappers
  import opened ApexTypes

  type ConnectionId = Writer
  type MessageId = nat

  /** What the server queues for the database. */
  datatype Item =
    | Connected(id: ConnectionId, clientType: string, peer: string, time: int)
    | Received(conn: ConnectionId, msg: Message)
    | Disconnected(id: ConnectionId, time: int, reason: string)
    | Stop

  datatype ConnectionRow = ConnectionRow(
    clientType: string,
    peer: string,
    connectTime: int,
    disconnectTime: Option<int>,
    disconnectReason: Option<string>,
    recentRegistration: Option<MessageId>,
    recentNew: Option<MessageId>,
    recentUnchanged: Option<MessageId>,
    recentDetection: Option<MessageId>)

  datatype MessageRow = MessageRow(connectionId: ConnectionId, msg: Message)

  datatype Db = Db(connections: map<ConnectionId, ConnectionRow>, messages: map<MessageId, MessageRow>)

  const EMPTY := Db(map[], map[])

  // ----- saving one item

  /** How a message moves the pointers of its connection's row. */
  function Point(row: ConnectionRow, m: Message): ConnectionRow {
    if m.error.Some? || m.parsed.None? then row
    else
      match m.parsed.value.body
      case Registration(_) =>
        row.(recentRegistration := Some(m.id), recentNew := None, recentUnchanged := None, recentDetection := None)
      case StatusReport(_, false) => row.(recentNew := Some(m.id), recentUnchanged := None)
      case StatusReport(_, true) => row.(recentUnchanged := Some(m.id))
      case Detection(_) => row.(recentDetection := Some(m.id))
      case OtherBody => row
  }

  function UpdateRow(db: Db, id: ConnectionId, row: ConnectionRow -> ConnectionRow): Db {
    if id in db.connections then db.(connections := db.connections[id := row(db.connections[id])]) else db
  }

  function InsertRow(db: Db, conn: ConnectionId, m: Message): Db {
    db.(messages := db.messages[m.id := MessageRow(conn, m)])
  }

  function PointTo(db: Db, conn: ConnectionId, m: Message): Db {
    UpdateRow(db, conn, (row: ConnectionRow) => Point(row, m))
  }

  function Apply(db: Db, item: Item): Db {
    match item
    case Connected(id, clientType, peer, time) =>
      db.(connections := db.connections[id := ConnectionRow(clientType, peer, time, None, None, None, None, None, None)])
    case Received(conn, m) => PointTo(InsertRow(db, conn, m), conn, m)
    case Disconnected(id, time, reason) =>
      UpdateRow(db, id, (row: ConnectionRow) => row.(disconnectTime := Some(time), disconnectReason := Some(reason)))
    case Stop => db
  }

  function ApplyAll(db: Db, items: seq<Item>): Db {
    if items == [] then db else Apply(ApplyAll(db, items[..|items| - 1]), items[|items| - 1])
  }

  lemma {:induction false} ApplyAppend(db: Db, a: seq<Item>, b: seq<Item>)
    ensures ApplyAll(db, a + b) == ApplyAll(ApplyAll(db, a), b)
  {
    if b == [] {
      assert a + b == a;
    } else {
      assert (a + b)[..|a + b| - 1] == a + b[..|b| - 1];
      ApplyAppend(db, a, b[..|b| - 1]);
    }
  }

  // ----- saving a batch: all rows first, then all pointers

  function InsertRows(db: Db, batch: seq<Item>): Db
    requires forall i :: 0 <= i < |batch| ==> batch[i].Received?
  {
    if batch == [] then db
    else InsertRow(InsertRows(db, batch[..|batch| - 1]), batch[|batch| - 1].conn, batch[|batch| - 1].msg)
  }

  function PointRows(db: Db, batch: seq<Item>): Db
    requires forall i :: 0 <= i < |batch| ==> batch[i].Received?
  {
    if batch == [] then db
    else PointTo(PointRows(db, batch[..|batch| - 1]), batch[|batch| - 1].conn, batch[|batch| - 1].msg)
  }

  lemma {:induction false} PointCommutes(db: Db, batch: seq<Item>, conn: ConnectionId, m: Message)
    requires forall i :: 0 <= i < |batch| ==> batch[i].Received?
    ensures PointRows(InsertRow(db, conn, m), batch) == InsertRow(PointRows(db, batch), conn, m)
  {
    if batch != [] { PointCommutes(db, batch[..|batch| - 1], conn, m); }
  }

  /** A batch leaves the tables as saving its messages one at a time does. */
  lemma {:induction false} BatchIsSequential(db: Db, batch: seq<Item>)
    requires forall i :: 0 <= i < |batch| ==> batch[i].Received?
    ensures PointRows(InsertRows(db, batch), batch) == ApplyAll(db, batch)
  {
    if batch != [] {
      var init, last := batch[..|batch| - 1], batch[|batch| - 1];
      BatchIsSequential(db, init);
      PointCommutes(InsertRows(db, init), init, last.conn, last.msg);
    }
  }

  class SqliteSaver {
    var connections: map<ConnectionId, ConnectionRow>
    var messages: map<MessageId, MessageRow>

    ghost function Tables(): Db
      reads this
    {
      Db(connections, messages)
    }

    constructor ()
      ensures Tables() == EMPTY
    {
      connections, messages := map[], map[];
    }

    method InsertConnection(item: Item)
      requires item.Connected?
      modifies this
      ensures Tables() == Apply(old(Tables()), item)
    {
      connections := connections[item.id := ConnectionRow(
                                   item.clientType, item.peer, item.time, None, None, None, None, None, None)];
    }

    method UpdateConnectionMulti(batch: seq<Item>)
      requires forall i :: 0 <= i < |batch| ==> batch[i].Received?
      modifies this`connections
      ensures Tables() == PointRows(old(Tables()), batch)
    {
      for i := 0 to |batch|
        invariant Tables() == PointRows(old(Tables()), batch[..i])
      {
        assert batch[..i + 1][..i] == batch[..i];
        var conn, m := batch[i].conn, batch[i].msg;
        if m.error.Some? || m.parsed.None? || m.parsed.value.body.OtherBody? {
          continue;
        }
        if conn in connections {
          connections := connections[conn := Point(connections[conn], m)];
        }
      }
      assert batch[..|batch|] == batch;
    }

    method InsertMessageMulti(batch: seq<Item>)
      requires forall i :: 0 <= i < |batch| ==> batch[i].Received?
      modifies this
      ensures Tables() == ApplyAll(old(Tables()), batch)
    {
      for i := 0 to |batch|
        invariant Tables() == InsertRows(old(Tables()), batch[..i])
      {
        assert batch[..i + 1][..i] == batch[..i];
        messages := messages[batch[i].msg.id := MessageRow(batch[i].conn, batch[i].msg)];
      }
      assert batch[..|batch|] == batch;
      UpdateConnectionMulti(batch);
      BatchIsSequential(old(Tables()), batch);
    }

    method UpdateDisconnection(item: Item)
      requires item.Disconnected?
      modifies this`connections
      ensures Tables() == Apply(old(Tables()), item)
    {
      if item.id in connections {
        connections := connections[item.id := connections[item.id].(
                                     disconnectTime := Some(item.time), disconnectReason := Some(item.reason))];
      }
    }

    method RolloverExport() returns (active: map<ConnectionId, ConnectionRow>, recent: map<MessageId, MessageRow>)
      ensures Db(active, recent) == RolledOver(Tables())
    {
      hide PointsTo, Pointers, Pointed;
      active := map c | c in connections && connections[c].disconnectTime.None? :: connections[c];
      var allIds := set c, p | c in active && p in Pointers(active[c]) :: p;
      recent := map p | p in messages && p in allIds :: messages[p];
      AllIdsArePointed(Tables(), active, allIds);
    }

    method RolloverImport(recent: map<MessageId, MessageRow>, active: map<ConnectionId, ConnectionRow>)
      modifies this
      ensures connections == old(connections) + active && messages == old(messages) + recent
    {
      messages := messages + recent;
      connections := connections + active;
    }
  }

  // ----- rollover

  function AsSet(p: Option<MessageId>): set<MessageId> {
    if p.Some? then {p.value} else {}
  }

  predicate PointsTo(row: ConnectionRow, p: MessageId) {
    || row.recentRegistration == Some(p)
    || row.recentNew == Some(p)
    || row.recentUnchanged == Some(p)
    || row.recentDetection == Some(p)
  }

  /** The messages a row points to. */
  function Pointers(row: ConnectionRow): (s: set<MessageId>)
    ensures forall p :: p in s <==> PointsTo(row, p)
  {
    AsSet(row.recentRegistration) + AsSet(row.recentNew) + AsSet(row.recentUnchanged) + AsSet(row.recentDetection)
  }

  predicate Active(db: Db, c: ConnectionId) {
    c in db.connections && db.connections[c].disconnectTime.None?
  }

  predicate Pointed(db: Db, p: MessageId) {
    exists c :: c in db.connections && Active(db, c) && PointsTo(db.connections[c], p)
  }

  /** The new database: the active connections and the messages they point to. */
  function RolledOver(db: Db): Db {
    Db(map c | c in db.connections && Active(db, c) :: db.connections[c],
       map p | p in db.messages && Pointed(db, p) :: db.messages[p])
  }

  lemma AllIdsArePointed(db: Db, active: map<ConnectionId, ConnectionRow>, allIds: set<MessageId>)
    requires active == map c | c in db.connections && Active(db, c) :: db.connections[c]
    requires allIds == set c, p | c in active && p in Pointers(active[c]) :: p
    ensures forall p :: p in allIds <==> Pointed(db, p)
  {
    hide PointsTo;
    forall p ensures p in allIds <==> Pointed(db, p) {
      if Pointed(db, p) {
        var c :| c in db.connections && Active(db, c) && PointsTo(db.connections[c], p);
        assert c in active && p in Pointers(active[c]);
      }
      if p in allIds {
        var c :| c in active && p in Pointers(active[c]);
        assert PointsTo(db.connections[c], p);
      }
    }
  }

  method Rollover(oldSaver: SqliteSaver) returns (saver: SqliteSaver)
    ensures fresh(saver) && saver.Tables() == RolledOver(oldSaver.Tables())
  {
    saver := new SqliteSaver();
    var active, recent := oldSaver.RolloverExport();
    saver.RolloverImport(recent, active);
  }

  // ----- the thread

  const CHUNK_SIZE := 50

  /** The items before the sentinel. */
  function UpToStop(items: seq<Item>): seq<Item> {
    if items == [] || items[0].Stop? then [] else [items[0]] + UpToStop(items[1..])
  }

  predicate SameType(a: Item, b: Item) {
    (a.Connected? <==> b.Connected?) && (a.Received? <==> b.Received?) && (a.Disconnected? <==> b.Disconnected?)
  }

  function Smaller(a: nat, b: nat): nat {
    if a < b then a else b
  }

  /** The first n items are in the chunks: 50 in each, in order, and the rest in the last. */
  ghost predicate Chunked(group: seq<Item>, chunks: seq<seq<Item>>, n: nat) {
    && n == Smaller(50 * |chunks|, |group|)
    && (forall k :: 0 <= k < |chunks| ==> 50 * k < |group| && chunks[k] == group[50 * k..Smaller(50 * k + 50, |group|)])
  }

  lemma NothingSaved(db: Db, group: seq<Item>)
    ensures ApplyAll(db, group[..0]) == db && Chunked(group, [], 0)
  {
  }

  lemma NextChunk(db: Db, group: seq<Item>, chunks: seq<seq<Item>>, start: nat, end: nat)
    requires start < |group| && end == Smaller(start + CHUNK_SIZE, |group|) && Chunked(group, chunks, start)
    ensures Chunked(group, chunks + [group[start..end]], end)
    ensures ApplyAll(ApplyAll(db, group[..start]), group[start..end]) == ApplyAll(db, group[..end])
  {
    ApplyAppend(db, group[..start], group[start..end]);
    assert group[..start] + group[start..end] == group[..end];
  }

  class SqliteThread {
    var pending: seq<Item>
    var saver: SqliteSaver
    var exited: bool

    constructor ()
      ensures fresh(saver) && pending == [] && saver.Tables() == EMPTY && !exited
    {
      saver := new SqliteSaver();
      pending, exited := [], false;
    }

    method Add(item: Item)
      modifies this`pending
      ensures pending == old(pending) + [item]
    {
      pending := pending + [item];
    }

    /** The end of the group that starts at i: the longest run of items of its type. */
    method GroupEnd(items: seq<Item>, i: nat) returns (j: nat)
      requires i < |items|
      ensures i < j <= |items|
      ensures forall k :: i <= k < j ==> SameType(items[k], items[i])
      ensures j < |items| ==> !SameType(items[j], items[i])
    {
      j := i + 1;
      while j < |items| && SameType(items[j], items[i])
        invariant i < j <= |items|
        invariant forall k :: i <= k < j ==> SameType(items[k], items[i])
      {
        j := j + 1;
      }
    }

    /** A group of messages, in chunks. */
    method SaveMessages(group: seq<Item>) returns (chunks: seq<seq<Item>>)
      requires forall k :: 0 <= k < |group| ==> group[k].Received?
      modifies saver
      ensures saver.Tables() == ApplyAll(old(saver.Tables()), group) && Chunked(group, chunks, |group|)
    {
      hide ApplyAll, Chunked;
      ghost var db := saver.Tables();
      chunks := [];
      var start := 0;
      NothingSaved(db, group);
      while start < |group|
        invariant 0 <= start <= |group| && Chunked(group, chunks, start)
        invariant saver.Tables() == ApplyAll(db, group[..start])
      {
        var end := if start + CHUNK_SIZE < |group| then start + CHUNK_SIZE else |group|;
        NextChunk(db, group, chunks, start, end);
        saver.InsertMessageMulti(group[start..end]);
        chunks := chunks + [group[start..end]];
        start := end;
      }
      assert group[..|group|] == group;
    }

    /** One group of items of one type, messages in chunks. */
    method SaveGroup(group: seq<Item>) returns (chunks: seq<seq<Item>>)
      requires group != [] && !group[0].Stop? && forall k :: 0 <= k < |group| ==> SameType(group[k], group[0])
      modifies saver
      ensures saver.Tables() == ApplyAll(old(saver.Tables()), group)
      ensures if group[0].Received? then Chunked(group, chunks, |group|) else chunks == []
    {
      chunks := [];
      if group[0].Received? {
        chunks := SaveMessages(group);
      } else {
        for k := 0 to |group|
          invariant saver.Tables() == ApplyAll(old(saver.Tables()), group[..k])
        {
          assert group[..k + 1][..k] == group[..k];
          if group[k].Connected? {
            saver.InsertConnection(group[k]);
          } else {
            saver.UpdateDisconnection(group[k]);
          }
        }
        assert group[..|group|] == group;
      }
    }

    /** One round of the thread: a rollover if it is due, then everything pending. */
    method Round(rolloverDue: bool)
      requires !exited
      modifies this, saver
      ensures pending == [] && (saver == old(saver) || fresh(saver))
      ensures var db := if rolloverDue then RolledOver(old(saver.Tables())) else old(saver.Tables());
              saver.Tables() == ApplyAll(db, UpToStop(old(pending)))
      ensures exited <==> Stop in old(pending)
    {
      hide ApplyAll, UpToStop, RolledOver;
      if rolloverDue {
        saver := Rollover(saver);
      }
      ghost var db := saver.Tables();
      var lastPending := pending;
      pending := [];
      var i := 0;
      NothingSaved(db, lastPending);
      while i < |lastPending|
        invariant 0 <= i <= |lastPending| && pending == [] && !exited
        invariant saver == old(saver) || fresh(saver)
        invariant Stop !in lastPending[..i] && saver.Tables() == ApplyAll(db, lastPending[..i])
      {
        var j := GroupEnd(lastPending, i);
        if lastPending[i].Stop? {
          StopsHere(lastPending, i);
          exited := true;
          return;
        }
        NextGroup(db, lastPending, i, j);
        var _ := SaveGroup(lastPending[i..j]);
        i := j;
      }
      assert lastPending[..|lastPending|] == lastPending;
      NeverStops(lastPending);
    }
  }

  lemma NextGroup(db: Db, items: seq<Item>, i: nat, j: nat)
    requires i < j <= |items| && !items[i].Stop? && forall k :: i <= k < j ==> SameType(items[k], items[i])
    ensures ApplyAll(ApplyAll(db, items[..i]), items[i..j]) == ApplyAll(db, items[..j])
    ensures Stop !in items[..i] ==> Stop !in items[..j]
  {
    ApplyAppend(db, items[..i], items[i..j]);
    assert items[..i] + items[i..j] == items[..j];
    forall k | i <= k < j ensures items[k] != Stop { assert SameType(items[k], items[i]); }
  }

  lemma {:induction false} StopsHere(items: seq<Item>, i: nat)
    requires i < |items| && items[i].Stop? && Stop !in items[..i]
    ensures UpToStop(items) == items[..i] && Stop in items
  {
    if i > 0 {
      assert items[0] in items[..i] && items[1..][..i - 1] == items[..i][1..];
      StopsHere(items[1..], i - 1);
    }
  }

  lemma {:induction false} NeverStops(items: seq<Item>)
    requires Stop !in items
    ensures UpToStop(items) == items
  {
    if items != [] { NeverStops(items[1..]); }
  }
}
