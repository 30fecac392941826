/** Replaying a message table from a start time: first the state of every node before it, then the
    messages of the time window. Rows have a node id and no error, in the order of their ids. */
module Replaying {
  import opened Wrappers

  type NodeId = string

  /** The content of a row, which the replay does not look into. */
  type Data = nat

  datatype MessageType = RegistrationType | StatusType | OtherType

  datatype Row = Row(timestamp: int, messageType: MessageType, nodeId: NodeId, isUnchanged: bool, data: Data)

  /** The keys of the dictionary: the second part sorts as the type names do. */
  datatype Kind = Registration | New | Unchanged

  datatype Key = Key(nodeId: NodeId, kind: Kind)

  /** The order of strings. */
  predicate Precedes(a: string, b: string) {
    b != "" && (a == "" || a[0] < b[0] || (a[0] == b[0] && Precedes(a[1..], b[1..])))
  }

  lemma {:induction false} PrecedesTrans(a: string, b: string, c: string)
    requires Precedes(a, b) && Precedes(b, c)
    ensures Precedes(a, c)
  {
    if a != "" && a[0] == b[0] == c[0] { PrecedesTrans(a[1..], b[1..], c[1..]); }
  }

  lemma {:induction false} PrecedesTotal(a: string, b: string)
    ensures Precedes(a, b) || a == b || Precedes(b, a)
  {
    if a != "" && b != "" && a[0] == b[0] {
      PrecedesTotal(a[1..], b[1..]);
      assert a == [a[0]] + a[1..] && b == [b[0]] + b[1..];
    }
  }

  function KindOrder(k: Kind): nat {
    match k
    case Registration => 0
    case New => 1
    case Unchanged => 2
  }

  predicate Before(a: Key, b: Key) {
    Precedes(a.nodeId, b.nodeId) || (a.nodeId == b.nodeId && KindOrder(a.kind) < KindOrder(b.kind))
  }

  lemma BeforeTrans(a: Key, b: Key, c: Key)
    requires Before(a, b) && Before(b, c)
    ensures Before(a, c)
  {
    if Precedes(a.nodeId, b.nodeId) && Precedes(b.nodeId, c.nodeId) { PrecedesTrans(a.nodeId, b.nodeId, c.nodeId); }
  }

  lemma BeforeTotal(a: Key, b: Key)
    ensures Before(a, b) || a == b || Before(b, a)
  {
    PrecedesTotal(a.nodeId, b.nodeId);
  }

  /** Which entry of the dictionary a row goes to. */
  function KindOf(r: Row): Option<Kind> {
    match r.messageType
    case RegistrationType => Some(Registration)
    case StatusType => Some(if r.isUnchanged then Unchanged else New)
    case OtherType => None
  }

  predicate IsKind(r: Row, k: Key) {
    r.nodeId == k.nodeId && KindOf(r) == Some(k.kind)
  }

  // ----- what the state before the start time is

  /** The last row of a kind. */
  function LastOf(rows: seq<Row>, k: Key): Option<Row> {
    if rows == [] then None
    else if IsKind(rows[|rows| - 1], k) then Some(rows[|rows| - 1])
    else LastOf(rows[..|rows| - 1], k)
  }

  /** The rows after the last New status of a node. */
  function SinceNew(rows: seq<Row>, n: NodeId): seq<Row> {
    if rows == [] || IsKind(rows[|rows| - 1], Key(n, New)) then []
    else SinceNew(rows[..|rows| - 1], n) + [rows[|rows| - 1]]
  }

  /** The last registration and the last New status of each node, and the last Unchanged status if no
      New status followed it. */
  function Seed(rows: seq<Row>, k: Key): Option<Data> {
    var r := if k.kind.Unchanged? then LastOf(SinceNew(rows, k.nodeId), k) else LastOf(rows, k);
    if r.Some? then Some(r.value.data) else None
  }

  // ----- the dictionary

  type Messages = map<Key, Data>

  function Entry(m: Messages, k: Key): Option<Data> {
    if k in m then Some(m[k]) else None
  }

  function Collect(m: Messages, r: Row): Messages {
    match KindOf(r)
    case None => m
    case Some(kind) =>
      var m1 := if kind.New? then m - {Key(r.nodeId, Unchanged)} else m;
      m1[Key(r.nodeId, kind) := r.data]
  }

  function CollectAll(rows: seq<Row>): Messages {
    if rows == [] then map[] else Collect(CollectAll(rows[..|rows| - 1]), rows[|rows| - 1])
  }

  /** The dictionary holds exactly the state of each node. */
  lemma {:induction false} CollectsSeed(rows: seq<Row>, k: Key)
    ensures Entry(CollectAll(rows), k) == Seed(rows, k)
  {
    if rows != [] {
      var rows0, last := rows[..|rows| - 1], rows[|rows| - 1];
      CollectsSeed(rows0, k);
      if k.kind.Unchanged? && !IsKind(last, Key(k.nodeId, New)) {
        assert (SinceNew(rows0, k.nodeId) + [last])[..|SinceNew(rows0, k.nodeId)|] == SinceNew(rows0, k.nodeId);
      }
    }
  }

  // ----- sorting the entries

  predicate Increasing(keys: seq<Key>) {
    forall i, j :: 0 <= i < j < |keys| ==> Before(keys[i], keys[j])
  }

  /** The keys of a node stand together; of these the registration comes first, then the New status, then the
      Unchanged one, and none comes twice. Nodes come in the order of their ids. */
  predicate NodeByNode(keys: seq<Key>) {
    && (forall i, j, k :: 0 <= i < j < k < |keys| && keys[i].nodeId == keys[k].nodeId ==> keys[j].nodeId == keys[i].nodeId)
    && (forall i, j :: 0 <= i < j < |keys| && keys[i].nodeId == keys[j].nodeId ==>
          || (keys[i].kind.Registration? && !keys[j].kind.Registration?)
          || (keys[i].kind.New? && keys[j].kind.Unchanged?))
    && (forall i, j :: 0 <= i < j < |keys| && keys[i].nodeId != keys[j].nodeId ==> Precedes(keys[i].nodeId, keys[j].nodeId))
  }

  lemma {:induction false} PrecedesNot(a: string)
    ensures !Precedes(a, a)
  {
    if a != "" { PrecedesNot(a[1..]); }
  }

  lemma IncreasingMeans(keys: seq<Key>)
    requires Increasing(keys)
    ensures NodeByNode(keys)
  {
    forall i, j, k | 0 <= i < j < k < |keys| && keys[i].nodeId == keys[k].nodeId ensures keys[j].nodeId == keys[i].nodeId {
      assert Before(keys[i], keys[j]) && Before(keys[j], keys[k]);
      if keys[j].nodeId != keys[i].nodeId {
        PrecedesTrans(keys[i].nodeId, keys[j].nodeId, keys[k].nodeId);
        PrecedesNot(keys[i].nodeId);
      }
    }
    forall i, j | 0 <= i < j < |keys| && keys[i].nodeId == keys[j].nodeId
      ensures (keys[i].kind.Registration? && !keys[j].kind.Registration?) || (keys[i].kind.New? && keys[j].kind.Unchanged?)
    {
      assert Before(keys[i], keys[j]);
      PrecedesNot(keys[i].nodeId);
    }
    forall i, j | 0 <= i < j < |keys| && keys[i].nodeId != keys[j].nodeId ensures Precedes(keys[i].nodeId, keys[j].nodeId) {
      assert Before(keys[i], keys[j]);
    }
  }

  function InsertKey(k: Key, keys: seq<Key>): seq<Key> {
    if keys == [] || Before(k, keys[0]) then [k] + keys else [keys[0]] + InsertKey(k, keys[1..])
  }

  lemma {:induction false} InsertKeyIncreases(k: Key, keys: seq<Key>)
    requires Increasing(keys) && k !in keys
    ensures Increasing(InsertKey(k, keys))
    ensures forall x :: x in InsertKey(k, keys) <==> x == k || x in keys
  {
    if keys == [] {
    } else if Before(k, keys[0]) {
      forall x | x in keys ensures Before(k, x) {
        var i :| 0 <= i < |keys| && keys[i] == x;
        if i > 0 { BeforeTrans(k, keys[0], x); }
      }
      IncreasingCons(k, keys);
    } else {
      assert keys == [keys[0]] + keys[1..];
      InsertKeyIncreases(k, keys[1..]);
      BeforeTotal(k, keys[0]);
      assert Before(keys[0], k);
      forall x | x in InsertKey(k, keys[1..]) ensures Before(keys[0], x) {
        if x != k { var i :| 0 <= i < |keys[1..]| && keys[1..][i] == x; assert keys[i + 1] == x; }
      }
      IncreasingCons(keys[0], InsertKey(k, keys[1..]));
    }
  }

  lemma IncreasingCons(k: Key, keys: seq<Key>)
    requires Increasing(keys) && forall x :: x in keys ==> Before(k, x)
    ensures Increasing([k] + keys)
  {
    forall i, j | 0 <= i < j < |[k] + keys| ensures Before(([k] + keys)[i], ([k] + keys)[j]) {
      assert keys[j - 1] in keys;
    }
  }

  /** The keys of the dictionary in sorted order. */
  method SortedKeys(m: Messages) returns (keys: seq<Key>)
    ensures Increasing(keys) && NodeByNode(keys) && forall k :: k in keys <==> k in m
  {
    keys := [];
    var rest := m.Keys;
    while rest != {}
      invariant Increasing(keys) && rest <= m.Keys
      invariant forall k :: k in keys <==> k in m.Keys - rest
      decreases |rest|
    {
      var k :| k in rest;
      InsertKeyIncreases(k, keys);
      keys := InsertKey(k, keys);
      rest := rest - {k};
    }
    IncreasingMeans(keys);
  }

  // ----- the database cursor

  /** How many rows lie before a time: those up to the first row at it or later. */
  function CountBefore(rows: seq<Row>, time: int): (n: nat)
    ensures n <= |rows|
    ensures forall i :: 0 <= i < n ==> rows[i].timestamp < time
    ensures n < |rows| ==> rows[n].timestamp >= time
  {
    if rows == [] || rows[0].timestamp >= time then 0 else 1 + CountBefore(rows[1..], time)
  }

  lemma {:induction false} CountIs(rows: seq<Row>, time: int, n: nat)
    requires n <= |rows| && (forall i :: 0 <= i < n ==> rows[i].timestamp < time)
    requires n < |rows| ==> rows[n].timestamp >= time
    ensures CountBefore(rows, time) == n
  {
    if n > 0 { CountIs(rows[1..], time, n - 1); }
  }

  class Database {
    const rows: seq<Row>
    const startTime: int
    const endTime: Option<int>
    /** The position of the most recent row: all rows before it have been consumed. */
    var next: nat

    ghost predicate Valid()
      reads this
    {
      next <= |rows|
    }

    constructor (rows: seq<Row>, startTime: int, endTime: Option<int>)
      ensures Valid() && next == 0 && this.rows == rows && this.startTime == startTime && this.endTime == endTime
    {
      this.rows, this.startTime, this.endTime, next := rows, startTime, endTime, 0;
    }

    /** The state of the nodes before the start time, node by node: of each its registration, New and
        Unchanged. With no row at the start time or later it raises. */
    method GetInitialMessages() returns (keys: seq<Key>, messages: seq<Data>, raised: bool)
      requires Valid() && next == 0
      modifies this
      ensures Valid() && next == CountBefore(rows, startTime)
      ensures raised <==> next == |rows|
      ensures !raised ==> Increasing(keys) && NodeByNode(keys) && |messages| == |keys|
      ensures !raised ==> forall k :: k in keys <==> Seed(rows[..next], k).Some?
      ensures !raised ==> forall i :: 0 <= i < |keys| ==> Seed(rows[..next], keys[i]) == Some(messages[i])
    {
      var m: Messages := map[];
      while true
        invariant Valid() && m == CollectAll(rows[..next])
        invariant forall i :: 0 <= i < next ==> rows[i].timestamp < startTime
        decreases |rows| - next
      {
        if next == |rows| {
          CountIs(rows, startTime, next);
          return [], [], true;
        }
        if rows[next].timestamp >= startTime {
          CountIs(rows, startTime, next);
          break;
        }
        var r := rows[next];
        if !r.messageType.OtherType? {
          var kind := if r.messageType.RegistrationType? then Registration else if r.isUnchanged then Unchanged else New;
          if r.messageType.StatusType? && !r.isUnchanged && Key(r.nodeId, Unchanged) in m {
            m := m - {Key(r.nodeId, Unchanged)};
          }
          m := m[Key(r.nodeId, kind) := r.data];
        }
        assert rows[..next + 1][..next] == rows[..next];
        assert m == Collect(CollectAll(rows[..next]), r);
        next := next + 1;
      }
      keys := SortedKeys(m);
      messages := seq(|keys|, i requires 0 <= i < |keys| && forall k :: k in keys <==> k in m => m[keys[i]]);
      forall k ensures Entry(m, k) == Seed(rows[..next], k) { CollectsSeed(rows[..next], k); }
      raised := false;
    }

    /** The rows of the time window, in order, from the first that has not been consumed. */
    method GetMessages() returns (messages: seq<Row>)
      requires Valid()
      modifies this
      ensures Valid() && old(next) <= next
      ensures messages == rows[old(next)..next]
      ensures next == old(next) + if endTime.None? then |rows| - old(next)
                                  else CountBefore(rows[old(next)..], endTime.value)
    {
      messages := [];
      while next < |rows|
        invariant Valid() && old(next) <= next && messages == rows[old(next)..next]
        invariant endTime.Some? ==> forall i :: old(next) <= i < next ==> rows[i].timestamp < endTime.value
        decreases |rows| - next
      {
        if endTime.Some? && rows[next].timestamp >= endTime.value {
          break;
        }
        messages := messages + [rows[next]];
        next := next + 1;
      }
      if endTime.Some? { CountIs(rows[old(next)..], endTime.value, next - old(next)); }
    }
  }

  /** A replay: the state, then the window. No row before the end is lost or repeated: the rows behind
      the state and the rows of the window are the first rows of the table. */
  method Replay(rows: seq<Row>, startTime: int, endTime: Option<int>)
    returns (keys: seq<Key>, messages: seq<Data>, window: seq<Row>, raised: bool)
    ensures raised <==> forall i :: 0 <= i < |rows| ==> rows[i].timestamp < startTime
    ensures !raised ==>
              var n := CountBefore(rows, startTime);
              && n + |window| <= |rows|
              && rows[..n] + window == rows[..n + |window|]
              && (endTime.None? ==> n + |window| == |rows|)
              && (endTime.Some? && n + |window| < |rows| ==> rows[n + |window|].timestamp >= endTime.value)
              && (endTime.Some? ==> forall i :: 0 <= i < |window| ==> window[i].timestamp < endTime.value)
              && (forall k :: k in keys <==> Seed(rows[..n], k).Some?)
              && Increasing(keys) && NodeByNode(keys) && |messages| == |keys|
              && (forall i :: 0 <= i < |keys| ==> Seed(rows[..n], keys[i]) == Some(messages[i]))
  {
    var db := new Database(rows, startTime, endTime);
    keys, messages, raised := db.GetInitialMessages();
    window := [];
    if !raised {
      var n := db.next;
      window := db.GetMessages();
      assert rows[n..][..|window|] == window;
    }
  }
}
