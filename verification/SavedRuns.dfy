/** The database against the shared data: in every run of the server, the row of the child that owns
    a node points to the messages that the shared data hold for that node. */
module SavedRuns {
  import opened Wrappers
  import opened ApexTypes
  import opened ApexRouting
  import opened ApexLogs
  import opened ApexRuns
  import opened ApexTheorems
  import opened ApexOutcomes
  import opened Sequences
  import S = Saving
  import T = SavingTheorems

  /** The time, the peer's address and the reason that go into the record of an event. */
  datatype Stamp = Stamp(time: int, peer: string, reason: string)

  predicate Stored(m: Message) {
    m.error.None? || m.error.value.severity != Unstored
  }

  function TypeName(ev: Event): string {
    match ev
    case OpenChild => "Child"
    case OpenPeer => "Peer"
    case OpenParent(_) => "Parent"
    case _ => "Recorder"
  }

  /** An exception leaves the handler of a message, so that the server does not come to save it. */
  predicate Escapes(cfg: Config, st: State, w: Writer, m: Message) {
    if w in st.children then ChildMessage(cfg, st.shared, w, st.children[w], m).escaped
    else if w in st.peers then PeerMessage(cfg, st.shared, w, st.peers[w], m).escaped
    else if w in st.parents then ParentMessage(st.shared, w, m).escaped
    else w in st.recorders && RecorderMessage(st.shared, m).escaped
  }

  predicate Saved(cfg: Config, st: State, w: Writer, m: Message) {
    IsOpen(st, w) && !Escapes(cfg, st, w, m) && Stored(ApexTheorems.Received(cfg, st, w, m))
  }

  /** What the server queues for the database on an event. */
  function Queued(cfg: Config, st: State, ev: Event, stamp: Stamp): seq<S.Item> {
    match ev
    case Receive(w, m) =>
      if Saved(cfg, st, w, m) then [S.Received(w, ApexTheorems.Received(cfg, st, w, m))] else []
    case Close(w) => if IsOpen(st, w) then [S.Disconnected(w, stamp.time, stamp.reason)] else []
    case _ => [S.Connected(st.nextWriter, TypeName(ev), stamp.peer, stamp.time)]
  }

  function QueuedBy(cfg: Config, evs: seq<Event>, stamps: seq<Stamp>): seq<S.Item>
    requires |stamps| == |evs|
  {
    if evs == [] then []
    else
      var n := |evs| - 1;
      QueuedBy(cfg, evs[..n], stamps[..n]) + Queued(cfg, Run(cfg, INITIAL, evs[..n]), evs[n], stamps[n])
  }

  // ----- the items are orderly

  function IdsOf(evs: seq<Event>): seq<nat> {
    if evs == [] then []
    else
      var ev := evs[|evs| - 1];
      IdsOf(evs[..|evs| - 1]) + (if ev.Receive? then [ev.m.id] else [])
  }

  /** Message ids come from one counter. */
  predicate FreshIds(evs: seq<Event>) {
    Distinct(IdsOf(evs))
  }

  lemma ReceivedKeepsId(cfg: Config, st: State, w: Writer, m: Message)
    ensures ApexTheorems.Received(cfg, st, w, m).id == m.id
  {
    if w in st.children {
      ChildKeepsId(cfg, st.shared, w, st.children[w], m);
    } else if w in st.peers {
      PeerKeepsId(cfg, st.shared, w, st.peers[w], m);
    }
  }

  lemma ChildKeepsId(cfg: Config, s: Shared, w: Writer, c: ChildState, m: Message)
    ensures ChildInner(cfg, s, w, c, m).msg.id == m.id && ChildMessage(cfg, s, w, c, m).msg.id == m.id
  {
    var i := ChildInner(cfg, s, w, c, m);
    assert i.msg.id == m.id;
    assert ChildFinish(i, w).msg.id == i.msg.id;
  }

  lemma PeerKeepsId(cfg: Config, s: Shared, w: Writer, d: Option<NodeId>, m: Message)
    ensures PeerMessage(cfg, s, w, d, m).msg.id == m.id
  {
  }

  /** The tables know the open connections, and no message that has not been received. */
  ghost predicate Knows(st: State, ids: seq<nat>, db: S.Db) {
    && (forall w :: S.Active(db, w) <==> IsOpen(st, w))
    && (forall w :: w in db.connections ==> w < st.nextWriter)
    && (forall p :: p in db.messages ==> p in ids)
  }

  lemma KnowsReceive(st: State, st': State, w: Writer, r: Message, ids: seq<nat>, db: S.Db)
    requires Knows(st, ids, db) && IsOpen(st, w) && r.id !in ids
    requires st'.nextWriter == st.nextWriter && forall x :: IsOpen(st', x) <==> IsOpen(st, x)
    ensures T.Follows(db, S.Received(w, r)) && Knows(st', ids + [r.id], S.Apply(db, S.Received(w, r)))
  {
    assert S.Active(db, w);
    T.PointPointers(db.connections[w], r);
    var db' := S.Apply(db, S.Received(w, r));
    forall x ensures S.Active(db', x) <==> S.Active(db, x) {
    }
  }

  lemma KnowsClose(st: State, w: Writer, item: S.Item, ids: seq<nat>, db: S.Db)
    requires Inv(st) && Knows(st, ids, db) && IsOpen(st, w) && item.Disconnected? && item.id == w
    ensures T.Follows(db, item) && Knows(CloseStep(st, w), ids, S.Apply(db, item))
  {
    forall x ensures IsOpen(CloseStep(st, w), x) <==> IsOpen(st, x) && x != w {
    }
    forall x ensures S.Active(S.Apply(db, item), x) <==> S.Active(db, x) && x != w {
    }
  }

  lemma KnowsOpen(cfg: Config, st: State, ev: Event, item: S.Item, ids: seq<nat>, db: S.Db)
    requires Inv(st) && Knows(st, ids, db) && !ev.Receive? && !ev.Close?
    requires item.Connected? && item.id == st.nextWriter
    ensures T.Follows(db, item) && Knows(Step(cfg, st, ev), ids, S.Apply(db, item))
  {
    forall x ensures IsOpen(Step(cfg, st, ev), x) <==> IsOpen(st, x) || x == st.nextWriter {
    }
    forall x ensures S.Active(S.Apply(db, item), x) <==> S.Active(db, x) || x == st.nextWriter {
    }
  }

  lemma ReceiveKeepsOpen(cfg: Config, st: State, w: Writer, m: Message)
    ensures forall x :: IsOpen(ReceiveStep(cfg, st, w, m), x) <==> IsOpen(st, x)
    ensures ReceiveStep(cfg, st, w, m).nextWriter == st.nextWriter
  {
    hide ChildMessage, PeerMessage, ParentMessage, RecorderMessage;
  }

  lemma CloseOfNobody(st: State, w: Writer)
    requires !IsOpen(st, w)
    ensures CloseStep(st, w) == st
  {
    assert st.recorders - {w} == st.recorders;
  }

  /** When nothing is queued nothing is new. */
  lemma KnowsMore(st: State, st': State, ids: seq<nat>, more: seq<nat>, db: S.Db)
    requires Knows(st, ids, db) && st'.nextWriter == st.nextWriter && forall x :: IsOpen(st', x) <==> IsOpen(st, x)
    ensures Knows(st', ids + more, db)
  {
    hide IsOpen;
  }

  lemma KnowsStep(cfg: Config, st: State, ev: Event, stamp: Stamp, ids: seq<nat>, db: S.Db)
    requires Inv(st) && Knows(st, ids, db)
    requires ev.Receive? ==> ev.m.id !in ids
    ensures var items := Queued(cfg, st, ev, stamp);
            && (items != [] ==> |items| == 1 && T.Follows(db, items[0]))
            && Knows(Step(cfg, st, ev), ids + (if ev.Receive? then [ev.m.id] else []),
                     if items == [] then db else S.Apply(db, items[0]))
  {
    hide Inv, Knows, ReceiveStep, CloseStep;
    assert ids + [] == ids;
    match ev
    case Receive(w, m) =>
      ReceiveKeepsOpen(cfg, st, w, m);
      ReceivedKeepsId(cfg, st, w, m);
      var r := ApexTheorems.Received(cfg, st, w, m);
      if Saved(cfg, st, w, m) {
        KnowsReceive(st, ReceiveStep(cfg, st, w, m), w, r, ids, db);
      } else {
        KnowsMore(st, ReceiveStep(cfg, st, w, m), ids, [m.id], db);
      }
    case Close(w) =>
      if IsOpen(st, w) {
        KnowsClose(st, w, S.Disconnected(w, stamp.time, stamp.reason), ids, db);
      } else {
        CloseOfNobody(st, w);
      }
    case _ => KnowsOpen(cfg, st, ev, S.Connected(st.nextWriter, TypeName(ev), stamp.peer, stamp.time), ids, db);
  }

  lemma {:induction false} QueuedIsOrderly(cfg: Config, evs: seq<Event>, stamps: seq<Stamp>)
    requires |stamps| == |evs| && FreshIds(evs)
    ensures T.Orderly(QueuedBy(cfg, evs, stamps))
    ensures Knows(Run(cfg, INITIAL, evs), IdsOf(evs), S.ApplyAll(S.EMPTY, QueuedBy(cfg, evs, stamps)))
  {
    hide Knows, Queued, Step, Inv, T.Follows, S.Apply;
    if evs == [] {
      NothingKnown();
    } else {
      var n := |evs| - 1;
      var st, ids := Run(cfg, INITIAL, evs[..n]), IdsOf(evs[..n]);
      var before, items := QueuedBy(cfg, evs[..n], stamps[..n]), Queued(cfg, st, evs[n], stamps[n]);
      assert ids == IdsOf(evs)[..|ids|];
      if evs[n].Receive? { assert IdsOf(evs)[|ids|] == evs[n].m.id; }
      QueuedIsOrderly(cfg, evs[..n], stamps[..n]);
      Reachable(cfg, evs[..n]);
      KnowsStep(cfg, st, evs[n], stamps[n], ids, S.ApplyAll(S.EMPTY, before));
      if items == [] {
        assert before + items == before;
      } else {
        assert (before + items)[..|before|] == before && (before + items)[|before|] == items[0];
      }
    }
  }

  lemma NothingKnown()
    ensures Knows(INITIAL, [], S.EMPTY)
  {
  }

  // ----- pointers

  function IdOf(c: Option<Content>): Option<nat> {
    if c.Some? then Some(c.value.id) else None
  }

  /** The row points to what the shared data hold. */
  predicate PointsTo(row: S.ConnectionRow, i: Sensor) {
    && row.recentRegistration == Some(i.registration.id)
    && row.recentNew == IdOf(i.recentNew)
    && row.recentUnchanged == IdOf(i.recentUnchanged)
  }

  ghost predicate Shadows(db: S.Db, st: State) {
    && (forall w :: IsOpen(st, w) ==> w in db.connections)
    && (forall n :: n in st.shared.registered ==>
          var i := st.shared.registered[n];
          i.writer in db.connections && PointsTo(db.connections[i.writer], i))
  }

  /** A child's message that ends without error moves the pointers as it moves the records. */
  lemma PointShadows(row: S.ConnectionRow, before: Option<NodeView>, i: Sensor, m: Message, n: NodeId)
    requires m.error.None? && m.parsed.Some?
    requires var p := Forward(FromChild, ContentOf(m)); IsFrom(p, n) && Some(Snapshot(i)) == ViewStep(before, p, n)
    requires before.Some? ==>
               && row.recentRegistration == Some(before.value.registration.id)
               && row.recentNew == IdOf(before.value.recentNew)
               && row.recentUnchanged == IdOf(before.value.recentUnchanged)
    ensures PointsTo(S.Point(row, m), i)
  {
  }

  lemma ChildShadows(cfg: Config, st: State, w: Writer, m: Message, db: S.Db)
    requires Inv(st) && w in st.children && Shadows(db, st)
    ensures var r := ApexTheorems.Received(cfg, st, w, m);
            Shadows(if Saved(cfg, st, w, m) then S.Apply(db, S.Received(w, r)) else db, ReceiveStep(cfg, st, w, m))
  {
    hide Inv, Shadows, ChildInner, TableStep, Escapes;
    ChildEscapesNot(cfg, st, w, m);
    var s, c := st.shared, st.children[w];
    var i, o := ChildInner(cfg, s, w, c, m), ChildMessage(cfg, s, w, c, m);
    ChildMessageShape(cfg, s, w, c, m);
    ChildKeepsId(cfg, s, w, c, m);
    if i.msg.error.None? {
      ChildTable(cfg, st, w, m);
      var n := i.conn.nodeId.value;
      assert ContentOf(o.msg) == ContentOf(i.msg);
      AcceptedShadows(st, w, i, o.msg, db);
      ShadowsAfter(db, S.Apply(db, S.Received(w, o.msg)), st, ReceiveStep(cfg, st, w, m), i.shared);
    } else {
      FailedShadows(st, ReceiveStep(cfg, st, w, m), w, o.msg, db);
    }
  }

  /** The handler of a child turns an exception into an error. */
  lemma ChildEscapesNot(cfg: Config, st: State, w: Writer, m: Message)
    requires w in st.children
    ensures !Escapes(cfg, st, w, m)
  {
    hide ChildInner;
  }

  lemma ShadowsAfter(db: S.Db, db': S.Db, st: State, st': State, s': Shared)
    requires Shadows(db, st) && db'.connections.Keys == db.connections.Keys
    requires forall x :: IsOpen(st', x) ==> IsOpen(st, x)
    requires st'.shared.registered == s'.registered
    requires forall k :: k in s'.registered ==>
               var x := s'.registered[k]; x.writer in db'.connections && PointsTo(db'.connections[x.writer], x)
    ensures Shadows(db', st')
  {
    hide PointsTo;
  }

  /** A message with an error moves no pointer. */
  lemma FailedShadows(st: State, st': State, w: Writer, r: Message, db: S.Db)
    requires Shadows(db, st) && r.error.Some?
    requires st'.shared.registered == st.shared.registered && forall x :: IsOpen(st', x) ==> IsOpen(st, x)
    ensures Shadows(if Stored(r) then S.Apply(db, S.Received(w, r)) else db, st')
  {
    hide PointsTo;
    assert w in db.connections ==> S.Point(db.connections[w], r) == db.connections[w];
  }

  lemma AcceptedShadows(st: State, w: Writer, i: Outcome<ChildState>, m: Message, db: S.Db)
    requires Inv(st) && w in st.children && Shadows(db, st)
    requires i.msg.parsed.Some? && i.conn.nodeId.Some? && TableStep(st.shared, w, st.children[w], i)
    requires i.msg.parsed.value.nodeId == i.conn.nodeId
    requires m.error.None? && m.parsed == i.msg.parsed && m.id == i.msg.id
    ensures var db' := S.Apply(db, S.Received(w, m));
            forall k :: k in i.shared.registered ==>
              var x := i.shared.registered[k];
              x.writer in db'.connections && PointsTo(db'.connections[x.writer], x)
  {
    var s, n, db' := st.shared, i.conn.nodeId.value, S.Apply(db, S.Received(w, m));
    var before := if n in s.registered && s.registered[n].writer == w then Some(Snapshot(s.registered[n])) else None;
    assert IsOpen(st, w);
    PointShadows(db.connections[w], before, i.shared.registered[n], m, n);
    forall k | k in i.shared.registered && k != n ensures s.registered[k].writer != w {
      assert st.children[s.registered[k].writer].nodeId == Some(k);
    }
  }

  lemma ShadowsStep(cfg: Config, st: State, ev: Event, stamp: Stamp, db: S.Db)
    requires Inv(st) && Shadows(db, st)
    ensures Shadows(S.ApplyAll(db, Queued(cfg, st, ev, stamp)), Step(cfg, st, ev))
  {
    hide Inv, Shadows;
    var items := Queued(cfg, st, ev, stamp);
    if items != [] { ApplyOne(db, items[0]); }
    match ev
    case Receive(w, m) =>
      if w in st.children {
        ChildShadows(cfg, st, w, m, db);
      } else {
        OtherReceives(cfg, st, w, m);
        OtherShadows(st, ReceiveStep(cfg, st, w, m), db, S.ApplyAll(db, items), w);
      }
    case Close(w) =>
      if IsOpen(st, w) { CloseShadows(st, w, db, items[0]); } else { CloseOfNobody(st, w); }
    case _ => OpenShadows(cfg, st, ev, items[0], db);
  }

  lemma OpenShadows(cfg: Config, st: State, ev: Event, item: S.Item, db: S.Db)
    requires Inv(st) && Shadows(db, st) && !ev.Receive? && !ev.Close?
    requires item.Connected? && item.id == st.nextWriter
    ensures Shadows(S.Apply(db, item), Step(cfg, st, ev))
  {
    hide Informed, AllGrammar, ReplayAll, Listed, PointsTo;
    forall n | n in st.shared.registered ensures st.shared.registered[n].writer != item.id {
      assert st.shared.registered[n].writer in st.children;
    }
  }

  lemma ApplyOne(db: S.Db, item: S.Item)
    ensures S.ApplyAll(db, [item]) == S.Apply(db, item)
  {
    assert [item][..0] == [];
  }

  lemma OtherShadows(st: State, st': State, db: S.Db, db': S.Db, w: Writer)
    requires Inv(st) && Shadows(db, st) && w !in st.children
    requires st'.shared.registered == st.shared.registered && forall x :: IsOpen(st', x) <==> IsOpen(st, x)
    requires db'.connections.Keys == db.connections.Keys
    requires forall x :: x in db.connections && x != w ==> db'.connections[x] == db.connections[x]
    ensures Shadows(db', st')
  {
  }

  lemma DisconnectKeepsPointers(db: S.Db, item: S.Item, w: Writer, i: Sensor)
    requires item.Disconnected? && w in db.connections && PointsTo(db.connections[w], i)
    ensures w in S.Apply(db, item).connections && PointsTo(S.Apply(db, item).connections[w], i)
  {
  }

  lemma ClosedSensors(st: State, w: Writer, n: NodeId)
    requires n in CloseStep(st, w).shared.registered
    ensures n in st.shared.registered && CloseStep(st, w).shared.registered[n] == st.shared.registered[n]
  {
  }

  lemma CloseShadows(st: State, w: Writer, db: S.Db, item: S.Item)
    requires Shadows(db, st) && item.Disconnected?
    ensures Shadows(S.Apply(db, item), CloseStep(st, w))
  {
    var db', st' := S.Apply(db, item), CloseStep(st, w);
    forall x | IsOpen(st', x) ensures x in db'.connections { assert IsOpen(st, x); }
    forall n | n in st'.shared.registered
      ensures var i := st'.shared.registered[n]; i.writer in db'.connections && PointsTo(db'.connections[i.writer], i)
    {
      ClosedSensors(st, w, n);
      var i := st.shared.registered[n];
      DisconnectKeepsPointers(db, item, i.writer, i);
    }
  }

  /** After every run of the server, saving what it queued one item at a time leaves the row of each
      node's owner pointing to the node's registration, last New and last Unchanged status. */
  lemma {:induction false} PointersMatchSensors(cfg: Config, evs: seq<Event>, stamps: seq<Stamp>)
    requires |stamps| == |evs|
    ensures Shadows(S.ApplyAll(S.EMPTY, QueuedBy(cfg, evs, stamps)), Run(cfg, INITIAL, evs))
  {
    if evs != [] {
      var n := |evs| - 1;
      var st := Run(cfg, INITIAL, evs[..n]);
      var before, items := QueuedBy(cfg, evs[..n], stamps[..n]), Queued(cfg, st, evs[n], stamps[n]);
      PointersMatchSensors(cfg, evs[..n], stamps[..n]);
      Reachable(cfg, evs[..n]);
      ShadowsStep(cfg, st, evs[n], stamps[n], S.ApplyAll(S.EMPTY, before));
      S.ApplyAppend(S.EMPTY, before, items);
    }
  }

  /** The same holds of the database of the saving thread, whatever its rounds and rollovers, once it
      has drained its queue, with or without the sentinel that ends it: that a database was rolled over
      does not show. */
  lemma ThreadShadowsSensors(cfg: Config, evs: seq<Event>, stamps: seq<Stamp>, rounds: seq<T.ThreadEvent>)
    requires |stamps| == |evs| && FreshIds(evs)
    requires T.Added(rounds) == QueuedBy(cfg, evs, stamps) || T.Added(rounds) == QueuedBy(cfg, evs, stamps) + [S.Stop]
    requires T.ThreadRun(rounds).pending == [] || T.ThreadRun(rounds).exited
    ensures Shadows(T.ThreadRun(rounds).db, Run(cfg, INITIAL, evs)) && T.Closed(T.ThreadRun(rounds).db)
  {
    var items := QueuedBy(cfg, evs, stamps);
    QueuedIsOrderly(cfg, evs, stamps);
    OrderlyNeverStops(items);
    S.NeverStops(items);
    T.UpToStopAppend(items, [S.Stop]);
    assert items + [] == items;
    T.ThreadRefinesSequentialSaving(rounds);
    PointersMatchSensors(cfg, evs, stamps);
    Reachable(cfg, evs);
    var st, r, s := Run(cfg, INITIAL, evs), T.ThreadRun(rounds).db, S.ApplyAll(S.EMPTY, items);
    forall w | IsOpen(st, w) ensures w in r.connections && r.connections[w] == s.connections[w] {
      assert S.Active(s, w);
    }
    forall n | n in st.shared.registered ensures IsOpen(st, st.shared.registered[n].writer) {
    }
  }

  lemma {:induction false} OrderlyNeverStops(items: seq<S.Item>)
    requires T.Orderly(items)
    ensures S.Stop !in items
  {
    if items != [] {
      OrderlyNeverStops(items[..|items| - 1]);
      assert items == items[..|items| - 1] + [items[|items| - 1]];
    }
  }

  // ----- what is saved of a message

  /** Nobody handles a message without content, and without an error, that a parent or, if it is to be handed
      on, a recorder sends: the exception ends the connection before the message is saved. */
  predicate Lost(st: State, w: Writer, m: Message) {
    && m.error.None? && m.parsed.None?
    && (w in st.parents || (w in st.recorders && exists x :: x in st.parents && st.parents[x]))
  }

  predicate IsUnstored(e: Option<Error>) {
    e.Some? && e.value.severity == Unstored
  }

  /** What the record of a message ends as. */
  function RecordOf(cfg: Config, evs: seq<Event>, w: Writer, m: Message): Message {
    Message(m.id, m.receivedAt, ParsedInTheEnd(cfg, evs, w, m), RefusalOf(cfg, evs, w, m),
            if Accepted(cfg, evs, w, m) then |Recipients(Run(cfg, INITIAL, evs), w, m)| else 0)
  }

  predicate ToBeSaved(cfg: Config, evs: seq<Event>, w: Writer, m: Message) {
    var st := Run(cfg, INITIAL, evs);
    IsOpen(st, w) && !Lost(st, w, m) && !IsUnstored(RefusalOf(cfg, evs, w, m))
  }

  lemma PeerNeverEscapes(cfg: Config, s: Shared, w: Writer, d: Option<NodeId>, m: Message)
    ensures !PeerMessage(cfg, s, w, d, m).escaped
  {
    hide FanOut, ErrorReplies, ParentTargets;
  }

  lemma OthersEscapeExactlyWhen(s: Shared, w: Writer, m: Message)
    ensures ParentMessage(s, w, m).escaped <==> m.error.None? && m.parsed.None?
    ensures RecorderMessage(s, m).escaped <==> m.error.None? && m.parsed.None? && s.parentsAll != []
  {
    hide FanOut, ErrorReplies;
    OthersNone(s.parentsAll);
    assert s.parentsAll + [] == s.parentsAll;
  }

  lemma ForwardAllAre(st: State)
    requires Inv(st)
    ensures st.shared.parentsAll != [] <==> exists x :: x in st.parents && st.parents[x]
  {
    hide Informed, AllGrammar, Owners;
    if st.shared.parentsAll != [] { assert st.shared.parentsAll[0] in st.shared.parentsAll; }
    forall x | x in st.parents && st.parents[x] ensures x in st.shared.parentsAll {
      assert x in ParentsOf(st.parents, true);
    }
  }

  lemma EscapesExactlyWhen(cfg: Config, st: State, w: Writer, m: Message)
    requires Inv(st)
    ensures Escapes(cfg, st, w, m) <==> Lost(st, w, m)
  {
    hide ChildMessage, PeerMessage, ParentMessage, RecorderMessage, Inv;
    RolesApart(st);
    ForwardAllAre(st);
    OthersEscapeExactlyWhen(st.shared, w, m);
    if w in st.children { ChildEscapesNot(cfg, st, w, m); }
    if w in st.peers { PeerNeverEscapes(cfg, st.shared, w, st.peers[w], m); }
  }

  lemma QueuedExactlyWhen(cfg: Config, evs: seq<Event>, stamp: Stamp, w: Writer, m: Message)
    requires m.forwardedCount == 0
    ensures Queued(cfg, Run(cfg, INITIAL, evs), Receive(w, m), stamp)
            == if ToBeSaved(cfg, evs, w, m) then [S.Received(w, RecordOf(cfg, evs, w, m))] else []
  {
    hide Escapes, Inv, RefusalOf, ParsedInTheEnd, Recipients, ApexTheorems.Received, Lost;
    var st := Run(cfg, INITIAL, evs);
    Reachable(cfg, evs);
    EscapesExactlyWhen(cfg, st, w, m);
    if IsOpen(st, w) { MessageHandled(cfg, evs, w, m); }
  }

  lemma {:induction false} QueuedAt(cfg: Config, evs: seq<Event>, stamps: seq<Stamp>, k: nat, item: S.Item)
    requires |stamps| == |evs| && k < |evs| && item in Queued(cfg, Run(cfg, INITIAL, evs[..k]), evs[k], stamps[k])
    ensures item in QueuedBy(cfg, evs, stamps)
    decreases |evs|
  {
    hide Queued, Run;
    var n := |evs| - 1;
    if k < n {
      assert evs[..n][..k] == evs[..k];
      QueuedAt(cfg, evs[..n], stamps[..n], k, item);
    }
  }

  /** An item with a message's id comes from that message. */
  lemma {:induction false} QueuedFrom(cfg: Config, evs: seq<Event>, stamps: seq<Stamp>, item: S.Item) returns (k: nat)
    requires |stamps| == |evs| && item in QueuedBy(cfg, evs, stamps)
    ensures k < |evs| && item in Queued(cfg, Run(cfg, INITIAL, evs[..k]), evs[k], stamps[k])
    decreases |evs|
  {
    hide Queued, Run;
    var n := |evs| - 1;
    if item in QueuedBy(cfg, evs[..n], stamps[..n]) {
      k := QueuedFrom(cfg, evs[..n], stamps[..n], item);
      assert evs[..n][..k] == evs[..k];
    } else {
      k := n;
    }
  }

  lemma {:induction false} IdsAreFresh(evs: seq<Event>, j: nat, k: nat)
    requires FreshIds(evs) && j < |evs| && k < |evs| && evs[j].Receive? && evs[k].Receive? && evs[j].m.id == evs[k].m.id
    ensures j == k
    decreases |evs|
  {
    var n := |evs| - 1;
    var ids := IdsOf(evs[..n]);
    assert ids == IdsOf(evs)[..|ids|];
    if evs[n].Receive? {
      assert IdsOf(evs)[|ids|] == evs[n].m.id;
      if j < n { IdIsListed(evs[..n], j); }
      if k < n { IdIsListed(evs[..n], k); }
    }
    if j < n && k < n {
      IdsAreFresh(evs[..n], j, k);
    }
  }

  lemma {:induction false} IdIsListed(evs: seq<Event>, j: nat)
    requires j < |evs| && evs[j].Receive?
    ensures evs[j].m.id in IdsOf(evs)
    decreases |evs|
  {
    if j < |evs| - 1 {
      IdIsListed(evs[..|evs| - 1], j);
    }
  }

  /** In every run, for every message received: there is a row for it exactly if it came on an open
      connection, was not lost, and was not refused as one not to be stored; and then the row has its
      connection and all that became of it. */
  lemma SavedAs(cfg: Config, evs: seq<Event>, stamps: seq<Stamp>, k: nat)
    requires |stamps| == |evs| && FreshIds(evs) && k < |evs| && evs[k].Receive? && evs[k].m.forwardedCount == 0
    ensures var db, before := S.ApplyAll(S.EMPTY, QueuedBy(cfg, evs, stamps)), evs[..k];
            var w, m := evs[k].w, evs[k].m;
            && (m.id in db.messages <==> ToBeSaved(cfg, before, w, m))
            && (m.id in db.messages ==>
                  && db.messages[m.id].connectionId == w
                  && db.messages[m.id].msg == RecordOf(cfg, before, w, m))
  {
    hide Queued, QueuedBy, ToBeSaved, RecordOf, T.AllRows, Run, FreshIds, Escapes;
    var w, m, items := evs[k].w, evs[k].m, QueuedBy(cfg, evs, stamps);
    QueuedIsOrderly(cfg, evs, stamps);
    T.SavedRows(items);
    QueuedExactlyWhen(cfg, evs[..k], stamps[k], w, m);
    RecordKeepsId(cfg, evs[..k], w, m);
    if ToBeSaved(cfg, evs[..k], w, m) {
      QueuedAt(cfg, evs, stamps, k, S.Received(w, RecordOf(cfg, evs[..k], w, m)));
      RowFound(S.ApplyAll(S.EMPTY, items), items, S.Received(w, RecordOf(cfg, evs[..k], w, m)));
    } else if m.id in S.ApplyAll(S.EMPTY, items).messages {
      var item := ItemFound(S.ApplyAll(S.EMPTY, items), items, m.id);
      var j := QueuedFrom(cfg, evs, stamps, item);
      ItemIsOfEvent(cfg, Run(cfg, INITIAL, evs[..j]), evs[j], stamps[j], item);
      IdsAreFresh(evs, j, k);
    }
  }

  lemma RecordKeepsId(cfg: Config, evs: seq<Event>, w: Writer, m: Message)
    ensures RecordOf(cfg, evs, w, m).id == m.id
  {
  }

  lemma ItemIsOfEvent(cfg: Config, st: State, ev: Event, stamp: Stamp, item: S.Item)
    requires item in Queued(cfg, st, ev, stamp) && item.Received?
    ensures ev.Receive? && item.msg.id == ev.m.id
  {
    hide Saved, ApexTheorems.Received;
    ReceivedKeepsId(cfg, st, ev.w, ev.m);
  }

  lemma RowFound(db: S.Db, items: seq<S.Item>, item: S.Item)
    requires T.AllRows(db, items) && item in items && item.Received?
    ensures item.msg.id in db.messages
    ensures db.messages[item.msg.id].connectionId == item.conn && db.messages[item.msg.id].msg == item.msg
  {
    T.KnownIds(items, item);
    assert T.RowOfItem(db, item);
  }

  lemma ItemFound(db: S.Db, items: seq<S.Item>, p: nat) returns (item: S.Item)
    requires T.AllRows(db, items) && p in db.messages
    ensures item in items && item.Received? && item.msg.id == p
  {
    assert p in T.Stored(items);
    item :| item in items && item.Received? && item.msg.id == p;
  }

  /** And for every connection opened: its row has its kind, its peer and its time. */
  lemma OpenedAs(cfg: Config, evs: seq<Event>, stamps: seq<Stamp>, k: nat)
    requires |stamps| == |evs| && FreshIds(evs) && k < |evs| && !evs[k].Receive? && !evs[k].Close?
    ensures var db, w := S.ApplyAll(S.EMPTY, QueuedBy(cfg, evs, stamps)), Run(cfg, INITIAL, evs[..k]).nextWriter;
            && w in db.connections
            && var row := db.connections[w];
            && row.peer == stamps[k].peer && row.connectTime == stamps[k].time
            && row.clientType == match evs[k] {
                 case OpenChild => "Child" case OpenPeer => "Peer" case OpenParent(_) => "Parent" case _ => "Recorder" }
  {
    hide QueuedBy, T.AllRows, Run, FreshIds;
    var items, st := QueuedBy(cfg, evs, stamps), Run(cfg, INITIAL, evs[..k]);
    var item := Queued(cfg, st, evs[k], stamps[k])[0];
    QueuedIsOrderly(cfg, evs, stamps);
    T.SavedRows(items);
    QueuedAt(cfg, evs, stamps, k, item);
    ConnectionFound(S.ApplyAll(S.EMPTY, items), items, item);
  }

  lemma ConnectionFound(db: S.Db, items: seq<S.Item>, item: S.Item)
    requires T.AllRows(db, items) && item in items && item.Connected?
    ensures item.id in db.connections
    ensures var row := db.connections[item.id];
            row.clientType == item.clientType && row.peer == item.peer && row.connectTime == item.time
  {
    T.KnownIds(items, item);
    assert T.RowOfItem(db, item);
  }
}
