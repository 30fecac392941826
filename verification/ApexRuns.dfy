/** The server as a transition system: connections open, receive and close in any order. The
    invariant every run keeps, and what it means for the readers of the logs. */
module ApexRuns {
  import opened Wrappers
  import opened ApexTypes
  import opened ApexRouting
  import opened ApexLogs
  import opened Sequences

  datatype State = State(
    shared: Shared,
    children: map<Writer, ChildState>,
    peers: map<Writer, Option<NodeId>>,
    parents: map<Writer, bool>,
    recorders: set<Writer>,
    nextWriter: Writer)

  datatype Event =
    | OpenChild
    | OpenPeer
    | OpenParent(forwardAll: bool)
    | OpenRecorder
    | Receive(w: Writer, m: Message)
    | Close(w: Writer)

  const INITIAL := State(Shared(map[], [], [], [], [], []), map[], map[], map[], {}, 1)

  function ReceiveStep(cfg: Config, st: State, w: Writer, m: Message): State {
    if w in st.children then
      var o := ChildMessage(cfg, st.shared, w, st.children[w], m);
      st.(shared := o.shared, children := st.children[w := o.conn])
    else if w in st.peers then
      var o := PeerMessage(cfg, st.shared, w, st.peers[w], m);
      st.(shared := o.shared, peers := st.peers[w := o.conn])
    else if w in st.parents then st.(shared := ParentMessage(st.shared, w, m).shared)
    else if w in st.recorders then st.(shared := RecorderMessage(st.shared, m).shared)
    else st
  }

  function CloseStep(st: State, w: Writer): State {
    if w in st.children then
      st.(shared := ChildClosed(st.shared, w, st.children[w]), children := st.children - {w})
    else if w in st.peers then st.(shared := PeerClosed(st.shared, w), peers := st.peers - {w})
    else if w in st.parents then
      st.(shared := ParentClosed(st.shared, w, st.parents[w]), parents := st.parents - {w})
    else st.(recorders := st.recorders - {w})
  }

  function Step(cfg: Config, st: State, ev: Event): State {
    var w := st.nextWriter;
    match ev
    case OpenChild => st.(children := st.children[w := NEW_CHILD], nextWriter := w + 1)
    case OpenPeer => st.(shared := PeerOpened(st.shared, w), peers := st.peers[w := None], nextWriter := w + 1)
    case OpenParent(forwardAll) =>
      st.(shared := ParentOpened(st.shared, w, forwardAll), parents := st.parents[w := forwardAll], nextWriter := w + 1)
    case OpenRecorder => st.(recorders := st.recorders + {w}, nextWriter := w + 1)
    case Receive(w, m) => ReceiveStep(cfg, st, w, m)
    case Close(w) => CloseStep(st, w)
  }

  function Run(cfg: Config, st: State, evs: seq<Event>): State {
    if evs == [] then st else Step(cfg, Run(cfg, st, evs[..|evs| - 1]), evs[|evs| - 1])
  }

  // ----- the invariant

  ghost predicate Listed<T(!new)>(ws: seq<T>, members: set<T>) {
    Distinct(ws) && forall w :: w in ws <==> w in members
  }

  /** Every open connection has one role, its writer was issued, and the shared lists hold exactly
      the open connections of their role. */
  ghost predicate Roles(st: State) {
    && st.children.Keys !! st.peers.Keys !! st.parents.Keys !! st.recorders
    && (forall w :: w in st.children || w in st.peers || w in st.parents || w in st.recorders ==> w < st.nextWriter)
    && (forall i :: 0 <= i < |st.shared.sent| ==> st.shared.sent[i].to < st.nextWriter)
    && Listed(st.shared.dmms, st.peers.Keys)
    && Listed(st.shared.parentsAll, ParentsOf(st.parents, true))
    && Listed(st.shared.parentsHigh, ParentsOf(st.parents, false))
  }

  function ParentsOf(parents: map<Writer, bool>, forwardAll: bool): set<Writer> {
    set w | w in parents && parents[w] == forwardAll
  }

  predicate RegisteredContent(c: Content, n: NodeId) {
    c.parsed.nodeId == Some(n) && c.parsed.body.Registration?
  }

  predicate StatusContent(c: Content, n: NodeId, isUnchanged: bool) {
    c.parsed.nodeId == Some(n) && c.parsed.body.StatusReport? && c.parsed.body.isUnchanged == isUnchanged
  }

  function SystemOf(c: Option<Content>): Option<string> {
    if c.Some? && c.value.parsed.body.StatusReport? then Some(c.value.parsed.body.system) else None
  }

  predicate SensorValid(i: Sensor, n: NodeId) {
    && RegisteredContent(i.registration, n)
    && (i.recentNew.Some? ==> StatusContent(i.recentNew.value, n, false))
    && (i.recentUnchanged.Some? ==>
          && StatusContent(i.recentUnchanged.value, n, true)
          && i.recentNew.Some? && SystemOf(i.recentUnchanged) == SystemOf(i.recentNew))
  }

  /** A registered node belongs to an open child that registered as that node, and the child and the
      shared data remember the same New status. */
  ghost predicate Owners(st: State) {
    && Listed(st.shared.order, st.shared.registered.Keys)
    && (forall w :: w in st.children ==> (st.children[w].registration.Some? <==> st.children[w].nodeId.Some?))
    && (forall w :: w in st.children && st.children[w].registration.None? ==> st.children[w].lastSystem.None?)
    && (forall n :: n in st.shared.registered ==>
          var i := st.shared.registered[n];
          && SensorValid(i, n)
          && i.writer in st.children
          && st.children[i.writer].nodeId == Some(n)
          && st.children[i.writer].lastSystem == SystemOf(i.recentNew))
  }

  function Snapshot(i: Sensor): NodeView {
    NodeView(i.registration, i.recentNew, i.recentUnchanged)
  }

  predicate Subscriber(s: Shared, w: Writer) {
    w in s.dmms || w in s.parentsAll
  }

  /** Every subscriber, however late it joined, has been told the current state of every node. */
  ghost predicate Informed(s: Shared) {
    forall w, n :: Subscriber(s, w) && n in s.registered ==>
      View(Log(s.sent, w), n) == Some(Snapshot(s.registered[n]))
  }

  ghost predicate AllGrammar(s: Shared) {
    forall w :: Grammar(Log(s.sent, w))
  }

  ghost predicate Inv(st: State) {
    Roles(st) && Owners(st) && Informed(st.shared) && AllGrammar(st.shared)
  }

  // ----- three ways the deliveries of a step extend the logs

  /** No writer is sent a child's message. */
  ghost predicate Silence(ds: seq<Delivery>) {
    forall w :: Quiet(Log(ds, w))
  }

  lemma SilentStep(s: Shared, s': Shared, ds: seq<Delivery>)
    requires Informed(s) && AllGrammar(s) && Silence(ds) && s'.sent == s.sent + ds
    requires forall w :: Subscriber(s', w) ==> Subscriber(s, w)
    requires forall n :: n in s'.registered ==>
               n in s.registered && Snapshot(s'.registered[n]) == Snapshot(s.registered[n])
    ensures Informed(s') && AllGrammar(s')
  {
    forall w ensures Grammar(Log(s'.sent, w)) {
      LogAppend(s.sent, ds, w);
      GrammarQuiet(Log(s.sent, w), Log(ds, w));
    }
    forall w, n | Subscriber(s', w) && n in s'.registered
      ensures View(Log(s'.sent, w), n) == Some(Snapshot(s'.registered[n]))
    {
      LogAppend(s.sent, ds, w);
      ViewQuiet(Log(s.sent, w), Log(ds, w), n);
    }
  }

  /** Every subscriber is sent p, the others none of a child's messages. */
  ghost predicate Published(s: Shared, ds: seq<Delivery>, p: Payload) {
    forall w :: if Subscriber(s, w) then Log(ds, w) == [p] else Quiet(Log(ds, w))
  }

  lemma PublishStep(s: Shared, s': Shared, ds: seq<Delivery>, p: Payload, n: NodeId)
    requires Informed(s) && AllGrammar(s) && Published(s, ds, p) && s'.sent == s.sent + ds
    requires forall w :: Subscriber(s', w) <==> Subscriber(s, w)
    requires IsFrom(p, n) && n in s'.registered
    requires s'.registered.Keys == s.registered.Keys + {n}
    requires forall k :: k in s.registered && k != n ==> s'.registered[k] == s.registered[k]
    requires p.content.parsed.body.Registration? || n in s.registered
    requires n in s.registered ==> Accepts(Some(Snapshot(s.registered[n])), p, n)
    requires var v := if n in s.registered then Some(Snapshot(s.registered[n])) else None;
             Some(Snapshot(s'.registered[n])) == ViewStep(v, p, n)
    ensures Informed(s') && AllGrammar(s')
  {
    forall w ensures Grammar(Log(s'.sent, w)) {
      LogAppend(s.sent, ds, w);
      if Subscriber(s, w) {
        GrammarSnoc(Log(s.sent, w), p, n);
      } else {
        GrammarQuiet(Log(s.sent, w), Log(ds, w));
      }
    }
    forall w, k | Subscriber(s', w) && k in s'.registered
      ensures View(Log(s'.sent, w), k) == Some(Snapshot(s'.registered[k]))
    {
      LogAppend(s.sent, ds, w);
      ViewSnoc(Log(s.sent, w), p, k);
    }
  }

  // ----- a subscriber joins: the replay tells it what the others already know

  lemma LogReplay(w: Writer, i: Sensor, x: Writer)
    ensures Log(Replay(w, i), x) ==
            if x != w then []
            else [Forward(FromChild, i.registration)]
                 + (if i.recentNew.Some? then [Forward(FromChild, i.recentNew.value)] else [])
                 + (if i.recentUnchanged.Some? then [Forward(FromChild, i.recentUnchanged.value)] else [])
  {
    var a := [Delivery(w, Forward(FromChild, i.registration))];
    var b := if i.recentNew.Some? then [Delivery(w, Forward(FromChild, i.recentNew.value))] else [];
    var c := if i.recentUnchanged.Some? then [Delivery(w, Forward(FromChild, i.recentUnchanged.value))] else [];
    LogAppend(a + b, c, x);
    LogAppend(a, b, x);
    LogOne(a[0], x);
    if b != [] { LogOne(b[0], x); }
    if c != [] { LogOne(c[0], x); }
  }

  lemma ReplayOne(log: seq<Payload>, w: Writer, i: Sensor, n: NodeId)
    requires Grammar(log) && SensorValid(i, n)
    ensures var log' := log + Log(Replay(w, i), w);
            && Grammar(log')
            && View(log', n) == Some(Snapshot(i))
            && forall k :: k != n ==> View(log', k) == View(log, k)
  {
    LogReplay(w, i, w);
    var p1 := Forward(FromChild, i.registration);
    var log1 := log + [p1];
    GrammarSnoc(log, p1, n);
    forall k ensures View(log1, k) == ViewStep(View(log, k), p1, k) { ViewSnoc(log, p1, k); }
    var log2 := log1;
    if i.recentNew.Some? {
      var p2 := Forward(FromChild, i.recentNew.value);
      log2 := log1 + [p2];
      GrammarSnoc(log1, p2, n);
      forall k ensures View(log2, k) == ViewStep(View(log1, k), p2, k) { ViewSnoc(log1, p2, k); }
    }
    var log3 := log2;
    if i.recentUnchanged.Some? {
      var p3 := Forward(FromChild, i.recentUnchanged.value);
      log3 := log2 + [p3];
      GrammarSnoc(log2, p3, n);
      forall k ensures View(log3, k) == ViewStep(View(log2, k), p3, k) { ViewSnoc(log2, p3, k); }
    }
    assert log3 == log + Log(Replay(w, i), w);
  }

  function ReplayLog(w: Writer, registered: map<NodeId, Sensor>, n: NodeId): seq<Payload> {
    if n in registered then Log(Replay(w, registered[n]), w) else []
  }

  lemma ReplayCons(log: seq<Payload>, w: Writer, registered: map<NodeId, Sensor>, order: seq<NodeId>)
    requires order != []
    ensures log + Log(ReplayAll(w, registered, order), w)
            == log + ReplayLog(w, registered, order[0]) + Log(ReplayAll(w, registered, order[1..]), w)
  {
    var first := if order[0] in registered then Replay(w, registered[order[0]]) else [];
    LogAppend(first, ReplayAll(w, registered, order[1..]), w);
  }

  /** Replaying the nodes of `order` keeps the grammar; it sets the view of node n, or leaves it
      alone when n is not among them. */
  lemma {:induction false} ReplayMany(
    log: seq<Payload>, w: Writer, registered: map<NodeId, Sensor>, order: seq<NodeId>, n: NodeId)
    requires Grammar(log) && Distinct(order)
    requires forall n :: n in registered ==> SensorValid(registered[n], n)
    ensures Grammar(log + Log(ReplayAll(w, registered, order), w))
    ensures View(log + Log(ReplayAll(w, registered, order), w), n)
            == if n in order && n in registered then Some(Snapshot(registered[n])) else View(log, n)
    decreases |order|
  {
    if order == [] {
      assert log + Log([], w) == log;
    } else {
      var log1 := log + ReplayLog(w, registered, order[0]);
      if order[0] in registered {
        ReplayOne(log, w, registered[order[0]], order[0]);
      } else {
        assert log1 == log;
      }
      ReplayMany(log1, w, registered, order[1..], n);
      ReplayCons(log, w, registered, order);
    }
  }

  lemma {:induction false} ReplayOnlyTo(w: Writer, registered: map<NodeId, Sensor>, order: seq<NodeId>)
    ensures forall i :: 0 <= i < |ReplayAll(w, registered, order)| ==> ReplayAll(w, registered, order)[i].to == w
  {
    if order != [] {
      ReplayOnlyTo(w, registered, order[1..]);
    }
  }

  lemma JoinStep(s: Shared, s': Shared, w: Writer)
    requires Informed(s) && AllGrammar(s)
    requires Listed(s.order, s.registered.Keys)
    requires forall n :: n in s.registered ==> SensorValid(s.registered[n], n)
    requires forall i :: 0 <= i < |s.sent| ==> s.sent[i].to != w
    requires s'.sent == s.sent + ReplayAll(w, s.registered, s.order)
    requires s'.registered == s.registered
    requires forall x :: Subscriber(s', x) ==> x == w || Subscriber(s, x)
    ensures Informed(s') && AllGrammar(s')
  {
    var ds := ReplayAll(w, s.registered, s.order);
    LogOfStranger(s.sent, w);
    ReplayOnlyTo(w, s.registered, s.order);
    forall x ensures Log(s'.sent, x) == if x == w then [] + Log(ds, w) else Log(s.sent, x) {
      LogAppend(s.sent, ds, x);
      if x != w { LogOfStranger(ds, x); }
    }
    assert [] + Log(ds, w) == Log(ds, w);
    forall x ensures Grammar(Log(s'.sent, x)) { ReplayMany([], w, s.registered, s.order, ""); }
    forall x, n | Subscriber(s', x) && n in s'.registered
      ensures View(Log(s'.sent, x), n) == Some(Snapshot(s'.registered[n]))
    {
      ReplayMany([], w, s.registered, s.order, n);
    }
  }

  // ----- the deliveries of each handler

  lemma LogPair(a: seq<Delivery>, b: seq<Delivery>, c: seq<Delivery>, w: Writer)
    ensures Log(a + b + c, w) == Log(a, w) + Log(b, w) + Log(c, w)
  {
    LogAppend(a + b, c, w);
    LogAppend(a, b, w);
  }

  lemma {:induction false} LogQuiet(ds: seq<Delivery>, w: Writer)
    requires forall i :: 0 <= i < |ds| ==> !ChildForward(ds[i].payload)
    ensures Quiet(Log(ds, w))
  {
    if ds != [] { LogQuiet(ds[..|ds| - 1], w); }
  }

  lemma QuietSilence(ds: seq<Delivery>)
    requires forall i :: 0 <= i < |ds| ==> !ChildForward(ds[i].payload)
    ensures Silence(ds)
  {
    forall w ensures Quiet(Log(ds, w)) { LogQuiet(ds, w); }
  }

  lemma {:induction false} OthersMember(ws: seq<Writer>, except: Option<Writer>, w: Writer)
    ensures w in Others(ws, except) <==> w in ws && Some(w) != except
  {
    if ws != [] { OthersMember(ws[1..], except, w); }
  }

  lemma {:induction false} OthersDistinct(ws: seq<Writer>, except: Option<Writer>)
    requires Distinct(ws)
    ensures Distinct(Others(ws, except))
    ensures |Others(ws, except)| == |ws| - (if except.Some? && except.value in ws then 1 else 0)
  {
    if ws != [] {
      OthersDistinct(ws[1..], except);
      forall w ensures w in Others(ws[1..], except) <==> w in ws[1..] && Some(w) != except {
        OthersMember(ws[1..], except, w);
      }
    }
  }

  lemma {:induction false} OthersNone(ws: seq<Writer>)
    ensures Others(ws, None) == ws
  {
    if ws != [] { OthersNone(ws[1..]); }
  }

  lemma QuietAppend(a: seq<Payload>, b: seq<Payload>)
    requires Quiet(a) && Quiet(b)
    ensures Quiet(a + [] + b + [])
  {
  }

  /** A child's message that passes the checks reaches each subscriber once; `before` and `after` hold
      the acknowledgement, on either side of the messages for the peers. */
  lemma PublishedBy(s: Shared, p: Payload, before: seq<Delivery>, after: seq<Delivery>)
    requires ChildForward(p)
    requires Distinct(s.dmms) && Distinct(s.parentsAll)
    requires forall w :: w in s.dmms ==> w !in s.parentsAll
    requires forall i :: 0 <= i < |before| ==> before[i].payload.Ack? && !Subscriber(s, before[i].to)
    requires forall i :: 0 <= i < |after| ==> after[i].payload.Ack? && !Subscriber(s, after[i].to)
    ensures Published(s, before + FanOut(s.dmms, p) + after + FanOut(s.parentsAll, p), p)
  {
    hide Log, FanOut, Quiet;
    forall w ensures var l := Log(before + FanOut(s.dmms, p) + after + FanOut(s.parentsAll, p), w);
                     if Subscriber(s, w) then l == [p] else Quiet(l)
    {
      LogAppend(before + FanOut(s.dmms, p) + after, FanOut(s.parentsAll, p), w);
      LogPair(before, FanOut(s.dmms, p), after, w);
      LogFanOut(s.dmms, p, w);
      LogFanOut(s.parentsAll, p, w);
      LogQuiet(before, w);
      LogQuiet(after, w);
      if Subscriber(s, w) {
        LogOfStranger(before, w);
        LogOfStranger(after, w);
      } else {
        QuietAppend(Log(before, w), Log(after, w));
      }
    }
  }

  // ----- every step keeps the invariant

  function Acks(cfg: Config, w: Writer, n: NodeId, m: Message): seq<Delivery> {
    if cfg.sendRegistrationAck && m.parsed.Some? && m.parsed.value.body.Registration? then [Delivery(w, Ack(n))] else []
  }

  predicate FailedWith(s: Shared, c: ChildState, o: Outcome<ChildState>) {
    o.msg.error.Some? && o.conn == c && o.shared == s && !o.escaped
  }

  /** The handler accepted the message as one of node n: it told the peers, and acknowledged a
      registration before or after. */
  predicate AcceptedBy(cfg: Config, s: Shared, w: Writer, c: ChildState, o: Outcome<ChildState>) {
    && o.msg.error.None? && o.msg.parsed.Some? && !o.escaped
    && o.conn.nodeId.Some? && o.conn.registration.Some? && o.msg.parsed.value.nodeId == o.conn.nodeId
    && o.shared.dmms == s.dmms && o.shared.parentsAll == s.parentsAll && o.shared.parentsHigh == s.parentsHigh
    && o.msg.forwardedCount == |s.dmms|
    && o.shared.sent == s.sent + Before(cfg, w, c, o) + FanOut(s.dmms, ForwardOf(o)) + After(cfg, w, c, o)
  }

  function ForwardOf(o: Outcome<ChildState>): Payload
    requires o.msg.parsed.Some?
  {
    Forward(FromChild, ContentOf(o.msg))
  }

  function Before(cfg: Config, w: Writer, c: ChildState, o: Outcome<ChildState>): seq<Delivery>
    requires o.conn.nodeId.Some?
  {
    if c.registration.None? then [] else Acks(cfg, w, o.conn.nodeId.value, o.msg)
  }

  function After(cfg: Config, w: Writer, c: ChildState, o: Outcome<ChildState>): seq<Delivery>
    requires o.conn.nodeId.Some?
  {
    if c.registration.None? then Acks(cfg, w, o.conn.nodeId.value, o.msg) else []
  }

  lemma ChildFirstShape(cfg: Config, s: Shared, w: Writer, c: ChildState, m: Message)
    requires c.registration.None?
    ensures var o := ChildFirst(cfg, s, w, c, m);
            FailedWith(s, c, o) || AcceptedBy(cfg, s, w, c, o)
  {
    hide FanOut;
    var o := ChildFirst(cfg, s, w, c, m);
    if o.msg.error.None? {
      AssocAcks(s.sent, FanOut(s.dmms, ForwardOf(o)), Acks(cfg, w, o.conn.nodeId.value, o.msg));
    }
  }

  lemma AssocAcks(sent: seq<Delivery>, fans: seq<Delivery>, acks: seq<Delivery>)
    ensures sent + (fans + acks) == sent + [] + fans + acks
  {
  }

  lemma FiledShape(cfg: Config, s: Shared, w: Writer, c: ChildState, m: Message, n: NodeId)
    requires Delivered(m) && n in s.registered
    ensures var o := ChildFiled(cfg, s, w, c, m, n);
            && !o.escaped && o.msg.parsed == m.parsed
            && (o.msg.error.Some? ==> o.shared == s && o.conn == c)
            && (o.msg.error.None? ==>
                  && o.msg == m && o.conn == ChildAfter(c, ContentOf(m))
                  && o.shared.dmms == s.dmms && o.shared.parentsAll == s.parentsAll && o.shared.parentsHigh == s.parentsHigh
                  && o.shared.sent == s.sent + RegistrationAck(cfg, w, n, m.parsed.value.body))
  {
    hide SensorAfter, ChildAfter, RegistrationAck, Filtered, StatusFault;
  }

  predicate Delivered(m: Message) {
    m.error.None? && m.parsed.Some?
  }

  lemma AcceptedShape(cfg: Config, s: Shared, w: Writer, c: ChildState, m: Message, n: NodeId)
    requires Delivered(m) && n in s.registered && c.registration.Some? && c.nodeId == Some(n) == m.parsed.value.nodeId
    ensures var o := ChildAccepted(cfg, s, w, c, m, n);
            FailedWith(s, c, o) || AcceptedBy(cfg, s, w, c, o)
  {
    hide ChildFiled;
    FiledShape(cfg, s, w, c, m, n);
    var fans := FanOut(s.dmms, Forward(FromChild, ContentOf(m)));
    assert s.sent + RegistrationAck(cfg, w, n, m.parsed.value.body) + fans + []
           == s.sent + RegistrationAck(cfg, w, n, m.parsed.value.body) + fans;
  }

  lemma ChildOtherShape(cfg: Config, s: Shared, w: Writer, c: ChildState, m: Message)
    requires c.registration.Some?
    ensures var o := ChildOther(cfg, s, w, c, m);
            FailedWith(s, c, o) || AcceptedBy(cfg, s, w, c, o)
  {
    hide ChildAccepted, AcceptedBy;
    if Delivered(m) && m.parsed.value.nodeId == c.nodeId && Owns(s, w, c.nodeId) {
      AcceptedShape(cfg, s, w, c, Shift(cfg, m, c.timeOffset), c.nodeId.value);
    }
  }

  /** What happens after the inner handler: the forward-all parents, or the error reply. */
  lemma ChildMessageShape(cfg: Config, s: Shared, w: Writer, c: ChildState, m: Message)
    ensures var i, o := ChildInner(cfg, s, w, c, m), ChildMessage(cfg, s, w, c, m);
            && o.conn == i.conn && o.msg.error == i.msg.error && o.msg.parsed == i.msg.parsed && !o.escaped
            && o.shared.registered == i.shared.registered && o.shared.order == i.shared.order
            && o.shared.dmms == s.dmms && o.shared.parentsAll == s.parentsAll && o.shared.parentsHigh == s.parentsHigh
            && (o.msg.error.Some? ==> FailedWith(s, c, i) && o.shared == Emit(s, ErrorReplies(w, o.msg, c.nodeId))
                                      && o.msg == i.msg)
            && (o.msg.error.None? ==>
                  && AcceptedBy(cfg, s, w, c, i)
                  && o.msg.forwardedCount == |s.dmms| + |s.parentsAll|
                  && o.shared.sent == i.shared.sent + FanOut(s.parentsAll, ForwardOf(i)))
  {
    if c.registration.None? { ChildFirstShape(cfg, s, w, c, m); } else { ChildOtherShape(cfg, s, w, c, m); }
    var i := ChildInner(cfg, s, w, c, m);
    assert FailedWith(s, c, i) || AcceptedBy(cfg, s, w, c, i);
    OthersNone(s.parentsAll);
    assert s.parentsAll + [] == s.parentsAll;
    if i.msg.error.None? {
      var more := FanOut(s.parentsAll, ForwardOf(i));
      assert i.shared.sent + more + [] == i.shared.sent + more;
    }
  }

  lemma SentBound(st: State, ds: seq<Delivery>, w: Writer)
    requires Roles(st) && w < st.nextWriter
    requires forall i :: 0 <= i < |ds| ==> ds[i].to == w || ds[i].to in st.shared.dmms || ds[i].to in st.shared.parentsAll || ds[i].to in st.shared.parentsHigh
    ensures forall i :: 0 <= i < |st.shared.sent + ds| ==> (st.shared.sent + ds)[i].to < st.nextWriter
  {
  }

  lemma ChildFails(cfg: Config, st: State, w: Writer, m: Message)
    requires Inv(st) && w in st.children
    requires ChildMessage(cfg, st.shared, w, st.children[w], m).msg.error.Some?
    ensures Inv(ReceiveStep(cfg, st, w, m))
  {
    var s, c := st.shared, st.children[w];
    ChildMessageShape(cfg, s, w, c, m);
    var o := ChildMessage(cfg, s, w, c, m);
    var ds := ErrorReplies(w, o.msg, c.nodeId);
    QuietSilence(ds);
    SilentStep(s, o.shared, ds);
    assert st.children[w := o.conn] == st.children;
  }

  /** What an accepted message does to the registration table and to its sender. */
  ghost predicate TableStep(s: Shared, w: Writer, c: ChildState, o: Outcome<ChildState>)
    requires o.msg.parsed.Some? && o.conn.nodeId.Some?
  {
    var n, p := o.conn.nodeId.value, ForwardOf(o);
    && n in o.shared.registered
    && o.shared.registered == s.registered[n := o.shared.registered[n]]
    && SensorValid(o.shared.registered[n], n)
    && o.shared.registered[n].writer == w
    && o.conn.lastSystem == SystemOf(o.shared.registered[n].recentNew)
    && (c.nodeId.Some? ==> o.conn.nodeId == c.nodeId)
    && o.shared.order == (if n in s.registered then s.order else s.order + [n])
    && (p.content.parsed.body.Registration? || (n in s.registered && s.registered[n].writer == w))
    && (n in s.registered ==> Accepts(Some(Snapshot(s.registered[n])), p, n))
    && var v := if n in s.registered then Some(Snapshot(s.registered[n])) else None;
    && Some(Snapshot(o.shared.registered[n])) == ViewStep(v, p, n)
  }

  lemma ChildFirstTable(cfg: Config, s: Shared, w: Writer, c: ChildState, m: Message)
    requires c.registration.None? && c.nodeId.None? && c.lastSystem.None?
    requires ChildFirst(cfg, s, w, c, m).msg.error.None?
    ensures var o := ChildFirst(cfg, s, w, c, m);
            o.msg.parsed.Some? && o.conn.nodeId.Some? && TableStep(s, w, c, o)
  {
  }

  lemma ChildOtherTable(cfg: Config, s: Shared, w: Writer, c: ChildState, m: Message)
    requires forall n :: n in s.registered && s.registered[n].writer == w ==>
               SensorValid(s.registered[n], n) && c.lastSystem == SystemOf(s.registered[n].recentNew)
    requires ChildOther(cfg, s, w, c, m).msg.error.None?
    ensures var o := ChildOther(cfg, s, w, c, m);
            o.msg.parsed.Some? && o.conn.nodeId.Some? && TableStep(s, w, c, o)
  {
    hide FanOut, Filtered, RegistrationAck;
  }

  lemma ChildTable(cfg: Config, st: State, w: Writer, m: Message)
    requires Inv(st) && w in st.children && ChildInner(cfg, st.shared, w, st.children[w], m).msg.error.None?
    ensures var i := ChildInner(cfg, st.shared, w, st.children[w], m);
            && AcceptedBy(cfg, st.shared, w, st.children[w], i)
            && TableStep(st.shared, w, st.children[w], i)
  {
    hide Informed, AllGrammar, Roles, Listed, TableStep, AcceptedBy, ChildFirst, ChildOther, FailedWith;
    var s, c := st.shared, st.children[w];
    if c.registration.None? {
      ChildFirstShape(cfg, s, w, c, m);
      NotFailed(s, c, ChildFirst(cfg, s, w, c, m));
      ChildFirstTable(cfg, s, w, c, m);
    } else {
      ChildOtherShape(cfg, s, w, c, m);
      NotFailed(s, c, ChildOther(cfg, s, w, c, m));
      ChildOtherTable(cfg, s, w, c, m);
    }
  }

  lemma NotFailed(s: Shared, c: ChildState, o: Outcome<ChildState>)
    requires o.msg.error.None?
    ensures !FailedWith(s, c, o)
  {
  }

  lemma ChildPublishes(cfg: Config, s: Shared, w: Writer, c: ChildState, m: Message)
    requires Informed(s) && AllGrammar(s)
    requires Distinct(s.dmms) && Distinct(s.parentsAll) && !Subscriber(s, w)
    requires forall w :: w in s.dmms ==> w !in s.parentsAll
    requires AcceptedBy(cfg, s, w, c, ChildInner(cfg, s, w, c, m))
    requires TableStep(s, w, c, ChildInner(cfg, s, w, c, m))
    ensures var o := ChildMessage(cfg, s, w, c, m).shared;
            Informed(o) && AllGrammar(o)
  {
    var i, o := ChildInner(cfg, s, w, c, m), ChildMessage(cfg, s, w, c, m);
    ChildMessageShape(cfg, s, w, c, m);
    var n, p := i.conn.nodeId.value, ForwardOf(i);
    var before, after := Before(cfg, w, c, i), After(cfg, w, c, i);
    var ds := before + FanOut(s.dmms, p) + after + FanOut(s.parentsAll, p);
    AssocFour(s.sent, before, FanOut(s.dmms, p), after, FanOut(s.parentsAll, p));
    PublishedBy(s, p, before, after);
    PublishStep(s, o.shared, ds, p, n);
  }

  lemma AssocFour(s: seq<Delivery>, a: seq<Delivery>, b: seq<Delivery>, c: seq<Delivery>, d: seq<Delivery>)
    ensures s + a + b + c + d == s + (a + b + c + d)
  {
  }

  /** The writers that an accepted message of child w is handed to, or acknowledged to. */
  lemma PublishedBound(st: State, before: seq<Delivery>, p: Payload, after: seq<Delivery>, w: Writer)
    requires Roles(st) && w < st.nextWriter
    requires forall i :: 0 <= i < |before| ==> before[i].to == w
    requires forall i :: 0 <= i < |after| ==> after[i].to == w
    ensures var sent := st.shared.sent + (before + FanOut(st.shared.dmms, p) + after + FanOut(st.shared.parentsAll, p));
            forall i :: 0 <= i < |sent| ==> sent[i].to < st.nextWriter
  {
    SentBound(st, before + FanOut(st.shared.dmms, p) + after + FanOut(st.shared.parentsAll, p), w);
  }

  lemma ChildRoles(cfg: Config, st: State, w: Writer, m: Message)
    requires Roles(st) && w in st.children
    ensures Roles(ReceiveStep(cfg, st, w, m))
  {
    var s, c := st.shared, st.children[w];
    var i, o := ChildInner(cfg, s, w, c, m), ChildMessage(cfg, s, w, c, m);
    ChildMessageShape(cfg, s, w, c, m);
    if o.msg.error.Some? {
      SentBound(st, ErrorReplies(w, o.msg, c.nodeId), w);
    } else {
      var before, after, p := Before(cfg, w, c, i), After(cfg, w, c, i), ForwardOf(i);
      AssocFour(s.sent, before, FanOut(s.dmms, p), after, FanOut(s.parentsAll, p));
      PublishedBound(st, before, p, after, w);
    }
  }

  lemma ChildOwners(cfg: Config, st: State, w: Writer, m: Message)
    requires Roles(st) && Owners(st) && w in st.children
    requires var i := ChildInner(cfg, st.shared, w, st.children[w], m);
             AcceptedBy(cfg, st.shared, w, st.children[w], i) && TableStep(st.shared, w, st.children[w], i)
    ensures Owners(ReceiveStep(cfg, st, w, m))
  {
    hide ChildMessage, ChildInner, Accepts, ViewStep;
    var s, c, st' := st.shared, st.children[w], ReceiveStep(cfg, st, w, m);
    var i := ChildInner(cfg, s, w, c, m);
    ChildMessageShape(cfg, s, w, c, m);
    var n := i.conn.nodeId.value;
    assert st'.children == st.children[w := i.conn];
    assert st'.shared.registered == s.registered[n := i.shared.registered[n]];
    forall k | k in st'.shared.registered
      ensures st'.shared.registered[k].writer in st'.children
      ensures st'.children[st'.shared.registered[k].writer].nodeId == Some(k)
    {
      if k != n { assert s.registered[k].writer in st.children; }
    }
  }

  lemma ChildStep(cfg: Config, st: State, w: Writer, m: Message)
    requires Inv(st) && w in st.children
    ensures Inv(ReceiveStep(cfg, st, w, m))
  {
    var s, c := st.shared, st.children[w];
    var i, o := ChildInner(cfg, s, w, c, m), ChildMessage(cfg, s, w, c, m);
    ChildMessageShape(cfg, s, w, c, m);
    if o.msg.error.Some? {
      ChildFails(cfg, st, w, m);
    } else {
      ChildTable(cfg, st, w, m);
      ChildPublishes(cfg, s, w, c, m);
      ChildRoles(cfg, st, w, m);
      ChildOwners(cfg, st, w, m);
    }
  }

  /** The other roles send no child's messages and leave the tables alone. */
  ghost predicate Known(s: Shared, w: Writer, t: Writer) {
    t == w || t in s.dmms || t in s.parentsAll || t in s.parentsHigh
    || exists n :: n in s.registered && s.registered[n].writer == t
  }

  ghost predicate QuietExtension(s: Shared, s': Shared, w: Writer) {
    && s' == s.(sent := s'.sent)
    && s.sent <= s'.sent
    && forall i :: |s.sent| <= i < |s'.sent| ==> !ChildForward(s'.sent[i].payload) && Known(s, w, s'.sent[i].to)
  }

  lemma QuietEmit(s: Shared, ds: seq<Delivery>, w: Writer)
    requires forall i :: 0 <= i < |ds| ==> !ChildForward(ds[i].payload) && Known(s, w, ds[i].to)
    ensures QuietExtension(s, Emit(s, ds), w)
  {
  }

  lemma QuietTrans(a: Shared, b: Shared, c: Shared, w: Writer)
    requires QuietExtension(a, b, w) && QuietExtension(b, c, w)
    ensures QuietExtension(a, c, w)
  {
    forall i | |a.sent| <= i < |c.sent| ensures !ChildForward(c.sent[i].payload) && Known(a, w, c.sent[i].to) {
      if i < |b.sent| { assert c.sent[i] == b.sent[i]; } else { assert Known(b, w, c.sent[i].to); }
    }
  }

  lemma QuietParents<C>(o: Outcome<C>, origin: Origin, high: bool, except: Option<Writer>, w: Writer)
    requires !origin.FromChild?
    ensures QuietExtension(o.shared, SendToParents(o, origin, high, except).shared, w)
  {
    var ws := ParentTargets(o.shared, high, except);
    forall x | x in ws ensures x in o.shared.parentsAll || x in o.shared.parentsHigh {
      OthersMember(o.shared.parentsAll + (if high then o.shared.parentsHigh else []), except, x);
    }
    if o.msg.error.None? && o.msg.parsed.Some? {
      QuietEmit(o.shared, FanOut(ws, Forward(origin, ContentOf(o.msg))), w);
    }
  }

  lemma QuietPeerRouted(cfg: Config, s: Shared, w: Writer, d: Option<NodeId>, m: Message)
    requires m.parsed.Some? && m.error.None?
    ensures QuietExtension(s, PeerRouted(cfg, s, w, d, m).shared, w)
  {
    var dest := m.parsed.value.destination;
    if d.Some? && m.parsed.value.nodeId != d {
    } else if dest.None? {
      QuietParents(Outcome(s, d, m, false), FromPeer, true, None, w);
    } else if dest.value in s.registered {
      var m1 := Shift(cfg, m, s.registered[dest.value].dmmOffset);
      var ds := [Delivery(s.registered[dest.value].writer, Forward(FromPeer, ContentOf(m1)))];
      QuietEmit(s, ds, w);
      var o := Outcome(Emit(s, ds), d, m1.(forwardedCount := 1), false);
      QuietParents(o, FromPeer, false, None, w);
      QuietTrans(s, Emit(s, ds), SendToParents(o, FromPeer, false, None).shared, w);
    }
  }

  lemma QuietPeer(cfg: Config, s: Shared, w: Writer, d: Option<NodeId>, m: Message)
    ensures QuietExtension(s, PeerMessage(cfg, s, w, d, m).shared, w)
  {
    var o := PeerInner(cfg, s, w, d, m);
    if m.error.None? && m.parsed.Some? {
      if m.parsed.value.body.Registration? {
        var r := PeerRegistration(cfg, s, w, d, m);
        if r.msg.error.None? {
          QuietPeerRouted(cfg, r.shared, w, r.conn, r.msg);
          QuietTrans(s, r.shared, o.shared, w);
        }
      } else {
        QuietPeerRouted(cfg, s, w, d, m);
      }
    }
    assert QuietExtension(s, o.shared, w);
    QuietEmit(o.shared, ErrorReplies(w, o.msg, o.conn), w);
    QuietTrans(s, o.shared, PeerMessage(cfg, s, w, d, m).shared, w);
  }

  lemma QuietParent(s: Shared, w: Writer, m: Message)
    ensures QuietExtension(s, ParentMessage(s, w, m).shared, w)
  {
    if m.error.None? && m.parsed.Some? {
      var d := m.parsed.value.destination;
      var child := if d.Some? && d.value in s.registered then [s.registered[d.value].writer] else [];
      var ds := FanOut(child + s.dmms, Forward(FromParent, ContentOf(m)));
      QuietEmit(s, ds, w);
      var o := Outcome(Emit(s, ds), (), m.(forwardedCount := |child| + |s.dmms|), false);
      QuietParents(o, FromParent, false, Some(w), w);
      QuietTrans(s, Emit(s, ds), SendToParents(o, FromParent, false, Some(w)).shared, w);
    }
  }

  lemma QuietStep(st: State, st': State, w: Writer)
    requires Inv(st) && w < st.nextWriter
    requires QuietExtension(st.shared, st'.shared, w)
    requires st'.children == st.children && st'.peers.Keys == st.peers.Keys
    requires st'.parents == st.parents && st'.recorders == st.recorders && st'.nextWriter == st.nextWriter
    ensures Inv(st')
  {
    var s, s' := st.shared, st'.shared;
    var ds := s'.sent[|s.sent|..];
    assert s'.sent == s.sent + ds;
    assert forall i :: 0 <= i < |ds| ==> ds[i] == s'.sent[|s.sent| + i];
    QuietSilence(ds);
    SilentStep(s, s', ds);
    forall i | 0 <= i < |s'.sent| ensures s'.sent[i].to < st.nextWriter {
      if i < |s.sent| { assert s'.sent[i] == s.sent[i]; }
    }
  }

  lemma ReceiveKeepsInv(cfg: Config, st: State, w: Writer, m: Message)
    requires Inv(st)
    ensures Inv(ReceiveStep(cfg, st, w, m))
  {
    if w in st.children {
      ChildStep(cfg, st, w, m);
    } else if w in st.peers {
      QuietPeer(cfg, st.shared, w, st.peers[w], m);
      QuietStep(st, ReceiveStep(cfg, st, w, m), w);
    } else if w in st.parents {
      QuietParent(st.shared, w, m);
      QuietStep(st, ReceiveStep(cfg, st, w, m), w);
    } else if w in st.recorders {
      QuietParents(Outcome(st.shared, (), m, false), FromRecorder, false, None, w);
      QuietStep(st, ReceiveStep(cfg, st, w, m), w);
    }
  }

  lemma {:induction false} WithoutListed<T>(s: seq<T>, x: T)
    requires Distinct(s)
    ensures Distinct(Without(s, x))
    ensures forall y :: y in Without(s, x) <==> y in s && y != x
  {
    if s != [] {
      assert s == [s[0]] + s[1..];
      assert s[0] !in s[1..];
      if s[0] != x {
        WithoutListed(s[1..], x);
        assert s[0] !in Without(s[1..], x);
      }
    }
  }

  lemma ListedSnoc<T(!new)>(s: seq<T>, members: set<T>, x: T)
    requires Listed(s, members) && x !in members
    ensures Listed(s + [x], members + {x})
  {
    assert x !in s;
  }

  lemma CloseChild(st: State, w: Writer)
    requires Inv(st) && w in st.children
    ensures Inv(CloseStep(st, w))
  {
    var s, c, st' := st.shared, st.children[w], CloseStep(st, w);
    assert s.sent + [] == s.sent;
    if Owns(s, w, c.nodeId) {
      WithoutListed(s.order, c.nodeId.value);
    }
    SilentStep(s, st'.shared, []);
    forall n | n in st'.shared.registered ensures st'.shared.registered[n].writer in st'.children {
      assert st.children[s.registered[n].writer].nodeId == Some(n);
    }
    assert Owners(st');
    assert Roles(st');
  }

  lemma ListedWithout<T(!new)>(s: seq<T>, members: set<T>, x: T)
    requires Listed(s, members)
    ensures Listed(Without(s, x), members - {x})
  {
    WithoutListed(s, x);
  }

  lemma CloseOtherRoles(st: State, w: Writer)
    requires Roles(st) && w !in st.children
    ensures Roles(CloseStep(st, w))
  {
    hide Without, Listed;
    var s, st' := st.shared, CloseStep(st, w);
    if w in st.peers {
      ListedWithout(s.dmms, st.peers.Keys, w);
      assert st'.peers.Keys == st.peers.Keys - {w};
    } else if w in st.parents {
      var all := st.parents[w];
      ListedWithout(if all then s.parentsAll else s.parentsHigh, ParentsOf(st.parents, all), w);
      assert ParentsOf(st'.parents, all) == ParentsOf(st.parents, all) - {w};
      assert ParentsOf(st'.parents, !all) == ParentsOf(st.parents, !all);
    }
  }

  /** Fewer subscribers and no new deliveries. */
  lemma UnsubscribeStep(s: Shared, s': Shared)
    requires Informed(s) && AllGrammar(s) && s'.sent == s.sent && s'.registered == s.registered
    requires forall w :: Subscriber(s', w) ==> Subscriber(s, w)
    ensures Informed(s') && AllGrammar(s')
  {
  }

  lemma CloseOther(st: State, w: Writer)
    requires Inv(st) && w !in st.children
    ensures Inv(CloseStep(st, w))
  {
    hide Roles, Owners, Informed, AllGrammar, Subscriber;
    var s' := CloseStep(st, w).shared;
    CloseOtherRoles(st, w);
    assert s'.sent == st.shared.sent && s'.registered == st.shared.registered;
    FewerSubscribers(st, w);
    UnsubscribeStep(st.shared, s');
    CloseOtherOwners(st, w);
  }

  lemma FewerSubscribers(st: State, w: Writer)
    requires Roles(st) && w !in st.children
    ensures forall x :: Subscriber(CloseStep(st, w).shared, x) ==> Subscriber(st.shared, x)
  {
    WithoutListed(st.shared.dmms, w);
    WithoutListed(st.shared.parentsAll, w);
  }

  lemma CloseOtherOwners(st: State, w: Writer)
    requires Owners(st) && w !in st.children
    ensures Owners(CloseStep(st, w))
  {
    var st' := CloseStep(st, w);
    assert st'.children == st.children;
    assert st'.shared.registered == st.shared.registered && st'.shared.order == st.shared.order;
  }

  lemma OpenPeerRoles(st: State)
    requires Roles(st)
    ensures Roles(st.(shared := PeerOpened(st.shared, st.nextWriter), peers := st.peers[st.nextWriter := None],
                      nextWriter := st.nextWriter + 1))
  {
    var s, w := st.shared, st.nextWriter;
    ReplayOnlyTo(w, s.registered, s.order);
    ListedSnoc(s.dmms, st.peers.Keys, w);
    assert st.peers[w := None].Keys == st.peers.Keys + {w};
  }

  lemma OpenParentRoles(st: State, all: bool)
    requires Roles(st)
    ensures Roles(st.(shared := ParentOpened(st.shared, st.nextWriter, all), parents := st.parents[st.nextWriter := all],
                      nextWriter := st.nextWriter + 1))
  {
    var s, w, parents' := st.shared, st.nextWriter, st.parents[st.nextWriter := all];
    ReplayOnlyTo(w, s.registered, s.order);
    ListedSnoc(if all then s.parentsAll else s.parentsHigh, ParentsOf(st.parents, all), w);
    assert ParentsOf(parents', all) == ParentsOf(st.parents, all) + {w};
    assert ParentsOf(parents', !all) == ParentsOf(st.parents, !all);
  }

  lemma OpenKeepsInv(cfg: Config, st: State, ev: Event)
    requires Inv(st) && !ev.Receive? && !ev.Close?
    ensures Inv(Step(cfg, st, ev))
  {
    hide Roles, Owners, Informed, AllGrammar;
    OpenInforms(cfg, st, ev);
    OpenRoles(cfg, st, ev);
    OpenOwners(cfg, st, ev);
  }

  lemma OpenInforms(cfg: Config, st: State, ev: Event)
    requires Inv(st) && !ev.Receive? && !ev.Close?
    ensures Informed(Step(cfg, st, ev).shared) && AllGrammar(Step(cfg, st, ev).shared)
  {
    hide Informed, AllGrammar, ReplayAll;
    var s, w, s' := st.shared, st.nextWriter, Step(cfg, st, ev).shared;
    if ev.OpenPeer? || (ev.OpenParent? && ev.forwardAll) {
      JoinStep(s, s', w);
    } else {
      assert s.sent + [] == s.sent;
      SilentStep(s, s', []);
    }
  }

  lemma OpenRoles(cfg: Config, st: State, ev: Event)
    requires Roles(st) && !ev.Receive? && !ev.Close?
    ensures Roles(Step(cfg, st, ev))
  {
    if ev.OpenPeer? { OpenPeerRoles(st); }
    if ev.OpenParent? { OpenParentRoles(st, ev.forwardAll); }
  }

  lemma OpenOwners(cfg: Config, st: State, ev: Event)
    requires Roles(st) && Owners(st) && !ev.Receive? && !ev.Close?
    ensures Owners(Step(cfg, st, ev))
  {
    hide Listed, ReplayAll;
    assert Step(cfg, st, ev).shared.registered == st.shared.registered && Step(cfg, st, ev).shared.order == st.shared.order;
  }

  lemma StepKeepsInv(cfg: Config, st: State, ev: Event)
    requires Inv(st)
    ensures Inv(Step(cfg, st, ev))
  {
    match ev
    case Receive(w, m) => ReceiveKeepsInv(cfg, st, w, m);
    case Close(w) => if w in st.children { CloseChild(st, w); } else { CloseOther(st, w); }
    case _ => OpenKeepsInv(cfg, st, ev);
  }

  lemma {:induction false} RunKeepsInv(cfg: Config, st: State, evs: seq<Event>)
    requires Inv(st)
    ensures Inv(Run(cfg, st, evs))
  {
    if evs != [] {
      RunKeepsInv(cfg, st, evs[..|evs| - 1]);
      StepKeepsInv(cfg, Run(cfg, st, evs[..|evs| - 1]), evs[|evs| - 1]);
    }
  }

  lemma Reachable(cfg: Config, evs: seq<Event>)
    ensures Inv(Run(cfg, INITIAL, evs))
  {
    RunKeepsInv(cfg, INITIAL, evs);
  }
}
