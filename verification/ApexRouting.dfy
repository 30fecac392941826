/** What each Apex connection does with one event, as functions on values.

    ApexConnections proves the connection classes against these functions; ApexRuns proves the
    properties of every run about them. */
module ApexRouting {
  import opened Wrappers
  import opened ApexTypes

  const MESSAGE_DELAY_MS := 100

  datatype Sensor = Sensor(
    writer: Writer,
    registration: Content,
    dmmOffset: int,
    recentNew: Option<Content>,
    recentUnchanged: Option<Content>)

  /** The shared data. `order` is the insertion order of the dictionary of registered sensors and
      `sent` the calls of all writers so far. */
  datatype Shared = Shared(
    registered: map<NodeId, Sensor>,
    order: seq<NodeId>,
    dmms: seq<Writer>,
    parentsAll: seq<Writer>,
    parentsHigh: seq<Writer>,
    sent: seq<Delivery>)

  datatype ChildState = ChildState(
    registration: Option<Content>,
    nodeId: Option<NodeId>,
    timeOffset: int,
    lastSystem: Option<string>)

  /** `escaped` says that an exception left the handler. */
  datatype Outcome<C> = Outcome(shared: Shared, conn: C, msg: Message, escaped: bool)

  const NEW_CHILD := ChildState(None, None, 0, None)

  // ----- pieces shared by the connections

  function ContentOf(m: Message): Content
    requires m.parsed.Some?
  {
    Content(m.id, m.parsed.value)
  }

  function Fail(m: Message, severity: Severity, reason: Reason): Message {
    m.(error := Some(Error(severity, reason)))
  }

  function Shift(cfg: Config, m: Message, offset: int): Message
    requires m.parsed.Some?
  {
    if cfg.adjustTimeSync
    then m.(parsed := Some(m.parsed.value.(timestamp := m.parsed.value.timestamp + offset)))
    else m
  }

  function FanOut(ws: seq<Writer>, p: Payload): seq<Delivery> {
    seq(|ws|, i requires 0 <= i < |ws| => Delivery(ws[i], p))
  }

  function Others(ws: seq<Writer>, except: Option<Writer>): seq<Writer> {
    if ws == [] then []
    else (if Some(ws[0]) == except then [] else [ws[0]]) + Others(ws[1..], except)
  }

  function Emit(s: Shared, ds: seq<Delivery>): Shared {
    s.(sent := s.sent + ds)
  }

  function ParentTargets(s: Shared, high: bool, except: Option<Writer>): seq<Writer> {
    Others(s.parentsAll + (if high then s.parentsHigh else []), except)
  }

  function SendToParents<C>(o: Outcome<C>, origin: Origin, high: bool, except: Option<Writer>): Outcome<C> {
    if o.msg.error.Some? then o
    else
      var ws := ParentTargets(o.shared, high, except);
      if o.msg.parsed.None? then o.(escaped := o.escaped || ws != [])
      else
        o.(shared := Emit(o.shared, FanOut(ws, Forward(origin, ContentOf(o.msg)))),
           msg := o.msg.(forwardedCount := o.msg.forwardedCount + |ws|))
  }

  function ErrorReplies(w: Writer, m: Message, node: Option<NodeId>): seq<Delivery> {
    if m.error.Some? && m.error.value.severity == Noisy then [Delivery(w, ErrorReply(m.id, node))] else []
  }

  function Replay(w: Writer, i: Sensor): seq<Delivery> {
    [Delivery(w, Forward(FromChild, i.registration))]
    + (if i.recentNew.Some? then [Delivery(w, Forward(FromChild, i.recentNew.value))] else [])
    + (if i.recentUnchanged.Some? then [Delivery(w, Forward(FromChild, i.recentUnchanged.value))] else [])
  }

  function ReplayAll(w: Writer, registered: map<NodeId, Sensor>, order: seq<NodeId>): seq<Delivery> {
    if order == [] then []
    else
      (if order[0] in registered then Replay(w, registered[order[0]]) else [])
      + ReplayAll(w, registered, order[1..])
  }

  function Without<T(==)>(s: seq<T>, x: T): seq<T> {
    if s == [] then [] else if s[0] == x then s[1..] else [s[0]] + Without(s[1..], x)
  }

  // ----- child connections

  function ChildFirst(cfg: Config, s: Shared, w: Writer, c: ChildState, m: Message): Outcome<ChildState> {
    if m.error.Some? then Outcome(s, c, m, false)
    else if m.parsed.None? || !m.parsed.value.body.Registration? then
      Outcome(s, c, Fail(m, Silent, RegistrationExpected), false)
    else if m.parsed.value.nodeId.None? then
      Outcome(s, c, Fail(m, Fatal, MissingNodeId), false)
    else
      var n := m.parsed.value.nodeId.value;
      var elapsed := m.receivedAt - m.parsed.value.timestamp;
      var m1 := Shift(cfg, m, elapsed - MESSAGE_DELAY_MS);
      var content := ContentOf(m1);
      var s1 := s.(registered := s.registered[n := Sensor(w, content, -elapsed, None, None)],
                   order := if n in s.registered then s.order else s.order + [n]);
      Outcome(
        Emit(s1, FanOut(s.dmms, Forward(FromChild, content))
                 + (if cfg.sendRegistrationAck then [Delivery(w, Ack(n))] else [])),
        ChildState(Some(content), Some(n), elapsed - MESSAGE_DELAY_MS, c.lastSystem),
        m1.(forwardedCount := |s.dmms|),
        false)
  }

  predicate Owns(s: Shared, w: Writer, node: Option<NodeId>) {
    node.Some? && node.value in s.registered && s.registered[node.value].writer == w
  }

  function Filtered(cfg: Config, m: Message): bool {
    && cfg.confidenceThreshold.Some?
    && m.parsed.Some?
    && m.parsed.value.body.Detection?
    && m.parsed.value.body.confidence.Some?
    && m.parsed.value.body.confidence.value < cfg.confidenceThreshold.value
  }

  function ChildOther(cfg: Config, s: Shared, w: Writer, c: ChildState, m: Message): Outcome<ChildState> {
    if m.error.Some? then Outcome(s, c, m, false)
    else if m.parsed.None? then Outcome(s, c, Fail(m, Fatal, HandlerException), false)
    else if m.parsed.value.nodeId != c.nodeId then Outcome(s, c, Fail(m, Noisy, WrongNodeId), false)
    else if !Owns(s, w, c.nodeId) then Outcome(s, c, Fail(m, Silent, Hijacked), false)
    else ChildAccepted(cfg, s, w, c, Shift(cfg, m, c.timeOffset), c.nodeId.value)
  }

  /** Why a status report is refused: an Unchanged one must repeat the system of the last New one. */
  function StatusFault(c: ChildState, body: Body): Option<Reason> {
    if !body.StatusReport? || !body.isUnchanged then None
    else if c.lastSystem.None? then Some(UnchangedBeforeNew)
    else if c.lastSystem.value != body.system then Some(UnchangedOtherSystem)
    else None
  }

  function SensorAfter(i: Sensor, content: Content): Sensor {
    match content.parsed.body
    case Registration(_) => i.(registration := content, recentNew := None, recentUnchanged := None)
    case StatusReport(_, false) => i.(recentNew := Some(content), recentUnchanged := None)
    case StatusReport(_, true) => i.(recentUnchanged := Some(content))
    case _ => i
  }

  function ChildAfter(c: ChildState, content: Content): ChildState {
    match content.parsed.body
    case Registration(_) => c.(registration := Some(content), lastSystem := None)
    case StatusReport(system, false) => c.(lastSystem := Some(system))
    case _ => c
  }

  function RegistrationAck(cfg: Config, w: Writer, n: NodeId, body: Body): seq<Delivery> {
    if cfg.sendRegistrationAck && body.Registration? then [Delivery(w, Ack(n))] else []
  }

  /** What the sender and its node remember of a message, and the acknowledgement of a
      registration; or why the message is refused. */
  function ChildFiled(cfg: Config, s: Shared, w: Writer, c: ChildState, m: Message, n: NodeId): Outcome<ChildState>
    requires m.parsed.Some? && n in s.registered
  {
    var content := ContentOf(m);
    var fault := StatusFault(c, m.parsed.value.body);
    if fault.Some? then Outcome(s, c, Fail(m, Noisy, fault.value), false)
    else if Filtered(cfg, m) then
      Outcome(s, c, Fail(m, if cfg.storeFiltered then Silent else Unstored, BelowThreshold), false)
    else
      Outcome(
        Emit(s.(registered := s.registered[n := SensorAfter(s.registered[n], content)]),
             RegistrationAck(cfg, w, n, m.parsed.value.body)),
        ChildAfter(c, content), m, false)
  }

  function SendToDmms<C>(o: Outcome<C>): Outcome<C>
    requires o.msg.parsed.Some?
  {
    if o.msg.error.Some? then o
    else
      o.(shared := Emit(o.shared, FanOut(o.shared.dmms, Forward(FromChild, ContentOf(o.msg)))),
         msg := o.msg.(forwardedCount := |o.shared.dmms|))
  }

  /** The rest of ChildOther, once the sender is known to own node n. */
  function ChildAccepted(cfg: Config, s: Shared, w: Writer, c: ChildState, m: Message, n: NodeId): Outcome<ChildState>
    requires m.parsed.Some? && n in s.registered
  {
    SendToDmms(ChildFiled(cfg, s, w, c, m, n))
  }

  function ChildInner(cfg: Config, s: Shared, w: Writer, c: ChildState, m: Message): Outcome<ChildState> {
    if c.registration.None? then ChildFirst(cfg, s, w, c, m) else ChildOther(cfg, s, w, c, m)
  }

  /** Forward-all parents are told last; an exception on the way becomes a fatal error, and the
      sender is told of a noisy one. */
  function ChildFinish(o: Outcome<ChildState>, w: Writer): Outcome<ChildState> {
    var o2 := SendToParents(o, FromChild, false, None);
    var m := if o2.escaped then Fail(o2.msg, Fatal, HandlerException) else o2.msg;
    Outcome(Emit(o2.shared, ErrorReplies(w, m, o2.conn.nodeId)), o2.conn, m, false)
  }

  function ChildMessage(cfg: Config, s: Shared, w: Writer, c: ChildState, m: Message): Outcome<ChildState> {
    ChildFinish(ChildInner(cfg, s, w, c, m), w)
  }

  function ChildClosed(s: Shared, w: Writer, c: ChildState): Shared {
    if Owns(s, w, c.nodeId)
    then s.(registered := s.registered - {c.nodeId.value}, order := Without(s.order, c.nodeId.value))
    else s
  }

  // ----- peer connections; the state of one is the id it registered with

  function PeerOpened(s: Shared, w: Writer): Shared {
    Emit(s.(dmms := s.dmms + [w]), ReplayAll(w, s.registered, s.order))
  }

  function PeerRegistration(cfg: Config, s: Shared, w: Writer, dmmId: Option<NodeId>, m: Message): Outcome<Option<NodeId>>
    requires m.parsed.Some?
  {
    if !cfg.allowPeerRegistration then Outcome(s, dmmId, Fail(m, Noisy, PeerMayNotRegister), false)
    else if m.parsed.value.nodeId.None? then Outcome(s, dmmId, Fail(m, Fatal, MissingNodeId), false)
    else if dmmId.Some? && m.parsed.value.nodeId != dmmId then
      Outcome(s, dmmId, Fail(m, Fatal, InconsistentPeerId), false)
    else
      Outcome(Emit(s, [Delivery(w, Ack(m.parsed.value.nodeId.value))]), m.parsed.value.nodeId, m, false)
  }

  function PeerRouted(cfg: Config, s: Shared, w: Writer, dmmId: Option<NodeId>, m: Message): Outcome<Option<NodeId>>
    requires m.parsed.Some? && m.error.None?
  {
    if dmmId.Some? && m.parsed.value.nodeId != dmmId then
      Outcome(s, dmmId, Fail(m, Noisy, WrongNodeId), false)
    else if m.parsed.value.destination.None? then
      SendToParents(Outcome(s, dmmId, m, false), FromPeer, true, None)
    else
      var d := m.parsed.value.destination.value;
      if d !in s.registered then Outcome(s, dmmId, Fail(m, Noisy, UnknownDestination), false)
      else
        var m1 := Shift(cfg, m, s.registered[d].dmmOffset);
        var s1 := Emit(s, [Delivery(s.registered[d].writer, Forward(FromPeer, ContentOf(m1)))]);
        SendToParents(Outcome(s1, dmmId, m1.(forwardedCount := 1), false), FromPeer, false, None)
  }

  function PeerInner(cfg: Config, s: Shared, w: Writer, dmmId: Option<NodeId>, m: Message): Outcome<Option<NodeId>> {
    if m.error.Some? then Outcome(s, dmmId, m, false)
    else if m.parsed.None? then Outcome(s, dmmId, Fail(m, Fatal, HandlerException), false)
    else if m.parsed.value.body.Registration? then
      var o := PeerRegistration(cfg, s, w, dmmId, m);
      if o.msg.error.Some? then o else PeerRouted(cfg, o.shared, w, o.conn, o.msg)
    else PeerRouted(cfg, s, w, dmmId, m)
  }

  function PeerMessage(cfg: Config, s: Shared, w: Writer, dmmId: Option<NodeId>, m: Message): Outcome<Option<NodeId>> {
    var o := PeerInner(cfg, s, w, dmmId, m);
    o.(shared := Emit(o.shared, ErrorReplies(w, o.msg, o.conn)))
  }

  function PeerClosed(s: Shared, w: Writer): Shared {
    s.(dmms := Without(s.dmms, w))
  }

  // ----- parent connections

  function ParentOpened(s: Shared, w: Writer, forwardAll: bool): Shared {
    if forwardAll
    then Emit(s.(parentsAll := s.parentsAll + [w]), ReplayAll(w, s.registered, s.order))
    else s.(parentsHigh := s.parentsHigh + [w])
  }

  /** The handler after the patch applied when the image is built. A record without error and
      without parsed content raises, and nothing in this handler catches it. */
  function ParentMessage(s: Shared, w: Writer, m: Message): Outcome<()> {
    if m.error.Some? then
      Outcome(Emit(s, ErrorReplies(w, m, None)), (), m, false)
    else if m.parsed.None? then
      Outcome(s, (), m.(forwardedCount := 0), true)
    else
      var payload := Forward(FromParent, ContentOf(m));
      var d := m.parsed.value.destination;
      var child := if d.Some? && d.value in s.registered then [s.registered[d.value].writer] else [];
      SendToParents(
        Outcome(Emit(s, FanOut(child + s.dmms, payload)), (), m.(forwardedCount := |child| + |s.dmms|), false),
        FromParent, false, Some(w))
  }

  /** The handler as vendored, before the patch: no routing to a child, and the sender is not
      recognised among the forward-all parents, because a writer is never equal to a list entry. */
  function VendoredParentMessage(s: Shared, w: Writer, m: Message): Outcome<()> {
    if m.error.Some? then
      Outcome(Emit(s, ErrorReplies(w, m, None)), (), m, false)
    else if m.parsed.None? then
      Outcome(s, (), m, s.dmms + s.parentsAll != [])
    else
      SendToParents(
        Outcome(Emit(s, FanOut(s.dmms, Forward(FromParent, ContentOf(m)))), (), m.(forwardedCount := |s.dmms|), false),
        FromParent, false, None)
  }

  function ParentClosed(s: Shared, w: Writer, forwardAll: bool): Shared {
    if forwardAll then s.(parentsAll := Without(s.parentsAll, w))
    else s.(parentsHigh := Without(s.parentsHigh, w))
  }

  // ----- recorder connections

  function RecorderMessage(s: Shared, m: Message): Outcome<()> {
    SendToParents(Outcome(s, (), m, false), FromRecorder, false, None)
  }
}
