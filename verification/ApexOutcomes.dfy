/** What becomes of a message, said of the events alone: the error it ends with, who is told what, and at
    what time it is dated. Nothing here refers to the outcome of a handler. */
module ApexOutcomes {
  import opened Wrappers
  import opened ApexTypes
  import opened ApexRouting
  import opened ApexLogs
  import opened ApexRuns
  import opened ApexTheorems
  import opened Sequences

  // ----- what connections have said

  /** A registration that names a node, and that the parser found no error in. */
  predicate NamesNode(m: Message) {
    Delivers(m) && m.parsed.value.body.Registration? && m.parsed.value.nodeId.Some?
  }

  /** The first registration that a child has sent. */
  function FirstRegistration(cfg: Config, evs: seq<Event>, w: Writer): (first: Option<Message>)
    ensures first.Some? ==> NamesNode(first.value)
  {
    if evs == [] then None
    else
      var evs0, ev := evs[..|evs| - 1], evs[|evs| - 1];
      var before := FirstRegistration(cfg, evs0, w);
      if before.Some? then before
      else if ev.Receive? && ev.w == w && w in Run(cfg, INITIAL, evs0).children && NamesNode(ev.m) then Some(ev.m)
      else None
  }

  /** How much later than its date a message arrived. */
  function Elapsed(m: Message): int
    requires m.parsed.Some?
  {
    m.receivedAt - m.parsed.value.timestamp
  }

  /** The name that a peer has registered as. */
  function PeerName(cfg: Config, evs: seq<Event>, w: Writer): Option<NodeId> {
    if evs == [] then None
    else
      var evs0, ev := evs[..|evs| - 1], evs[|evs| - 1];
      var before := PeerName(cfg, evs0, w);
      if before.Some? then before
      else if ev.Receive? && ev.w == w && w in Run(cfg, INITIAL, evs0).peers && NamesNode(ev.m) && cfg.allowPeerRegistration
      then ev.m.parsed.value.nodeId
      else None
  }

  /** What a child remembers, given its first registration. */
  predicate Remembers(c: ChildState, first: Option<Message>) {
    match first
    case None => c.registration.None? && c.nodeId.None?
    case Some(m) =>
      && NamesNode(m) && c.registration.Some? && c.nodeId == m.parsed.value.nodeId
      && c.timeOffset == Elapsed(m) - 100
  }

  lemma ChildRemembers(cfg: Config, s: Shared, w: Writer, c: ChildState, first: Option<Message>, m: Message)
    requires Remembers(c, first)
    ensures Remembers(ChildMessage(cfg, s, w, c, m).conn, if first.None? && NamesNode(m) then Some(m) else first)
  {
    var i := ChildInner(cfg, s, w, c, m);
    assert ChildMessage(cfg, s, w, c, m).conn == i.conn;
  }

  /** The state of a connection is what the handler left, or as before, or new. */
  lemma ConnectionStep(cfg: Config, st: State, ev: Event, w: Writer)
    requires Inv(st)
    ensures w in Step(cfg, st, ev).children ==>
              if w !in st.children then w == st.nextWriter && Step(cfg, st, ev).children[w] == NEW_CHILD
              else Step(cfg, st, ev).children[w]
                   == if ev.Receive? && ev.w == w then ChildMessage(cfg, st.shared, w, st.children[w], ev.m).conn
                      else st.children[w]
    ensures w in Step(cfg, st, ev).peers ==>
              if w !in st.peers then w == st.nextWriter && Step(cfg, st, ev).peers[w].None?
              else Step(cfg, st, ev).peers[w]
                   == if ev.Receive? && ev.w == w then PeerMessage(cfg, st.shared, w, st.peers[w], ev.m).conn
                      else st.peers[w]
    ensures st.nextWriter <= Step(cfg, st, ev).nextWriter
    ensures w >= st.nextWriter ==> w !in st.children && w !in st.peers
  {
    hide Informed, AllGrammar, Owners, Listed, ChildMessage, PeerMessage, ParentMessage, RecorderMessage, ReplayAll;
  }

  /** In every run a child remembers its first registration. */
  lemma {:induction false} RegistrationRemembered(cfg: Config, evs: seq<Event>, w: Writer)
    ensures var st, first := Run(cfg, INITIAL, evs), FirstRegistration(cfg, evs, w);
            && (w in st.children ==> Remembers(st.children[w], first))
            && (w >= st.nextWriter ==> first.None?)
  {
    hide ChildMessage, NamesNode, Inv, Step;
    if evs != [] {
      var evs0, ev := evs[..|evs| - 1], evs[|evs| - 1];
      var st := Run(cfg, INITIAL, evs0);
      RegistrationRemembered(cfg, evs0, w);
      Reachable(cfg, evs0);
      ConnectionStep(cfg, st, ev, w);
      if ev.Receive? && ev.w == w && w in st.children {
        ChildRemembers(cfg, st.shared, w, st.children[w], FirstRegistration(cfg, evs0, w), ev.m);
      }
    }
  }

  lemma PeerRemembers(cfg: Config, s: Shared, w: Writer, d: Option<NodeId>, m: Message)
    ensures PeerMessage(cfg, s, w, d, m).conn
            == if d.None? && NamesNode(m) && cfg.allowPeerRegistration then m.parsed.value.nodeId else d
  {
  }

  /** In every run a peer keeps the name it first registered as. */
  lemma {:induction false} NameRemembered(cfg: Config, evs: seq<Event>, w: Writer)
    ensures var st := Run(cfg, INITIAL, evs);
            && (w in st.peers ==> st.peers[w] == PeerName(cfg, evs, w))
            && (w >= st.nextWriter ==> PeerName(cfg, evs, w).None?)
  {
    hide PeerMessage, NamesNode, Inv, Step;
    if evs != [] {
      var evs0, ev := evs[..|evs| - 1], evs[|evs| - 1];
      var st := Run(cfg, INITIAL, evs0);
      NameRemembered(cfg, evs0, w);
      Reachable(cfg, evs0);
      ConnectionStep(cfg, st, ev, w);
      if ev.Receive? && ev.w == w && w in st.peers { PeerRemembers(cfg, st.shared, w, st.peers[w], ev.m); }
    }
  }

  /** The last child whose first registration named the node. */
  function NamedLast(cfg: Config, evs: seq<Event>, n: NodeId): Option<Writer> {
    if evs == [] then None
    else
      var evs0, ev := evs[..|evs| - 1], evs[|evs| - 1];
      if ev.Receive? && ev.w in Run(cfg, INITIAL, evs0).children && FirstRegistration(cfg, evs0, ev.w).None?
         && NamesNode(ev.m) && ev.m.parsed.value.nodeId == Some(n)
      then Some(ev.w) else NamedLast(cfg, evs0, n)
  }

  /** So whom a node belongs to is a matter of the messages received, not of how they were handled. */
  lemma {:induction false} LatestRegistrantIs(cfg: Config, evs: seq<Event>, n: NodeId)
    ensures LatestRegistrant(cfg, evs, n) == NamedLast(cfg, evs, n)
  {
    hide ChildMessage, Inv, Step, NamesNode;
    if evs != [] {
      var evs0, ev := evs[..|evs| - 1], evs[|evs| - 1];
      var st := Run(cfg, INITIAL, evs0);
      LatestRegistrantIs(cfg, evs0, n);
      if ev.Receive? && ev.w in st.children {
        Reachable(cfg, evs0);
        RegistrationRemembered(cfg, evs0, ev.w);
        ChildRemembers(cfg, st.shared, ev.w, st.children[ev.w], FirstRegistration(cfg, evs0, ev.w), ev.m);
        ReceivingChild(cfg, st, ev.w, ev.m);
      }
    }
  }

  lemma ReceivingChild(cfg: Config, st: State, w: Writer, m: Message)
    requires w in st.children
    ensures var st' := Step(cfg, st, Receive(w, m));
            w in st'.children && st'.children[w] == ChildMessage(cfg, st.shared, w, st.children[w], m).conn
  {
    hide ChildMessage;
  }

  // ----- the error a message ends with

  predicate OwnedBy(cfg: Config, evs: seq<Event>, n: NodeId, w: Writer) {
    LatestRegistrant(cfg, evs, n) == Some(w)
  }

  /** Why a message of a child is refused, and how loudly. What the parser found stays. */
  function ChildRefusal(cfg: Config, evs: seq<Event>, w: Writer, m: Message): Option<Error> {
    var first := FirstRegistration(cfg, evs, w);
    if m.error.Some? then m.error
    else if first.None? then
      if m.parsed.None? || !m.parsed.value.body.Registration? then Some(Error(Silent, RegistrationExpected))
      else if m.parsed.value.nodeId.None? then Some(Error(Fatal, MissingNodeId))
      else None
    else if m.parsed.None? then Some(Error(Fatal, HandlerException))
    else if m.parsed.value.nodeId != first.value.parsed.value.nodeId then Some(Error(Noisy, WrongNodeId))
    else if !OwnedBy(cfg, evs, m.parsed.value.nodeId.value, w) then
      Some(Error(Silent, Hijacked))
    else StatusRefusal(cfg, ReportedSystem(Run(cfg, INITIAL, evs), m.parsed.value.nodeId.value), m.parsed.value.body)
  }

  /** The system of the New status that subscribers have last been told of a node. */
  function ReportedSystem(st: State, n: NodeId): Option<string> {
    if n in st.shared.registered then SystemOf(st.shared.registered[n].recentNew) else None
  }

  function StatusRefusal(cfg: Config, system: Option<string>, body: Body): Option<Error> {
    if body.StatusReport? && body.isUnchanged && system.None? then Some(Error(Noisy, UnchangedBeforeNew))
    else if body.StatusReport? && body.isUnchanged && system != Some(body.system) then
      Some(Error(Noisy, UnchangedOtherSystem))
    else if BelowConfidence(cfg, body) then Some(Error(if cfg.storeFiltered then Silent else Unstored, BelowThreshold))
    else None
  }

  function PeerRefusal(cfg: Config, evs: seq<Event>, w: Writer, m: Message): Option<Error> {
    var name := PeerName(cfg, evs, w);
    if m.error.Some? then m.error
    else if m.parsed.None? then Some(Error(Fatal, HandlerException))
    else
      var p := m.parsed.value;
      if p.body.Registration? && !cfg.allowPeerRegistration then Some(Error(Noisy, PeerMayNotRegister))
      else if p.body.Registration? && p.nodeId.None? then Some(Error(Fatal, MissingNodeId))
      else if name.Some? && p.nodeId != name then
        Some(if p.body.Registration? then Error(Fatal, InconsistentPeerId) else Error(Noisy, WrongNodeId))
      else if p.destination.Some? && HasNoOwner(cfg, evs, p.destination.value) then Some(Error(Noisy, UnknownDestination))
      else None
  }

  /** Nobody open has registered as the node last. */
  predicate HasNoOwner(cfg: Config, evs: seq<Event>, n: NodeId) {
    var r := LatestRegistrant(cfg, evs, n);
    r.None? || r.value !in Run(cfg, INITIAL, evs).children
  }

  function RefusalOf(cfg: Config, evs: seq<Event>, w: Writer, m: Message): Option<Error> {
    var st := Run(cfg, INITIAL, evs);
    if w in st.children then ChildRefusal(cfg, evs, w, m)
    else if w in st.peers then PeerRefusal(cfg, evs, w, m)
    else m.error
  }

  lemma FirstRefused(cfg: Config, s: Shared, w: Writer, c: ChildState, m: Message)
    requires c.registration.None?
    ensures ChildInner(cfg, s, w, c, m).msg.error
            == if m.error.Some? then m.error
               else if m.parsed.None? || !m.parsed.value.body.Registration? then Some(Error(Silent, RegistrationExpected))
               else if m.parsed.value.nodeId.None? then Some(Error(Fatal, MissingNodeId))
               else None
  {
  }

  lemma OtherRefused(cfg: Config, s: Shared, w: Writer, c: ChildState, m: Message)
    requires c.registration.Some? && c.nodeId.Some?
    requires Owns(s, w, c.nodeId) ==> c.lastSystem == SystemOf(s.registered[c.nodeId.value].recentNew)
    ensures ChildInner(cfg, s, w, c, m).msg.error
            == if m.error.Some? then m.error
               else if m.parsed.None? then Some(Error(Fatal, HandlerException))
               else if m.parsed.value.nodeId != c.nodeId then Some(Error(Noisy, WrongNodeId))
               else if !Owns(s, w, c.nodeId) then Some(Error(Silent, Hijacked))
               else StatusRefusal(cfg, SystemOf(s.registered[c.nodeId.value].recentNew), m.parsed.value.body)
  {
    hide SensorAfter, ChildAfter, FanOut, RegistrationAck, SystemOf;
  }

  lemma ChildRefused(cfg: Config, evs: seq<Event>, w: Writer, m: Message)
    requires w in Run(cfg, INITIAL, evs).children
    ensures Received(cfg, Run(cfg, INITIAL, evs), w, m).error == ChildRefusal(cfg, evs, w, m)
  {
    hide ChildInner, ChildMessage, Inv, StatusRefusal;
    var st := Run(cfg, INITIAL, evs);
    var c := st.children[w];
    Reachable(cfg, evs);
    RegistrationRemembered(cfg, evs, w);
    ChildMessageShape(cfg, st.shared, w, c, m);
    if c.registration.None? {
      FirstRefused(cfg, st.shared, w, c, m);
    } else {
      MemoryOfOwner(st, w);
      OwnerIsLatestRegistrant(cfg, evs, c.nodeId.value);
      OtherRefused(cfg, st.shared, w, c, m);
    }
  }

  lemma MemoryOfOwner(st: State, w: Writer)
    requires Inv(st) && w in st.children && st.children[w].registration.Some?
    ensures var c := st.children[w];
            && c.nodeId.Some?
            && (Owns(st.shared, w, c.nodeId) ==> c.lastSystem == SystemOf(st.shared.registered[c.nodeId.value].recentNew))
  {
    hide Informed, AllGrammar, Roles;
  }

  lemma PeerRefused(cfg: Config, s: Shared, w: Writer, d: Option<NodeId>, m: Message)
    ensures PeerMessage(cfg, s, w, d, m).msg.error
            == if m.error.Some? then m.error
               else if m.parsed.None? then Some(Error(Fatal, HandlerException))
               else
                 var p := m.parsed.value;
                 if p.body.Registration? && !cfg.allowPeerRegistration then Some(Error(Noisy, PeerMayNotRegister))
                 else if p.body.Registration? && p.nodeId.None? then Some(Error(Fatal, MissingNodeId))
                 else if d.Some? && p.nodeId != d then
                   Some(if p.body.Registration? then Error(Fatal, InconsistentPeerId) else Error(Noisy, WrongNodeId))
                 else if p.destination.Some? && p.destination.value !in s.registered then
                   Some(Error(Noisy, UnknownDestination))
                 else None
  {
  }

  /** In every run a message ends with exactly the error of the table. */
  lemma RefusedExactlyWhen(cfg: Config, evs: seq<Event>, w: Writer, m: Message)
    requires IsOpen(Run(cfg, INITIAL, evs), w)
    ensures Received(cfg, Run(cfg, INITIAL, evs), w, m).error == RefusalOf(cfg, evs, w, m)
  {
    hide ChildMessage, PeerMessage, Inv;
    var st := Run(cfg, INITIAL, evs);
    Reachable(cfg, evs);
    if w in st.children {
      ChildRefused(cfg, evs, w, m);
    } else if w in st.peers {
      NameRemembered(cfg, evs, w);
      PeerReceives(cfg, st, w, m);
      PeerRefused(cfg, st.shared, w, st.peers[w], m);
      if m.parsed.Some? && m.parsed.value.destination.Some? {
        OwnerIsLatestRegistrant(cfg, evs, m.parsed.value.destination.value);
      }
    }
  }

  // ----- at what time it is dated

  /** How far the date of a message is moved. */
  function ShiftOf(cfg: Config, evs: seq<Event>, w: Writer, m: Message): int
    requires m.parsed.Some?
  {
    var st := Run(cfg, INITIAL, evs);
    if !cfg.adjustTimeSync then 0
    else if w in st.children then
      var first := FirstRegistration(cfg, evs, w);
      Elapsed(if first.None? then m else first.value) - 100
    else if w in st.peers && m.parsed.value.destination.Some? then
      var owner := LatestRegistrant(cfg, evs, m.parsed.value.destination.value);
      var first := if owner.None? then None else FirstRegistration(cfg, evs, owner.value);
      if first.None? then 0 else -Elapsed(first.value)
    else 0
  }

  function Dated(m: Message, shift: int): Parsed
    requires m.parsed.Some?
  {
    m.parsed.value.(timestamp := m.parsed.value.timestamp + shift)
  }

  lemma ChildDates(cfg: Config, s: Shared, w: Writer, c: ChildState, m: Message)
    requires ChildInner(cfg, s, w, c, m).msg.error.None?
    ensures m.parsed.Some?
    ensures ChildInner(cfg, s, w, c, m).msg.parsed
            == Some(Dated(m, if !cfg.adjustTimeSync then 0 else if c.registration.None? then Elapsed(m) - 100 else c.timeOffset))
  {
  }

  lemma PeerDates(cfg: Config, s: Shared, w: Writer, d: Option<NodeId>, m: Message)
    requires PeerMessage(cfg, s, w, d, m).msg.error.None?
    ensures m.parsed.Some?
    ensures m.parsed.value.destination.Some? ==> m.parsed.value.destination.value in s.registered
    ensures var dest := m.parsed.value.destination;
            PeerMessage(cfg, s, w, d, m).msg.parsed
            == Some(Dated(m, if !cfg.adjustTimeSync || dest.None? then 0 else s.registered[dest.value].dmmOffset))
  {
  }

  /** The offset kept for a node is minus the time that its owner's registration took. */
  lemma NodeOffset(cfg: Config, evs: seq<Event>, n: NodeId)
    requires n in Run(cfg, INITIAL, evs).shared.registered
    ensures var i := Run(cfg, INITIAL, evs).shared.registered[n];
            var first := FirstRegistration(cfg, evs, i.writer);
            first.Some? && NamesNode(first.value) && i.dmmOffset == -Elapsed(first.value)
  {
    Reachable(cfg, evs);
    ClocksAgree(cfg, evs);
    RegistrationRemembered(cfg, evs, Run(cfg, INITIAL, evs).shared.registered[n].writer);
  }

  /** In every run an accepted message differs from what arrived in its date only, which is moved by the
      time that a registration took: less 100 ms on the way up, back by all of it on the way down. */
  lemma DatedAs(cfg: Config, evs: seq<Event>, w: Writer, m: Message)
    requires IsOpen(Run(cfg, INITIAL, evs), w)
    requires RefusalOf(cfg, evs, w, m).None? && m.parsed.Some?
    ensures Received(cfg, Run(cfg, INITIAL, evs), w, m).parsed == Some(Dated(m, ShiftOf(cfg, evs, w, m)))
  {
    hide ChildInner, ChildMessage, PeerMessage, RefusalOf, Inv;
    var st := Run(cfg, INITIAL, evs);
    RefusedExactlyWhen(cfg, evs, w, m);
    if w in st.children {
      RegistrationRemembered(cfg, evs, w);
      ChildMessageShape(cfg, st.shared, w, st.children[w], m);
      ChildDates(cfg, st.shared, w, st.children[w], m);
    } else if w in st.peers {
      PeerReceives(cfg, st, w, m);
      PeerDates(cfg, st.shared, w, st.peers[w], m);
      if m.parsed.value.destination.Some? {
        OwnerIsLatestRegistrant(cfg, evs, m.parsed.value.destination.value);
        NodeOffset(cfg, evs, m.parsed.value.destination.value);
      }
    }
  }

  // ----- who is told what

  predicate Accepted(cfg: Config, evs: seq<Event>, w: Writer, m: Message) {
    RefusalOf(cfg, evs, w, m).None? && m.parsed.Some?
  }

  /** What the recipients of an accepted message are told. */
  function Told(cfg: Config, evs: seq<Event>, w: Writer, m: Message): Payload {
    if m.parsed.None? then ErrorReply(m.id, None)
    else Forward(OriginOf(Run(cfg, INITIAL, evs), w), Content(m.id, Dated(m, ShiftOf(cfg, evs, w, m))))
  }

  /** The name a connection goes by, once the message has been handled. */
  function NameOf(cfg: Config, evs: seq<Event>, w: Writer, m: Message): Option<NodeId> {
    var st := Run(cfg, INITIAL, evs);
    if w in st.children then
      var first := FirstRegistration(cfg, evs, w);
      if first.None? then None else first.value.parsed.value.nodeId
    else if w in st.peers then
      var name := PeerName(cfg, evs, w);
      if name.None? && NamesNode(m) && cfg.allowPeerRegistration then m.parsed.value.nodeId else name
    else None
  }

  /** A registration is acknowledged: that of a child if it is accepted and acknowledgements are on, that of
      a peer if it is allowed and keeps to the name, even if its destination is unknown. */
  predicate Acknowledged(cfg: Config, evs: seq<Event>, w: Writer, m: Message) {
    var st := Run(cfg, INITIAL, evs);
    && NamesNode(m)
    && if w in st.children then cfg.sendRegistrationAck && RefusalOf(cfg, evs, w, m).None?
       else w in st.peers && cfg.allowPeerRegistration
            && (PeerName(cfg, evs, w).None? || m.parsed.value.nodeId == PeerName(cfg, evs, w))
  }

  predicate IsNoisy(e: Option<Error>) {
    e.Some? && e.value.severity == Noisy
  }

  /** What the sender is told itself: that its registration was received, and that its message was refused
      if it was refused aloud. A recorder is told nothing. */
  function AnswersDue(cfg: Config, evs: seq<Event>, w: Writer, m: Message): seq<Delivery> {
    (if Acknowledged(cfg, evs, w, m) then [Delivery(w, Ack(m.parsed.value.nodeId.value))] else [])
    + (if IsNoisy(RefusalOf(cfg, evs, w, m)) && w !in Run(cfg, INITIAL, evs).recorders
       then [Delivery(w, ErrorReply(m.id, NameOf(cfg, evs, w, m)))] else [])
  }

  lemma {:induction false} NoForwards(ds: seq<Delivery>)
    requires Forwards(ds) == 0
    ensures forall i :: 0 <= i < |ds| ==> !ds[i].payload.Forward?
  {
    if ds != [] {
      NoForwards(ds[1..]);
      assert ds == [ds[0]] + ds[1..];
    }
  }

  lemma NobodyHeard(a: Shared, b: Shared, rs: seq<Delivery>, p: Payload, q: Payload)
    requires SentMore(a, b, [], rs, p)
    ensures SentMore(a, b, [], rs, q)
  {
    NoForwards(b.sent[|a.sent|..]);
  }

  lemma ChildAnswersDue(cfg: Config, evs: seq<Event>, w: Writer, m: Message)
    requires w in Run(cfg, INITIAL, evs).children
    ensures var st := Run(cfg, INITIAL, evs);
            ChildAnswers(cfg, w, ChildMessage(cfg, st.shared, w, st.children[w], m)) == AnswersDue(cfg, evs, w, m)
  {
    hide ChildInner, ChildMessage, ChildRefusal, Inv, ShiftOf;
    var st := Run(cfg, INITIAL, evs);
    var c := st.children[w];
    var i, o := ChildInner(cfg, st.shared, w, c, m), ChildMessage(cfg, st.shared, w, c, m);
    Reachable(cfg, evs);
    RolesApart(st);
    ChildMessageShape(cfg, st.shared, w, c, m);
    ChildRefused(cfg, evs, w, m);
    RegistrationRemembered(cfg, evs, w);
    ChildIds(cfg, st.shared, w, c, m);
    if o.msg.error.None? {
      ChildDates(cfg, st.shared, w, c, m);
      ChildNames(cfg, st.shared, w, c, m);
    }
  }

  lemma ChildIds(cfg: Config, s: Shared, w: Writer, c: ChildState, m: Message)
    ensures var r := ChildMessage(cfg, s, w, c, m).msg; r.id == m.id && r.receivedAt == m.receivedAt
  {
    var i := ChildInner(cfg, s, w, c, m);
    assert i.msg.id == m.id && i.msg.receivedAt == m.receivedAt;
    assert ChildFinish(i, w).msg.id == i.msg.id && ChildFinish(i, w).msg.receivedAt == i.msg.receivedAt;
  }

  lemma ChildNames(cfg: Config, s: Shared, w: Writer, c: ChildState, m: Message)
    requires ChildInner(cfg, s, w, c, m).msg.error.None?
    ensures ChildInner(cfg, s, w, c, m).conn.nodeId.Some?
    ensures m.parsed.Some? && m.error.None? && m.parsed.value.nodeId == ChildInner(cfg, s, w, c, m).conn.nodeId
  {
  }

  lemma PeerAnswersDue(cfg: Config, evs: seq<Event>, w: Writer, m: Message)
    requires var st := Run(cfg, INITIAL, evs); w in st.peers && w !in st.children
    ensures var st := Run(cfg, INITIAL, evs);
            var o := PeerMessage(cfg, st.shared, w, st.peers[w], m);
            PeerAcks(cfg, w, st.peers[w], m) + ErrorReplies(w, o.msg, o.conn) == AnswersDue(cfg, evs, w, m)
  {
    hide PeerMessage, PeerRefusal, Inv, ShiftOf;
    var st := Run(cfg, INITIAL, evs);
    Reachable(cfg, evs);
    RolesApart(st);
    NameRemembered(cfg, evs, w);
    RefusedExactlyWhen(cfg, evs, w, m);
    PeerReceives(cfg, st, w, m);
    PeerRemembers(cfg, st.shared, w, st.peers[w], m);
    PeerIds(cfg, st.shared, w, st.peers[w], m);
  }

  lemma PeerIds(cfg: Config, s: Shared, w: Writer, d: Option<NodeId>, m: Message)
    ensures var r := PeerMessage(cfg, s, w, d, m).msg; r.id == m.id && r.receivedAt == m.receivedAt
  {
  }

  lemma AnswersAreDue(cfg: Config, evs: seq<Event>, w: Writer, m: Message)
    requires IsOpen(Run(cfg, INITIAL, evs), w)
    ensures AnswersTo(cfg, Run(cfg, INITIAL, evs), w, m) == AnswersDue(cfg, evs, w, m)
  {
    hide ChildMessage, PeerMessage, ChildAnswers, ChildRefusal, PeerRefusal, PeerAcks, Inv;
    var st := Run(cfg, INITIAL, evs);
    Reachable(cfg, evs);
    RolesApart(st);
    if w in st.children {
      ChildAnswersDue(cfg, evs, w, m);
    } else if w in st.peers {
      PeerAnswersDue(cfg, evs, w, m);
    } else if w in st.parents {
      ParentAnswersDue(st, w, m);
    }
  }

  lemma ParentAnswersDue(st: State, w: Writer, m: Message)
    ensures ErrorReplies(w, ParentMessage(st.shared, w, m).msg, None)
            == if IsNoisy(m.error) then [Delivery(w, ErrorReply(m.id, None))] else []
  {
  }

  lemma ReceivedIds(cfg: Config, st: State, w: Writer, m: Message)
    ensures var r := Received(cfg, st, w, m); r.id == m.id && r.receivedAt == m.receivedAt
  {
    hide ChildMessage, PeerMessage;
    if w in st.children {
      ChildIds(cfg, st.shared, w, st.children[w], m);
    } else if w in st.peers {
      PeerIds(cfg, st.shared, w, st.peers[w], m);
    }
  }

  /** A message that is refused for what it reports has been dated before. */
  predicate RefusedLate(cfg: Config, evs: seq<Event>, w: Writer, m: Message) {
    var e := RefusalOf(cfg, evs, w, m);
    && m.error.None? && w in Run(cfg, INITIAL, evs).children && e.Some?
    && (e.value.reason == UnchangedBeforeNew || e.value.reason == UnchangedOtherSystem || e.value.reason == BelowThreshold)
  }

  function ParsedInTheEnd(cfg: Config, evs: seq<Event>, w: Writer, m: Message): Option<Parsed> {
    if m.parsed.Some? && (Accepted(cfg, evs, w, m) || RefusedLate(cfg, evs, w, m))
    then Some(Dated(m, ShiftOf(cfg, evs, w, m))) else m.parsed
  }

  lemma RefusedChildDates(cfg: Config, s: Shared, w: Writer, c: ChildState, m: Message)
    requires ChildInner(cfg, s, w, c, m).msg.error.Some?
    ensures var e := ChildInner(cfg, s, w, c, m).msg.error.value.reason;
            var late := m.error.None? && (e == UnchangedBeforeNew || e == UnchangedOtherSystem || e == BelowThreshold);
            ChildInner(cfg, s, w, c, m).msg.parsed
            == if late && m.parsed.Some? then Some(Dated(m, if cfg.adjustTimeSync then c.timeOffset else 0)) else m.parsed
    ensures c.registration.None? && m.error.None? ==>
              var e := ChildInner(cfg, s, w, c, m).msg.error.value.reason;
              e != UnchangedBeforeNew && e != UnchangedOtherSystem && e != BelowThreshold
  {
  }

  lemma RefusedPeerDates(cfg: Config, s: Shared, w: Writer, d: Option<NodeId>, m: Message)
    requires PeerMessage(cfg, s, w, d, m).msg.error.Some?
    ensures PeerMessage(cfg, s, w, d, m).msg.parsed == m.parsed
  {
  }

  lemma ChildParsedAs(cfg: Config, evs: seq<Event>, w: Writer, m: Message)
    requires w in Run(cfg, INITIAL, evs).children && !Accepted(cfg, evs, w, m)
    ensures Received(cfg, Run(cfg, INITIAL, evs), w, m).parsed == ParsedInTheEnd(cfg, evs, w, m)
  {
    hide ChildInner, ChildMessage, RefusalOf, Inv, FirstRegistration, Run;
    var st := Run(cfg, INITIAL, evs);
    RefusedExactlyWhen(cfg, evs, w, m);
    RegistrationRemembered(cfg, evs, w);
    ChildMessageShape(cfg, st.shared, w, st.children[w], m);
    if RefusalOf(cfg, evs, w, m).Some? {
      RefusedChildDates(cfg, st.shared, w, st.children[w], m);
    } else {
      ChildDates(cfg, st.shared, w, st.children[w], m);
    }
  }

  lemma PeerParsedAs(cfg: Config, evs: seq<Event>, w: Writer, m: Message)
    requires var st := Run(cfg, INITIAL, evs); w in st.peers && w !in st.children
    requires !Accepted(cfg, evs, w, m)
    ensures Received(cfg, Run(cfg, INITIAL, evs), w, m).parsed == m.parsed
  {
    hide PeerMessage, RefusalOf, Inv;
    var st := Run(cfg, INITIAL, evs);
    RefusedExactlyWhen(cfg, evs, w, m);
    PeerReceives(cfg, st, w, m);
    if RefusalOf(cfg, evs, w, m).Some? {
      RefusedPeerDates(cfg, st.shared, w, st.peers[w], m);
    } else {
      PeerDates(cfg, st.shared, w, st.peers[w], m);
    }
  }

  lemma ParsedAs(cfg: Config, evs: seq<Event>, w: Writer, m: Message)
    requires IsOpen(Run(cfg, INITIAL, evs), w)
    ensures Received(cfg, Run(cfg, INITIAL, evs), w, m).parsed == ParsedInTheEnd(cfg, evs, w, m)
  {
    hide ChildMessage, PeerMessage, RefusalOf, Inv, ShiftOf;
    var st := Run(cfg, INITIAL, evs);
    if Accepted(cfg, evs, w, m) {
      DatedAs(cfg, evs, w, m);
    } else if w in st.children {
      ChildParsedAs(cfg, evs, w, m);
    } else if w in st.peers {
      PeerParsedAs(cfg, evs, w, m);
    }
  }

  /** For every message that an open connection receives, after any events. It ends with the error of the
      table; if it has none, its recipients are handed it, once each, as it arrived but for its date, and
      otherwise nobody is; the sender is told exactly what is due to it; and this is how its record ends. */
  lemma MessageHandled(cfg: Config, evs: seq<Event>, w: Writer, m: Message)
    requires IsOpen(Run(cfg, INITIAL, evs), w) && m.forwardedCount == 0
    ensures var st := Run(cfg, INITIAL, evs);
            var ws := if Accepted(cfg, evs, w, m) then Recipients(st, w, m) else [];
            && SentMore(st.shared, ReceiveStep(cfg, st, w, m).shared, ws, AnswersDue(cfg, evs, w, m), Told(cfg, evs, w, m))
            && Received(cfg, st, w, m)
               == Message(m.id, m.receivedAt, ParsedInTheEnd(cfg, evs, w, m), RefusalOf(cfg, evs, w, m), |ws|)
  {
    hide Inv, Received, RefusalOf, AnswersTo, AnswersDue, ShiftOf, ReceiveStep, Recipients, SentMore, OriginOf;
    var st := Run(cfg, INITIAL, evs);
    FanOutConservation(cfg, evs, w, m);
    RefusedExactlyWhen(cfg, evs, w, m);
    AnswersAreDue(cfg, evs, w, m);
    ParsedAs(cfg, evs, w, m);
    ReceivedIds(cfg, st, w, m);
    var r := Received(cfg, st, w, m);
    if !Accepted(cfg, evs, w, m) {
      NobodyHeard(st.shared, ReceiveStep(cfg, st, w, m).shared, AnswersDue(cfg, evs, w, m),
                  Said(OriginOf(st, w), r), Told(cfg, evs, w, m));
    }
  }

  // ----- there and back

  lemma {:induction false} FirstStays(cfg: Config, evs: seq<Event>, more: seq<Event>, w: Writer)
    requires FirstRegistration(cfg, evs, w).Some?
    ensures FirstRegistration(cfg, evs + more, w) == FirstRegistration(cfg, evs, w)
    decreases |more|
  {
    if more == [] {
      assert evs + more == evs;
    } else {
      assert (evs + more)[..|evs + more| - 1] == evs + more[..|more| - 1];
      FirstStays(cfg, evs, more[..|more| - 1], w);
    }
  }

  /** A message that is handed to w is among the deliveries. */
  lemma {:induction false} CopyIsSent(ds: seq<Delivery>, w: Writer, p: Payload)
    requires Copies(ds, w) > 0 && AllSay(ds, p)
    ensures Delivery(w, p) in ds
  {
    assert ds == [ds[0]] + ds[1..];
    if ds[0].to == w && ds[0].payload.Forward? {
      assert ds[0] == Delivery(w, p);
    } else {
      forall i | 0 <= i < |ds[1..]| && ds[1..][i].payload.Forward? ensures ds[1..][i].payload == p {
        assert ds[i + 1] == ds[1..][i];
      }
      CopyIsSent(ds[1..], w, p);
    }
  }

  /** An accepted message of a child is told with the date it is moved to. At any later time, a peer may
      send a message of that date to the child's node: if it is accepted and the child still owns the node,
      the child is handed it with its own date back, less 100 ms. */
  lemma TimesComeBackSent(cfg: Config, evs: seq<Event>, w: Writer, m: Message, more: seq<Event>, peer: Writer, reply: Message)
    requires cfg.adjustTimeSync && w in Run(cfg, INITIAL, evs).children && Accepted(cfg, evs, w, m)
    requires var later := evs + [Receive(w, m)] + more;
             && Accepted(cfg, later, peer, reply) && reply.forwardedCount == 0
             && peer in Run(cfg, INITIAL, later).peers
             && reply.parsed.value.destination.Some?
             && LatestRegistrant(cfg, later, reply.parsed.value.destination.value) == Some(w)
             && reply.parsed.value.timestamp == Dated(m, ShiftOf(cfg, evs, w, m)).timestamp
    ensures var st := Run(cfg, INITIAL, evs + [Receive(w, m)] + more);
            var st' := ReceiveStep(cfg, st, peer, reply);
            && st.shared.sent <= st'.shared.sent
            && Delivery(w, Forward(FromPeer, Content(reply.id, reply.parsed.value.(
                 timestamp := m.parsed.value.timestamp - 100)))) in st'.shared.sent[|st.shared.sent|..]
  {
    hide Inv, RefusalOf, ReceiveStep, AnswersDue, ShiftOf, SentMore, Told, Dated, FirstRegistration, Received;
    var evs1, later := evs + [Receive(w, m)], evs + [Receive(w, m)] + more;
    assert evs1[..|evs1| - 1] == evs;
    FirstOrThis(cfg, evs, w, m);
    FirstStays(cfg, evs1, more, w);
    Reachable(cfg, later);
    RolesApart(Run(cfg, INITIAL, later));
    OwnerIsLatestRegistrant(cfg, later, reply.parsed.value.destination.value);
    MessageHandled(cfg, later, peer, reply);
    OwnerIsOpen(cfg, later, peer, reply);
    var st := Run(cfg, INITIAL, later);
    HandedIsSent(st.shared, ReceiveStep(cfg, st, peer, reply).shared, Recipients(st, peer, reply),
                 AnswersDue(cfg, later, peer, reply), Told(cfg, later, peer, reply), w);
    TimeComesBack(cfg, evs, w, m, later, peer, reply);
  }

  lemma HandedIsSent(a: Shared, b: Shared, ws: seq<Writer>, rs: seq<Delivery>, p: Payload, w: Writer)
    requires SentMore(a, b, ws, rs, p) && w in ws
    ensures a.sent <= b.sent && Delivery(w, p) in b.sent[|a.sent|..]
  {
    assert multiset(ws)[w] > 0;
    CopyIsSent(b.sent[|a.sent|..], w, p);
  }

  lemma TimeComesBack(cfg: Config, evs: seq<Event>, w: Writer, m: Message, later: seq<Event>, peer: Writer, reply: Message)
    requires cfg.adjustTimeSync && w in Run(cfg, INITIAL, evs).children && m.parsed.Some?
    requires var st := Run(cfg, INITIAL, later); peer in st.peers && peer !in st.children
    requires reply.parsed.Some? && reply.parsed.value.destination.Some?
    requires LatestRegistrant(cfg, later, reply.parsed.value.destination.value) == Some(w)
    requires var first := FirstRegistration(cfg, evs, w);
             FirstRegistration(cfg, later, w) == if first.None? then Some(m) else first
    requires reply.parsed.value.timestamp == Dated(m, ShiftOf(cfg, evs, w, m)).timestamp
    ensures Told(cfg, later, peer, reply)
            == Forward(FromPeer, Content(reply.id, reply.parsed.value.(timestamp := m.parsed.value.timestamp - 100)))
  {
  }

  /** After an accepted message there is a first registration: that of before, or this one. */
  lemma FirstOrThis(cfg: Config, evs: seq<Event>, w: Writer, m: Message)
    requires w in Run(cfg, INITIAL, evs).children && Accepted(cfg, evs, w, m)
    ensures var first := FirstRegistration(cfg, evs, w);
            FirstRegistration(cfg, evs + [Receive(w, m)], w) == if first.None? then Some(m) else first
  {
    assert (evs + [Receive(w, m)])[..|evs|] == evs;
  }

  /** The destination of an accepted message is an open child that owns the node. */
  lemma OwnerIsOpen(cfg: Config, evs: seq<Event>, peer: Writer, m: Message)
    requires peer in Run(cfg, INITIAL, evs).peers && peer !in Run(cfg, INITIAL, evs).children && Accepted(cfg, evs, peer, m)
    requires m.parsed.value.destination.Some?
    ensures var n := m.parsed.value.destination.value;
            var r := LatestRegistrant(cfg, evs, n);
            && r.Some? && r.value in Run(cfg, INITIAL, evs).children
            && OwnerOf(Run(cfg, INITIAL, evs), n) == r
  {
    OwnerIsLatestRegistrant(cfg, evs, m.parsed.value.destination.value);
  }

  // ----- who is told what when a connection opens or closes

  /** What is said about a node. */
  function About(ds: seq<Delivery>, n: NodeId): seq<Delivery> {
    if ds == [] then []
    else (if IsFrom(ds[0].payload, n) then [ds[0]] else []) + About(ds[1..], n)
  }

  /** The registration of a node, and its New and its Unchanged status if it has any. */
  function Introduction(st: State, w: Writer, n: NodeId): seq<Delivery> {
    if n !in st.shared.registered then []
    else
      var i := st.shared.registered[n];
      [Delivery(w, Forward(FromChild, i.registration))]
      + (if i.recentNew.None? then [] else [Delivery(w, Forward(FromChild, i.recentNew.value))])
      + (if i.recentUnchanged.None? then [] else [Delivery(w, Forward(FromChild, i.recentUnchanged.value))])
  }

  lemma {:induction false} AboutAppend(a: seq<Delivery>, b: seq<Delivery>, n: NodeId)
    ensures About(a + b, n) == About(a, n) + About(b, n)
  {
    hide IsFrom;
    if a == [] {
      assert a + b == b;
    } else {
      assert (a + b)[1..] == a[1..] + b;
      AboutAppend(a[1..], b, n);
      var first := if IsFrom(a[0].payload, n) then [a[0]] else [];
      assert first + (About(a[1..], n) + About(b, n)) == first + About(a[1..], n) + About(b, n);
    }
  }

  lemma {:induction false} AllAbout(ds: seq<Delivery>, n: NodeId)
    ensures (forall i :: 0 <= i < |ds| ==> IsFrom(ds[i].payload, n)) ==> About(ds, n) == ds
    ensures (forall i :: 0 <= i < |ds| ==> !IsFrom(ds[i].payload, n)) ==> About(ds, n) == []
  {
    if ds != [] {
      AllAbout(ds[1..], n);
      assert ds == [ds[0]] + ds[1..];
    }
  }

  lemma ReplayIsAbout(st: State, w: Writer, k: NodeId, n: NodeId)
    requires k in st.shared.registered && SensorValid(st.shared.registered[k], k)
    ensures var ds := Replay(w, st.shared.registered[k]);
            && About(ds, n) == (if k == n then Introduction(st, w, n) else [])
            && forall i :: 0 <= i < |ds| ==> ds[i].to == w && IsFrom(ds[i].payload, k)
  {
    AllAbout(Replay(w, st.shared.registered[k]), n);
  }

  /** Something about a registered node. */
  predicate ToldOfSome(st: State, w: Writer, d: Delivery) {
    d.to == w && exists k :: k in st.shared.registered && IsFrom(d.payload, k)
  }

  /** A connection that subscribes is introduced to the nodes. */
  ghost predicate Introduced(st: State, w: Writer, ds: seq<Delivery>, order: seq<NodeId>) {
    && (forall n :: About(ds, n) == if n in order then Introduction(st, w, n) else [])
    && (forall i :: 0 <= i < |ds| ==> ToldOfSome(st, w, ds[i]))
  }

  lemma {:induction false} ReplayIntroduces(st: State, w: Writer, order: seq<NodeId>)
    requires Distinct(order) && forall k :: k in order ==> k in st.shared.registered && SensorValid(st.shared.registered[k], k)
    ensures Introduced(st, w, ReplayAll(w, st.shared.registered, order), order)
  {
    hide SensorValid, Introduction, About, IsFrom, Replay;
    if order == [] {
      AllAbout([], "");
      forall n ensures About([], n) == [] { AllAbout([], n); }
    } else {
      var k, more := order[0], order[1..];
      assert order == [k] + more;
      ReplayIntroduces(st, w, more);
      var a, b := Replay(w, st.shared.registered[k]), ReplayAll(w, st.shared.registered, more);
      ReplayIsAbout(st, w, k, k);
      forall n ensures About(a + b, n) == if n in order then Introduction(st, w, n) else [] {
        AboutAppend(a, b, n);
        ReplayIsAbout(st, w, k, n);
      }
    }
  }

  /** A peer or a forward-all parent that connects is told of every registered node its registration and, if
      any, its New and its Unchanged status, once each and in that order, and nothing else; by no other
      opening, and by no closing, is anybody told anything. */
  lemma JoinersAreIntroduced(cfg: Config, evs: seq<Event>, ev: Event, n: NodeId)
    requires !ev.Receive?
    ensures var st := Run(cfg, INITIAL, evs);
            var s, s' := st.shared, Step(cfg, st, ev).shared;
            && s.sent <= s'.sent
            && var ds := s'.sent[|s.sent|..];
               if ev == OpenPeer || ev == OpenParent(true) then
                 && About(ds, n) == Introduction(st, st.nextWriter, n)
                 && forall i :: 0 <= i < |ds| ==> ToldOfSome(st, st.nextWriter, ds[i])
               else ds == []
  {
    hide Introduction, About, IsFrom, Inv, ReplayAll, Introduced, CloseStep;
    var st := Run(cfg, INITIAL, evs);
    Reachable(cfg, evs);
    OrderIsValid(st);
    ReplayIntroduces(st, st.nextWriter, st.shared.order);
    NotIntroduced(st, st.nextWriter, n);
    var ds := ReplayAll(st.nextWriter, st.shared.registered, st.shared.order);
    assert (st.shared.sent + ds)[|st.shared.sent|..] == ds;
    IntroducedTo(st, st.nextWriter, ds, n);
    if ev.Close? { ClosingIsSilent(st, ev.w); }
  }

  lemma OrderIsValid(st: State)
    requires Inv(st)
    ensures Distinct(st.shared.order)
    ensures forall k :: k in st.shared.order <==> k in st.shared.registered
    ensures forall k :: k in st.shared.registered ==> SensorValid(st.shared.registered[k], k)
  {
    hide Informed, AllGrammar, Roles, SensorValid;
  }

  lemma IntroducedTo(st: State, w: Writer, ds: seq<Delivery>, n: NodeId)
    requires Introduced(st, w, ds, st.shared.order) && (n !in st.shared.order ==> Introduction(st, w, n) == [])
    ensures About(ds, n) == Introduction(st, w, n) && forall i :: 0 <= i < |ds| ==> ToldOfSome(st, w, ds[i])
  {
    hide About, Introduction, ToldOfSome;
  }

  lemma ClosingIsSilent(st: State, w: Writer)
    ensures CloseStep(st, w).shared.sent == st.shared.sent
  {
  }

  lemma NotIntroduced(st: State, w: Writer, n: NodeId)
    requires Inv(st)
    ensures n !in st.shared.order ==> Introduction(st, w, n) == []
  {
  }
}
