/** What holds after every run of the server: late joiners and early ones agree, logs obey the
    grammar, nodes belong to the child that registered last, and every message is handed to exactly
    the writers that its forwarded count says. */
module ApexTheorems {
  import opened Wrappers
  import opened ApexTypes
  import opened ApexRouting
  import opened ApexLogs
  import opened ApexRuns
  import opened Sequences

  predicate IsOpen(st: State, w: Writer) {
    w in st.children || w in st.peers || w in st.parents || w in st.recorders
  }

  predicate Subscribed(st: State, w: Writer) {
    w in st.peers || (w in st.parents && st.parents[w])
  }

  /** Whenever they joined, all connected peers and forward-all parents have been told the same
      registration, New and Unchanged status of every registered node: those in the shared data. */
  lemma LateJoinersAgree(cfg: Config, evs: seq<Event>, w: Writer, n: NodeId)
    requires var st := Run(cfg, INITIAL, evs); Subscribed(st, w) && n in st.shared.registered
    ensures var s := Run(cfg, INITIAL, evs).shared;
            View(Log(s.sent, w), n) == Some(Snapshot(s.registered[n]))
  {
    Reachable(cfg, evs);
    assert Subscriber(Run(cfg, INITIAL, evs).shared, w);
  }

  /** In what any writer has ever been sent, open or closed. */
  lemma EveryLogObeysGrammar(cfg: Config, evs: seq<Event>, w: Writer)
    ensures Grammar(Log(Run(cfg, INITIAL, evs).shared.sent, w))
  {
    Reachable(cfg, evs);
  }

  // ----- ownership

  /** The child whose first registration, as node n, completes with this event. */
  function Registers(cfg: Config, st: State, ev: Event, n: NodeId): Option<Writer> {
    if ev.Receive? && ev.w in st.children && st.children[ev.w].registration.None?
       && Step(cfg, st, ev).children[ev.w].nodeId == Some(n)
    then Some(ev.w) else None
  }

  /** The last child of the run to complete a first registration as node n. */
  function LatestRegistrant(cfg: Config, evs: seq<Event>, n: NodeId): Option<Writer> {
    if evs == [] then None
    else
      var evs0 := evs[..|evs| - 1];
      var now := Registers(cfg, Run(cfg, INITIAL, evs0), evs[|evs| - 1], n);
      if now.Some? then now else LatestRegistrant(cfg, evs0, n)
  }

  function OwnerOf(st: State, n: NodeId): Option<Writer> {
    if n in st.shared.registered then Some(st.shared.registered[n].writer) else None
  }

  lemma OwnerChildReceives(cfg: Config, st: State, w: Writer, m: Message, n: NodeId)
    requires Inv(st) && w in st.children
    ensures var now := Registers(cfg, st, Receive(w, m), n);
            OwnerOf(ReceiveStep(cfg, st, w, m), n) == if now.Some? then now else OwnerOf(st, n)
  {
    hide Informed, AllGrammar, ChildMessage, Roles, Accepts, ViewStep, SensorValid;
    var s, c := st.shared, st.children[w];
    var i := ChildInner(cfg, s, w, c, m);
    ChildMessageShape(cfg, s, w, c, m);
    if i.msg.error.None? {
      ChildTable(cfg, st, w, m);
      assert TableStep(s, w, c, i);
      if c.registration.Some? {
        assert i.conn.nodeId.value in s.registered;
        assert s.registered[i.conn.nodeId.value].writer == w;
      }
    }
  }

  lemma OtherReceives(cfg: Config, st: State, w: Writer, m: Message)
    requires w !in st.children
    ensures ReceiveStep(cfg, st, w, m).shared.registered == st.shared.registered
    ensures ReceiveStep(cfg, st, w, m).children == st.children
  {
    if w in st.peers {
      QuietPeer(cfg, st.shared, w, st.peers[w], m);
    } else if w in st.parents {
      QuietParent(st.shared, w, m);
    } else if w in st.recorders {
      QuietParents(Outcome(st.shared, (), m, false), FromRecorder, false, None, w);
    }
  }

  /** One step changes the owner of n only by a first registration, or by the owner closing. */
  lemma OwnerStep(cfg: Config, st: State, ev: Event, n: NodeId)
    requires Inv(st)
    ensures var now := Registers(cfg, st, ev, n);
            OwnerOf(Step(cfg, st, ev), n) ==
            if now.Some? then now
            else if ev.Close? && OwnerOf(st, n) == Some(ev.w) then None
            else OwnerOf(st, n)
  {
    hide Informed, AllGrammar, ChildMessage, PeerMessage, ParentMessage, RecorderMessage, Inv, ReplayAll, ReceiveStep, CloseStep;
    match ev
    case Receive(w, m) =>
      if w in st.children { OwnerChildReceives(cfg, st, w, m, n); } else { OtherReceives(cfg, st, w, m); }
    case Close(w) => OwnerCloses(st, w, n);
    case _ =>
  }

  lemma OwnerCloses(st: State, w: Writer, n: NodeId)
    requires Inv(st)
    ensures OwnerOf(CloseStep(st, w), n) == if OwnerOf(st, n) == Some(w) then None else OwnerOf(st, n)
  {
    hide Informed, AllGrammar, Roles, Listed, Without;
  }

  /** Children come only from opening and go only by closing. */
  lemma ChildrenStep(cfg: Config, st: State, ev: Event, w: Writer)
    ensures st.nextWriter <= Step(cfg, st, ev).nextWriter
    ensures w < st.nextWriter ==> (w in Step(cfg, st, ev).children <==> w in st.children && ev != Close(w))
  {
  }

  lemma {:induction false} LatestIssued(cfg: Config, evs: seq<Event>, n: NodeId)
    ensures var r := LatestRegistrant(cfg, evs, n); r.Some? ==> r.value < Run(cfg, INITIAL, evs).nextWriter
  {
    if evs != [] {
      var evs0 := evs[..|evs| - 1];
      LatestIssued(cfg, evs0, n);
      Reachable(cfg, evs0);
      ChildrenStep(cfg, Run(cfg, INITIAL, evs0), evs[|evs| - 1], 0);
    }
  }

  /** A node belongs to the child that last completed a first registration as it, for as long as that
      child is open; otherwise it is not registered at all. */
  lemma {:induction false} OwnerIsLatestRegistrant(cfg: Config, evs: seq<Event>, n: NodeId)
    ensures var st, r := Run(cfg, INITIAL, evs), LatestRegistrant(cfg, evs, n);
            OwnerOf(st, n) == if r.Some? && r.value in st.children then r else None
  {
    if evs != [] {
      var evs0, ev := evs[..|evs| - 1], evs[|evs| - 1];
      var st0 := Run(cfg, INITIAL, evs0);
      OwnerIsLatestRegistrant(cfg, evs0, n);
      Reachable(cfg, evs0);
      OwnerStep(cfg, st0, ev, n);
      LatestIssued(cfg, evs0, n);
      var now, r := Registers(cfg, st0, ev, n), LatestRegistrant(cfg, evs0, n);
      if now.None? && r.Some? {
        ChildrenStep(cfg, st0, ev, r.value);
      }
    }
  }

  /** No child owns two nodes. */
  lemma OneNodeEach(cfg: Config, evs: seq<Event>, n: NodeId, k: NodeId)
    ensures var st := Run(cfg, INITIAL, evs);
            OwnerOf(st, n).Some? && OwnerOf(st, n) == OwnerOf(st, k) ==> n == k
  {
    Reachable(cfg, evs);
  }

  /** A child that registered but does not own its node. */
  predicate Hijacked(st: State, w: Writer) {
    w < st.nextWriter && (w in st.children ==> st.children[w].nodeId.Some? && !Owns(st.shared, w, st.children[w].nodeId))
  }

  lemma HijackedOwnsNothing(st: State, w: Writer, n: NodeId)
    requires Inv(st) && Hijacked(st, w)
    ensures OwnerOf(st, n) != Some(w)
  {
  }

  lemma NodeIdKept(cfg: Config, st: State, ev: Event, w: Writer)
    requires Inv(st) && w in st.children && st.children[w].nodeId.Some? && ev != Close(w)
    ensures var st' := Step(cfg, st, ev);
            w in st'.children && st'.children[w].nodeId == st.children[w].nodeId
  {
    hide Informed, AllGrammar, ChildMessage, PeerMessage, ParentMessage, RecorderMessage, Accepts, ViewStep;
    match ev
    case Receive(x, m) =>
      if x == w {
        ChildMessageShape(cfg, st.shared, w, st.children[w], m);
        if ChildInner(cfg, st.shared, w, st.children[w], m).msg.error.None? {
          ChildOtherTable(cfg, st.shared, w, st.children[w], m);
        }
      }
    case _ =>
  }

  lemma HijackedStep(cfg: Config, st: State, ev: Event, w: Writer)
    requires Inv(st) && Hijacked(st, w)
    ensures Hijacked(Step(cfg, st, ev), w)
  {
    ChildrenStep(cfg, st, ev, w);
    if w in st.children && ev != Close(w) {
      NodeIdKept(cfg, st, ev, w);
      OwnerStep(cfg, st, ev, st.children[w].nodeId.value);
    }
  }

  lemma {:induction false} HijackedRun(cfg: Config, st: State, evs: seq<Event>, w: Writer)
    requires Inv(st) && Hijacked(st, w)
    ensures Inv(Run(cfg, st, evs)) && Hijacked(Run(cfg, st, evs), w)
  {
    if evs != [] {
      var st0 := Run(cfg, st, evs[..|evs| - 1]);
      HijackedRun(cfg, st, evs[..|evs| - 1], w);
      StepKeepsInv(cfg, st0, evs[|evs| - 1]);
      HijackedStep(cfg, st0, evs[|evs| - 1], w);
    }
  }

  lemma HijackedCloses(cfg: Config, st: State, w: Writer, n: NodeId)
    requires Inv(st) && Hijacked(st, w)
    ensures OwnerOf(CloseStep(st, w), n) == OwnerOf(st, n)
  {
    HijackedOwnsNothing(st, w, n);
    OwnerStep(cfg, st, Close(w), n);
  }

  /** A hijacked child never gets a node back, nor removes one when it closes. */
  lemma HijackedForGood(cfg: Config, st: State, evs: seq<Event>, w: Writer, n: NodeId)
    requires Inv(st) && Hijacked(st, w)
    ensures OwnerOf(Run(cfg, st, evs), n) != Some(w)
    ensures OwnerOf(CloseStep(Run(cfg, st, evs), w), n) == OwnerOf(Run(cfg, st, evs), n)
  {
    HijackedRun(cfg, st, evs, w);
    HijackedOwnsNothing(Run(cfg, st, evs), w, n);
    HijackedCloses(cfg, Run(cfg, st, evs), w, n);
  }

  // ----- which messages are accepted

  predicate BelowConfidence(cfg: Config, body: Body) {
    cfg.confidenceThreshold.Some? && body.Detection? && body.confidence.Some?
    && body.confidence.value < cfg.confidenceThreshold.value
  }

  /** An Unchanged status that does not repeat the last New status that the subscribers were told. */
  predicate OutOfTurn(i: Sensor, body: Body) {
    body.StatusReport? && body.isUnchanged && SystemOf(i.recentNew) != Some(body.system)
  }

  /** In every run, a first message is accepted exactly if it is a registration with a node id; a later
      one exactly if the sender is the latest to register as the node it names, the status does not
      come out of turn, and the detection is not below the threshold. */
  lemma ChildAcceptedExactlyWhen(cfg: Config, evs: seq<Event>, w: Writer, m: Message)
    requires w in Run(cfg, INITIAL, evs).children
    ensures var st := Run(cfg, INITIAL, evs);
            Received(cfg, st, w, m).error.None? <==>
            && Delivers(m) && m.parsed.value.nodeId.Some?
            && var n, body := m.parsed.value.nodeId.value, m.parsed.value.body;
               if st.children[w].registration.None? then body.Registration?
               else && LatestRegistrant(cfg, evs, n) == Some(w)
                    && n in st.shared.registered && !OutOfTurn(st.shared.registered[n], body)
                    && !BelowConfidence(cfg, body)
  {
    var st := Run(cfg, INITIAL, evs);
    Reachable(cfg, evs);
    ChildMessageShape(cfg, st.shared, w, st.children[w], m);
    if Delivers(m) && m.parsed.value.nodeId.Some? {
      OwnerIsLatestRegistrant(cfg, evs, m.parsed.value.nodeId.value);
    }
    if st.children[w].registration.Some? && Delivers(m) {
      OtherAccepted(cfg, st, w, m);
    }
  }

  lemma OtherAccepted(cfg: Config, st: State, w: Writer, m: Message)
    requires Owners(st) && w in st.children && st.children[w].registration.Some? && Delivers(m)
    ensures ChildInner(cfg, st.shared, w, st.children[w], m).msg.error.None? <==>
            && m.parsed.value.nodeId.Some? && OwnerOf(st, m.parsed.value.nodeId.value) == Some(w)
            && !OutOfTurn(st.shared.registered[m.parsed.value.nodeId.value], m.parsed.value.body)
            && !BelowConfidence(cfg, m.parsed.value.body)
  {
    hide Listed, SensorAfter, ChildAfter, FanOut, RegistrationAck;
  }

  /** A peer's message is accepted exactly if it names the node the peer registered as, if any, its
      destination, if any, has an open owner, and a registration is allowed and names a node. */
  lemma PeerAcceptedExactlyWhen(cfg: Config, evs: seq<Event>, w: Writer, m: Message)
    requires w in Run(cfg, INITIAL, evs).peers
    ensures var st := Run(cfg, INITIAL, evs);
            Received(cfg, st, w, m).error.None? <==>
            && Delivers(m)
            && var p := m.parsed.value;
            && (st.peers[w].Some? ==> p.nodeId == st.peers[w])
            && (p.destination.Some? ==>
                  var r := LatestRegistrant(cfg, evs, p.destination.value); r.Some? && r.value in st.children)
            && (p.body.Registration? ==> cfg.allowPeerRegistration && p.nodeId.Some?)
  {
    var st := Run(cfg, INITIAL, evs);
    Reachable(cfg, evs);
    PeerReceives(cfg, st, w, m);
    PeerAccepted(cfg, st.shared, w, st.peers[w], m);
    if m.parsed.Some? && m.parsed.value.destination.Some? {
      OwnerIsLatestRegistrant(cfg, evs, m.parsed.value.destination.value);
    }
  }

  lemma PeerAccepted(cfg: Config, s: Shared, w: Writer, d: Option<NodeId>, m: Message)
    ensures PeerMessage(cfg, s, w, d, m).msg.error.None? <==>
            && Delivers(m)
            && (d.Some? ==> m.parsed.value.nodeId == d)
            && (m.parsed.value.destination.Some? ==> m.parsed.value.destination.value in s.registered)
            && (m.parsed.value.body.Registration? ==> cfg.allowPeerRegistration && m.parsed.value.nodeId.Some?)
  {
  }

  // ----- clocks

  /** The offset applied to a node's own messages and the one applied to messages for it undo each
      other, but for the delay that is allowed for a message. */
  ghost predicate ClocksSet(st: State) {
    forall n :: n in st.shared.registered ==>
      var i := st.shared.registered[n];
      i.writer in st.children && st.children[i.writer].timeOffset + i.dmmOffset == -MESSAGE_DELAY_MS
  }

  lemma ChildOffsets(cfg: Config, s: Shared, w: Writer, c: ChildState, m: Message)
    requires ChildInner(cfg, s, w, c, m).msg.error.None? && ChildInner(cfg, s, w, c, m).conn.nodeId.Some?
    ensures var o := ChildInner(cfg, s, w, c, m);
            var n := o.conn.nodeId.value;
            && n in o.shared.registered
            && if c.registration.None? then o.conn.timeOffset + o.shared.registered[n].dmmOffset == -MESSAGE_DELAY_MS
               else && o.conn.timeOffset == c.timeOffset
                    && n in s.registered && o.shared.registered[n].dmmOffset == s.registered[n].dmmOffset
  {
  }

  lemma ChildClocks(cfg: Config, st: State, w: Writer, m: Message)
    requires Inv(st) && ClocksSet(st) && w in st.children
    ensures ClocksSet(ReceiveStep(cfg, st, w, m))
  {
    hide Informed, AllGrammar, ChildMessage, Roles, Accepts, ViewStep, SensorValid;
    var s, c := st.shared, st.children[w];
    var i := ChildInner(cfg, s, w, c, m);
    ChildMessageShape(cfg, s, w, c, m);
    if i.msg.error.None? {
      ChildTable(cfg, st, w, m);
      ChildOffsets(cfg, s, w, c, m);
      assert TableStep(s, w, c, i);
    }
  }

  lemma ClocksStep(cfg: Config, st: State, ev: Event)
    requires Inv(st) && ClocksSet(st)
    ensures ClocksSet(Step(cfg, st, ev))
  {
    hide Inv, ClocksSet;
    match ev
    case Receive(w, m) =>
      if w in st.children { ChildClocks(cfg, st, w, m); } else { OtherClocks(cfg, st, w, m); }
    case Close(w) => CloseClocks(st, w);
    case _ => OpenClocks(cfg, st, ev);
  }

  lemma OtherClocks(cfg: Config, st: State, w: Writer, m: Message)
    requires ClocksSet(st) && w !in st.children
    ensures ClocksSet(ReceiveStep(cfg, st, w, m))
  {
    hide ReceiveStep;
    OtherReceives(cfg, st, w, m);
  }

  lemma CloseClocks(st: State, w: Writer)
    requires Inv(st) && ClocksSet(st)
    ensures ClocksSet(CloseStep(st, w))
  {
    hide Inv, CloseStep;
    forall n | n in CloseStep(st, w).shared.registered
      ensures var i := CloseStep(st, w).shared.registered[n];
              i.writer in CloseStep(st, w).children
              && CloseStep(st, w).children[i.writer].timeOffset + i.dmmOffset == -MESSAGE_DELAY_MS
    {
      StaysRegistered(st, w, n);
    }
  }

  lemma StaysRegistered(st: State, w: Writer, n: NodeId)
    requires Inv(st) && n in CloseStep(st, w).shared.registered
    ensures n in st.shared.registered && CloseStep(st, w).shared.registered[n] == st.shared.registered[n]
    ensures var o := st.shared.registered[n].writer;
            o in st.children && o in CloseStep(st, w).children && CloseStep(st, w).children[o] == st.children[o]
  {
    hide Informed, AllGrammar, Roles, Listed, Without;
  }

  lemma OpenClocks(cfg: Config, st: State, ev: Event)
    requires Inv(st) && ClocksSet(st) && !ev.Receive? && !ev.Close?
    ensures ClocksSet(Step(cfg, st, ev))
  {
    hide Informed, AllGrammar, Owners, Listed, ReplayAll;
    assert Step(cfg, st, ev).shared.registered == st.shared.registered;
  }

  lemma {:induction false} ClocksAgree(cfg: Config, evs: seq<Event>)
    ensures ClocksSet(Run(cfg, INITIAL, evs))
  {
    if evs != [] {
      ClocksAgree(cfg, evs[..|evs| - 1]);
      Reachable(cfg, evs[..|evs| - 1]);
      ClocksStep(cfg, Run(cfg, INITIAL, evs[..|evs| - 1]), evs[|evs| - 1]);
    }
  }

  /** In every run, a time that a node's owner stamps, shifted when it is forwarded and shifted again
      when it is sent back, is the same time less the allowed delay. */
  lemma TimesComeBack(cfg: Config, evs: seq<Event>, n: NodeId, m: Message)
    requires cfg.adjustTimeSync && m.parsed.Some? && n in Run(cfg, INITIAL, evs).shared.registered
    ensures var st := Run(cfg, INITIAL, evs);
            var i := st.shared.registered[n];
            && i.writer in st.children
            && var m1 := Shift(cfg, m, st.children[i.writer].timeOffset);
               Shift(cfg, m1, i.dmmOffset).parsed.value.timestamp == m.parsed.value.timestamp - MESSAGE_DELAY_MS
  {
    ClocksAgree(cfg, evs);
  }

  // ----- fan-out

  /** How often x is handed a message among these deliveries. */
  function Copies(ds: seq<Delivery>, x: Writer): nat {
    if ds == [] then 0
    else Copies(ds[1..], x) + (if ds[0].to == x && ds[0].payload.Forward? then 1 else 0)
  }

  function Forwards(ds: seq<Delivery>): nat {
    if ds == [] then 0 else Forwards(ds[1..]) + (if ds[0].payload.Forward? then 1 else 0)
  }

  /** The acknowledgements and error replies. */
  function Answers(ds: seq<Delivery>): seq<Delivery> {
    if ds == [] then []
    else (if ds[0].payload.Forward? then [] else [ds[0]]) + Answers(ds[1..])
  }

  predicate AllSay(ds: seq<Delivery>, p: Payload) {
    forall i :: 0 <= i < |ds| && ds[i].payload.Forward? ==> ds[i].payload == p
  }

  lemma {:induction false} CopiesAppend(a: seq<Delivery>, b: seq<Delivery>, x: Writer)
    ensures Copies(a + b, x) == Copies(a, x) + Copies(b, x)
    ensures Forwards(a + b) == Forwards(a) + Forwards(b)
  {
    if a == [] {
      assert a + b == b;
    } else {
      assert (a + b)[1..] == a[1..] + b;
      CopiesAppend(a[1..], b, x);
    }
  }

  lemma {:induction false} AnswersAppend(a: seq<Delivery>, b: seq<Delivery>)
    ensures Answers(a + b) == Answers(a) + Answers(b)
  {
    if a == [] {
      assert a + b == b;
    } else {
      assert (a + b)[1..] == a[1..] + b;
      AnswersAppend(a[1..], b);
      var first := if a[0].payload.Forward? then [] else [a[0]];
      assert first + (Answers(a[1..]) + Answers(b)) == first + Answers(a[1..]) + Answers(b);
    }
  }

  /** Deliveries that hand p, and no other message, to the writers ws once each, and answer rs. */
  ghost predicate Handed(ds: seq<Delivery>, ws: seq<Writer>, rs: seq<Delivery>, p: Payload) {
    && Forwards(ds) == |ws|
    && (forall x :: Copies(ds, x) == multiset(ws)[x])
    && Answers(ds) == rs
    && AllSay(ds, p)
  }

  lemma {:induction false} HandedFanOut(ws: seq<Writer>, p: Payload)
    requires p.Forward?
    ensures Handed(FanOut(ws, p), ws, [], p)
  {
    if ws != [] {
      assert FanOut(ws, p)[1..] == FanOut(ws[1..], p);
      assert ws == [ws[0]] + ws[1..];
      HandedFanOut(ws[1..], p);
    }
  }

  lemma HandedAppend(
    a: seq<Delivery>, b: seq<Delivery>, wa: seq<Writer>, wb: seq<Writer>, ra: seq<Delivery>, rb: seq<Delivery>, p: Payload)
    requires Handed(a, wa, ra, p) && Handed(b, wb, rb, p)
    ensures Handed(a + b, wa + wb, ra + rb, p)
  {
    CopiesAppend(a, b, 0);
    AnswersAppend(a, b);
    forall x ensures Copies(a + b, x) == multiset(wa + wb)[x] { CopiesAppend(a, b, x); }
  }

  /** What the writers were called with between two states of the shared data. */
  ghost predicate SentMore(s: Shared, s': Shared, ws: seq<Writer>, rs: seq<Delivery>, p: Payload) {
    s.sent <= s'.sent && Handed(s'.sent[|s.sent|..], ws, rs, p)
  }

  lemma SentEmit(s: Shared, s': Shared, ds: seq<Delivery>, ws: seq<Writer>, rs: seq<Delivery>, p: Payload)
    requires s'.sent == s.sent + ds && Handed(ds, ws, rs, p)
    ensures SentMore(s, s', ws, rs, p)
  {
    assert s'.sent[|s.sent|..] == ds;
  }

  lemma SentNothing(s: Shared, p: Payload)
    ensures SentMore(s, s, [], [], p)
  {
    SentEmit(s, s, [], [], [], p);
  }

  lemma SentTrans(
    a: Shared, b: Shared, c: Shared,
    wa: seq<Writer>, wb: seq<Writer>, ra: seq<Delivery>, rb: seq<Delivery>, p: Payload)
    requires SentMore(a, b, wa, ra, p) && SentMore(b, c, wb, rb, p)
    ensures SentMore(a, c, wa + wb, ra + rb, p)
  {
    var d1, d2 := b.sent[|a.sent|..], c.sent[|b.sent|..];
    assert c.sent[|a.sent|..] == d1 + d2;
    HandedAppend(d1, d2, wa, wb, ra, rb, p);
  }

  lemma HandedAnswer(d: Delivery, p: Payload)
    requires !d.payload.Forward?
    ensures Handed([d], [], [d], p)
  {
    assert [d][1..] == [];
  }

  lemma SentReplies(s: Shared, w: Writer, m: Message, node: Option<NodeId>, p: Payload)
    ensures SentMore(s, Emit(s, ErrorReplies(w, m, node)), [], ErrorReplies(w, m, node), p)
  {
    var rs := ErrorReplies(w, m, node);
    if rs != [] { HandedAnswer(rs[0], p); }
    SentEmit(s, Emit(s, rs), rs, [], rs, p);
  }

  lemma SentParents<C>(o: Outcome<C>, origin: Origin, high: bool, except: Option<Writer>, p: Payload)
    requires o.msg.parsed.Some? ==> p == Forward(origin, ContentOf(o.msg))
    ensures var ws := if Delivers(o.msg) then ParentTargets(o.shared, high, except) else [];
            var r := SendToParents(o, origin, high, except);
            && SentMore(o.shared, r.shared, ws, [], p)
            && r.msg == o.msg.(forwardedCount := o.msg.forwardedCount + |ws|)
  {
    if Delivers(o.msg) {
      var ws := ParentTargets(o.shared, high, except);
      HandedFanOut(ws, p);
      SentEmit(o.shared, SendToParents(o, origin, high, except).shared, FanOut(ws, p), ws, [], p);
    } else {
      SentNothing(o.shared, p);
    }
  }

  /** The writers a message that passes all checks is handed to, in order. */
  function Recipients(st: State, w: Writer, m: Message): seq<Writer> {
    var s := st.shared;
    var d := if m.parsed.Some? then m.parsed.value.destination else None;
    var child := if d.Some? && d.value in s.registered then [s.registered[d.value].writer] else [];
    if w in st.children then s.dmms + s.parentsAll
    else if w in st.peers then (if d.None? then s.parentsAll + s.parentsHigh else child + s.parentsAll)
    else if w in st.parents then child + s.dmms + Others(s.parentsAll, Some(w))
    else if w in st.recorders then s.parentsAll
    else []
  }

  lemma DistinctConcat(a: seq<Writer>, b: seq<Writer>)
    requires Distinct(a) && Distinct(b) && forall x :: x in a ==> x !in b
    ensures Distinct(a + b)
  {
    forall i, j | 0 <= i < j < |a + b| ensures (a + b)[i] != (a + b)[j] {
      if i < |a| && |a| <= j { assert a[i] in a && b[j - |a|] in b; }
    }
  }

  lemma DistinctOne(w: Writer)
    ensures Distinct([w]) && Distinct<Writer>([])
  {
  }

  /** The lists of the shared data, and the owners of nodes, are apart from each other. */
  lemma RolesApart(st: State)
    requires Inv(st)
    ensures var s := st.shared;
            && Distinct(s.dmms) && Distinct(s.parentsAll) && Distinct(s.parentsHigh)
            && (forall x :: x in s.dmms <==> x in st.peers)
            && (forall x :: x in s.parentsAll <==> x in st.parents && st.parents[x])
            && (forall x :: x in s.parentsHigh <==> x in st.parents && !st.parents[x])
            && (forall n :: n in s.registered ==> s.registered[n].writer in st.children)
            && st.children.Keys !! st.peers.Keys !! st.parents.Keys !! st.recorders
  {
    hide Informed, AllGrammar;
  }

  /** No writer appears twice among the recipients, and the sender does not appear at all. */
  lemma RecipientsDistinct(st: State, w: Writer, m: Message)
    requires Inv(st)
    ensures Distinct(Recipients(st, w, m)) && w !in Recipients(st, w, m)
  {
    hide Inv, Others, Distinct;
    RolesApart(st);
    var s := st.shared;
    var d := if m.parsed.Some? then m.parsed.value.destination else None;
    var child := if d.Some? && d.value in s.registered then [s.registered[d.value].writer] else [];
    if child != [] { DistinctOne(child[0]); } else { DistinctOne(0); }
    OthersDistinct(s.parentsAll, Some(w));
    forall x ensures x in Others(s.parentsAll, Some(w)) <==> x in s.parentsAll && x != w {
      OthersMember(s.parentsAll, Some(w), x);
    }
    DistinctConcat(s.dmms, s.parentsAll);
    DistinctConcat(s.parentsAll, s.parentsHigh);
    DistinctConcat(child, s.parentsAll);
    DistinctConcat(child, s.dmms);
    DistinctConcat(child + s.dmms, Others(s.parentsAll, Some(w)));
  }

  function Received(cfg: Config, st: State, w: Writer, m: Message): Message {
    if w in st.children then ChildMessage(cfg, st.shared, w, st.children[w], m).msg
    else if w in st.peers then PeerMessage(cfg, st.shared, w, st.peers[w], m).msg
    else if w in st.parents then ParentMessage(st.shared, w, m).msg
    else if w in st.recorders then RecorderMessage(st.shared, m).msg
    else m
  }

  predicate Delivers(r: Message) {
    r.error.None? && r.parsed.Some?
  }

  /** What a message says when it is handed over: its origin and its content in the end. */
  function Said(origin: Origin, r: Message): Payload {
    if r.parsed.Some? then Forward(origin, ContentOf(r)) else ErrorReply(r.id, None)
  }

  function OriginOf(st: State, w: Writer): Origin {
    if w in st.children then FromChild else if w in st.peers then FromPeer
    else if w in st.parents then FromParent else FromRecorder
  }

  lemma HandedAcks(cfg: Config, w: Writer, n: NodeId, m: Message, p: Payload)
    ensures Handed(Acks(cfg, w, n, m), [], Acks(cfg, w, n, m), p)
  {
    var acks := Acks(cfg, w, n, m);
    if acks != [] { HandedAnswer(acks[0], p); }
  }

  /** An accepted message of a child goes to the peers and the parents. */
  lemma PublishedHands(s: Shared, before: seq<Delivery>, p: Payload, after: seq<Delivery>)
    requires p.Forward? && Handed(before, [], before, p) && Handed(after, [], after, p)
    ensures Handed(before + FanOut(s.dmms, p) + after + FanOut(s.parentsAll, p), s.dmms + s.parentsAll, before + after, p)
  {
    var a := before + FanOut(s.dmms, p);
    HandedFanOut(s.dmms, p);
    HandedFanOut(s.parentsAll, p);
    HandedAppend(before, FanOut(s.dmms, p), [], s.dmms, before, [], p);
    assert [] + s.dmms == s.dmms && before + [] == before;
    HandedAppend(a, after, s.dmms, [], before, after, p);
    assert s.dmms + [] == s.dmms && before + after + [] == before + after;
    HandedAppend(a + after, FanOut(s.parentsAll, p), s.dmms, s.parentsAll, before + after, [], p);
  }

  lemma AcceptedHands(
    cfg: Config, s: Shared, w: Writer, c: ChildState, i: Outcome<ChildState>, s': Shared)
    requires AcceptedBy(cfg, s, w, c, i)
    requires s'.sent == i.shared.sent + FanOut(s.parentsAll, ForwardOf(i))
    ensures SentMore(s, s', s.dmms + s.parentsAll, Acks(cfg, w, i.conn.nodeId.value, i.msg), ForwardOf(i))
  {
    var before, after, p := Before(cfg, w, c, i), After(cfg, w, c, i), ForwardOf(i);
    var acks := Acks(cfg, w, i.conn.nodeId.value, i.msg);
    HandedAcks(cfg, w, i.conn.nodeId.value, i.msg, p);
    assert [] + acks == acks && acks + [] == acks;
    PublishedHands(s, before, p, after);
    var ds := before + FanOut(s.dmms, p) + after + FanOut(s.parentsAll, p);
    AssocFour(s.sent, before, FanOut(s.dmms, p), after, FanOut(s.parentsAll, p));
    SentEmit(s, s', ds, s.dmms + s.parentsAll, acks, p);
  }

  /** What a child is told itself: the acknowledgement of a registration, or of what went wrong. */
  function ChildAnswers(cfg: Config, w: Writer, o: Outcome<ChildState>): seq<Delivery> {
    (if Delivers(o.msg) && o.conn.nodeId.Some? then Acks(cfg, w, o.conn.nodeId.value, o.msg) else [])
    + ErrorReplies(w, o.msg, o.conn.nodeId)
  }

  lemma ChildHands(cfg: Config, s: Shared, w: Writer, c: ChildState, m: Message)
    requires m.forwardedCount == 0
    ensures var o := ChildMessage(cfg, s, w, c, m);
            var ws := if Delivers(o.msg) then s.dmms + s.parentsAll else [];
            SentMore(s, o.shared, ws, ChildAnswers(cfg, w, o), Said(FromChild, o.msg)) && o.msg.forwardedCount == |ws|
  {
    hide ChildInner, ChildMessage, Handed, SentMore;
    var i, o := ChildInner(cfg, s, w, c, m), ChildMessage(cfg, s, w, c, m);
    ChildMessageShape(cfg, s, w, c, m);
    if o.msg.error.Some? {
      SentReplies(s, w, o.msg, c.nodeId, Said(FromChild, o.msg));
      ChildErrorCount(cfg, s, w, c, m);
      assert [] + ErrorReplies(w, o.msg, c.nodeId) == ErrorReplies(w, o.msg, c.nodeId);
    } else {
      AcceptedHands(cfg, s, w, c, i, o.shared);
      ChildKeepsMessage(cfg, s, w, c, m);
      var acks := Acks(cfg, w, i.conn.nodeId.value, i.msg);
      assert acks + [] == acks;
    }
  }

  lemma ChildKeepsMessage(cfg: Config, s: Shared, w: Writer, c: ChildState, m: Message)
    ensures ChildMessage(cfg, s, w, c, m).msg.id == ChildInner(cfg, s, w, c, m).msg.id
  {
    var i := ChildInner(cfg, s, w, c, m);
    assert ChildFinish(i, w).msg.id == i.msg.id;
  }

  lemma ChildErrorCount(cfg: Config, s: Shared, w: Writer, c: ChildState, m: Message)
    requires m.forwardedCount == 0 && ChildInner(cfg, s, w, c, m).msg.error.Some?
    ensures ChildInner(cfg, s, w, c, m).msg.forwardedCount == 0
  {
  }

  function PeerTargets(s: Shared, m: Message): seq<Writer>
    requires m.parsed.Some?
  {
    var d := m.parsed.value.destination;
    if d.None? then s.parentsAll + s.parentsHigh
    else (if d.value in s.registered then [s.registered[d.value].writer] else []) + s.parentsAll
  }

  lemma PeerRoutedHands(cfg: Config, s: Shared, w: Writer, d: Option<NodeId>, m: Message)
    requires m.forwardedCount == 0 && Delivers(m)
    ensures var o := PeerRouted(cfg, s, w, d, m);
            var ws := if o.msg.error.None? then PeerTargets(s, m) else [];
            && SentMore(s, o.shared, ws, [], Said(FromPeer, o.msg))
            && o.msg.forwardedCount == |ws| && o.msg.parsed.Some?
  {
    var dest, p := m.parsed.value.destination, Said(FromPeer, PeerRouted(cfg, s, w, d, m).msg);
    OthersNone(s.parentsAll + s.parentsHigh);
    OthersNone(s.parentsAll);
    assert s.parentsAll + [] == s.parentsAll;
    SentNothing(s, p);
    if d.Some? && m.parsed.value.nodeId != d {
    } else if dest.None? {
      SentParents(Outcome(s, d, m, false), FromPeer, true, None, p);
    } else if dest.value in s.registered {
      var m1 := Shift(cfg, m, s.registered[dest.value].dmmOffset);
      var owner := [s.registered[dest.value].writer];
      var s1 := Emit(s, [Delivery(owner[0], p)]);
      assert [Delivery(owner[0], p)] == FanOut(owner, p);
      HandedFanOut(owner, p);
      SentEmit(s, s1, FanOut(owner, p), owner, [], p);
      var o := Outcome(s1, d, m1.(forwardedCount := 1), false);
      SentParents(o, FromPeer, false, None, p);
      SentTrans(s, s1, SendToParents(o, FromPeer, false, None).shared, owner, s.parentsAll, [], [], p);
    }
  }

  /** The acknowledgement that a peer's registration gets, wherever the message goes then. */
  function PeerAcks(cfg: Config, w: Writer, d: Option<NodeId>, m: Message): seq<Delivery> {
    if && Delivers(m) && m.parsed.value.body.Registration? && cfg.allowPeerRegistration
       && m.parsed.value.nodeId.Some? && (d.Some? ==> m.parsed.value.nodeId == d)
    then [Delivery(w, Ack(m.parsed.value.nodeId.value))] else []
  }

  lemma PeerInnerHands(cfg: Config, s: Shared, w: Writer, d: Option<NodeId>, m: Message)
    requires m.forwardedCount == 0
    ensures var o := PeerInner(cfg, s, w, d, m);
            var ws := if Delivers(o.msg) && m.parsed.Some? then PeerTargets(s, m) else [];
            && SentMore(s, o.shared, ws, PeerAcks(cfg, w, d, m), Said(FromPeer, o.msg))
            && o.msg.forwardedCount == |ws| && (o.msg.parsed.Some? <==> m.parsed.Some?)
  {
    hide SentMore, Handed, PeerRouted;
    var p := Said(FromPeer, PeerInner(cfg, s, w, d, m).msg);
    SentNothing(s, p);
    if Delivers(m) {
      if m.parsed.value.body.Registration? {
        var r := PeerRegistration(cfg, s, w, d, m);
        if r.msg.error.None? {
          var o := PeerRouted(cfg, r.shared, w, r.conn, r.msg);
          var ws := if o.msg.error.None? then PeerTargets(r.shared, r.msg) else [];
          var acks := PeerAcks(cfg, w, d, m);
          HandedAnswer(acks[0], p);
          SentEmit(s, r.shared, acks, [], acks, p);
          PeerRoutedHands(cfg, r.shared, w, r.conn, r.msg);
          SentTrans(s, r.shared, o.shared, [], ws, acks, [], p);
          assert [] + ws == ws && acks + [] == acks;
        }
      } else {
        PeerRoutedHands(cfg, s, w, d, m);
      }
    }
  }

  lemma PeerHands(cfg: Config, s: Shared, w: Writer, d: Option<NodeId>, m: Message)
    requires m.forwardedCount == 0
    ensures var o := PeerMessage(cfg, s, w, d, m);
            var ws := if Delivers(o.msg) && m.parsed.Some? then PeerTargets(s, m) else [];
            && SentMore(s, o.shared, ws, PeerAcks(cfg, w, d, m) + ErrorReplies(w, o.msg, o.conn), Said(FromPeer, o.msg))
            && o.msg.forwardedCount == |ws| && (o.msg.parsed.Some? <==> m.parsed.Some?)
  {
    var o := PeerInner(cfg, s, w, d, m);
    var ws := if Delivers(o.msg) && m.parsed.Some? then PeerTargets(s, m) else [];
    var rs, p := ErrorReplies(w, o.msg, o.conn), Said(FromPeer, o.msg);
    PeerInnerHands(cfg, s, w, d, m);
    SentReplies(o.shared, w, o.msg, o.conn, p);
    SentTrans(s, o.shared, Emit(o.shared, rs), ws, [], PeerAcks(cfg, w, d, m), rs, p);
    assert ws + [] == ws;
  }

  lemma ParentHands(st: State, w: Writer, m: Message)
    requires m.forwardedCount == 0 && w in st.parents && w !in st.children && w !in st.peers
    ensures var o := ParentMessage(st.shared, w, m);
            var ws := if Delivers(o.msg) then Recipients(st, w, m) else [];
            && SentMore(st.shared, o.shared, ws, ErrorReplies(w, o.msg, None), Said(FromParent, o.msg))
            && o.msg.forwardedCount == |ws|
  {
    var s, p := st.shared, Said(FromParent, m);
    SentNothing(s, p);
    if m.error.Some? {
      SentReplies(s, w, m, None, p);
    } else if m.parsed.Some? {
      var d := m.parsed.value.destination;
      var child := if d.Some? && d.value in s.registered then [s.registered[d.value].writer] else [];
      var s1 := Emit(s, FanOut(child + s.dmms, p));
      HandedFanOut(child + s.dmms, p);
      SentEmit(s, s1, FanOut(child + s.dmms, p), child + s.dmms, [], p);
      var o := Outcome(s1, (), m.(forwardedCount := |child| + |s.dmms|), false);
      SentParents(o, FromParent, false, Some(w), p);
      assert s.parentsAll + [] == s.parentsAll;
      SentTrans(s, s1, SendToParents(o, FromParent, false, Some(w)).shared,
                child + s.dmms, Others(s.parentsAll, Some(w)), [], [], p);
    }
  }

  /** What the sender of a message is told itself. */
  function AnswersTo(cfg: Config, st: State, w: Writer, m: Message): seq<Delivery> {
    if w in st.children then ChildAnswers(cfg, w, ChildMessage(cfg, st.shared, w, st.children[w], m))
    else if w in st.peers then
      var o := PeerMessage(cfg, st.shared, w, st.peers[w], m);
      PeerAcks(cfg, w, st.peers[w], m) + ErrorReplies(w, o.msg, o.conn)
    else if w in st.parents then ErrorReplies(w, ParentMessage(st.shared, w, m).msg, None)
    else []
  }

  /** For every message a connection receives in a reachable state: the forwarded count it ends with
      is the number of writers it was handed to; those are its recipients, once each, when it ends
      without error, and nobody otherwise; they are all told the same, its final content; and no
      other call of a writer is made but an acknowledgement of a registration and, exactly when the
      error is noisy, an error reply, both to the sender. A recorder is told nothing. */
  lemma FanOutConservation(cfg: Config, evs: seq<Event>, w: Writer, m: Message)
    requires m.forwardedCount == 0
    ensures var st := Run(cfg, INITIAL, evs);
            var st', r := ReceiveStep(cfg, st, w, m), Received(cfg, st, w, m);
            var ws := if Delivers(r) then Recipients(st, w, m) else [];
            && r.forwardedCount == |ws|
            && SentMore(st.shared, st'.shared, ws, AnswersTo(cfg, st, w, m), Said(OriginOf(st, w), r))
            && Distinct(ws) && w !in ws
  {
    hide Inv, ChildMessage, PeerMessage, ParentMessage, RecorderMessage, SentMore, ErrorReplies, PeerAcks;
    var st := Run(cfg, INITIAL, evs);
    Reachable(cfg, evs);
    RecipientsDistinct(st, w, m);
    SentNothing(st.shared, Said(OriginOf(st, w), m));
    if w in st.children {
      ChildHands(cfg, st.shared, w, st.children[w], m);
    } else if w in st.peers {
      PeerHands(cfg, st.shared, w, st.peers[w], m);
    } else if w in st.parents {
      ParentHands(st, w, m);
    } else if w in st.recorders {
      RecorderHands(st, m);
    }
  }

  lemma RecorderHands(st: State, m: Message)
    requires m.forwardedCount == 0
    ensures var o := RecorderMessage(st.shared, m);
            var ws := if Delivers(o.msg) then st.shared.parentsAll else [];
            SentMore(st.shared, o.shared, ws, [], Said(FromRecorder, o.msg)) && o.msg.forwardedCount == |ws|
  {
    OthersNone(st.shared.parentsAll);
    assert st.shared.parentsAll + [] == st.shared.parentsAll;
    SentParents(Outcome(st.shared, (), m, false), FromRecorder, false, None, Said(FromRecorder, m));
  }

  /** A peer's message to a node, if accepted, reaches one child: the node's owner. */
  lemma PeerReachesOwnerOnly(cfg: Config, evs: seq<Event>, w: Writer, m: Message, x: Writer)
    requires var st := Run(cfg, INITIAL, evs); w in st.peers && x in st.children
    requires m.forwardedCount == 0 && m.parsed.Some? && m.parsed.value.destination.Some?
    requires Received(cfg, Run(cfg, INITIAL, evs), w, m).error.None?
    ensures var st := Run(cfg, INITIAL, evs);
            var st' := ReceiveStep(cfg, st, w, m);
            && st.shared.sent <= st'.shared.sent
            && Copies(st'.shared.sent[|st.shared.sent|..], x)
               == if LatestRegistrant(cfg, evs, m.parsed.value.destination.value) == Some(x) then 1 else 0
  {
    var st, d := Run(cfg, INITIAL, evs), m.parsed.value.destination.value;
    var s := st.shared;
    ChildIsNoParent(cfg, evs, w, x);
    PeerHands(cfg, s, w, st.peers[w], m);
    PeerAcceptsKnown(cfg, s, w, st.peers[w], m);
    OwnerIsLatestRegistrant(cfg, evs, d);
    var owner := s.registered[d].writer;
    assert PeerTargets(s, m) == [owner] + s.parentsAll;
    CountCons(owner, s.parentsAll, x);
    PeerReceives(cfg, st, w, m);
  }

  lemma PeerReceives(cfg: Config, st: State, w: Writer, m: Message)
    requires w in st.peers && w !in st.children
    ensures ReceiveStep(cfg, st, w, m).shared == PeerMessage(cfg, st.shared, w, st.peers[w], m).shared
    ensures Received(cfg, st, w, m) == PeerMessage(cfg, st.shared, w, st.peers[w], m).msg
  {
  }

  lemma ChildIsNoParent(cfg: Config, evs: seq<Event>, w: Writer, x: Writer)
    requires var st := Run(cfg, INITIAL, evs); w in st.peers && x in st.children
    ensures var st := Run(cfg, INITIAL, evs); w !in st.children && x !in st.shared.parentsAll
  {
    Reachable(cfg, evs);
  }

  lemma CountCons(w: Writer, ws: seq<Writer>, x: Writer)
    ensures multiset([w] + ws)[x] == (if w == x then 1 else 0) + multiset(ws)[x]
  {
  }

  lemma PeerAcceptsKnown(cfg: Config, s: Shared, w: Writer, dmmId: Option<NodeId>, m: Message)
    requires m.parsed.Some? && m.parsed.value.destination.Some?
    requires PeerMessage(cfg, s, w, dmmId, m).msg.error.None?
    ensures m.parsed.value.destination.value in s.registered
  {
  }

  /** The vendored handler hands a forward-all parent its own message back, whatever it is, unless it
      has an error. */
  lemma VendoredParentEchoes(st: State, w: Writer, m: Message)
    requires Inv(st) && w in st.parents && m.parsed.Some? && m.error.None?
    ensures var o := VendoredParentMessage(st.shared, w, m);
            && st.shared.sent <= o.shared.sent
            && Copies(o.shared.sent[|st.shared.sent|..], w) == if st.parents[w] then 1 else 0
  {
    var s, p := st.shared, Forward(FromParent, ContentOf(m));
    var s1 := Emit(s, FanOut(s.dmms, p));
    HandedFanOut(s.dmms, p);
    SentEmit(s, s1, FanOut(s.dmms, p), s.dmms, [], p);
    var o := Outcome(s1, (), m.(forwardedCount := |s.dmms|), false);
    SentParents(o, FromParent, false, None, p);
    OthersNone(s.parentsAll);
    assert s.parentsAll + [] == s.parentsAll;
    SentTrans(s, s1, VendoredParentMessage(s, w, m).shared, s.dmms, s.parentsAll, [], [], p);
    assert Distinct(s.parentsAll) && w !in s.dmms;
    DistinctCount(s.parentsAll, w);
    assert multiset(s.dmms + s.parentsAll)[w] == multiset(s.dmms)[w] + multiset(s.parentsAll)[w];
  }

  /** The first connection of a server is a forward-all parent, which sends a message for nobody: the
      vendored handler returns it, the patched one does not. */
  lemma FirstParentHearsItself(cfg: Config)
    ensures var st := Run(cfg, INITIAL, [OpenParent(true)]);
            var m := Message(1, 0, Some(Parsed(Some("parent"), None, 0, OtherBody)), None, 0);
            && VendoredParentMessage(st.shared, 1, m).shared.sent == [Delivery(1, Forward(FromParent, ContentOf(m)))]
            && ParentMessage(st.shared, 1, m).shared.sent == []
  {
    var evs := [OpenParent(true)];
    assert evs[..0] == [] && Run(cfg, INITIAL, evs[..0]) == INITIAL;
    var st := Run(cfg, INITIAL, evs);
    assert st.shared.dmms == [] && st.shared.sent == [] && st.shared.parentsAll == [1];
    assert [1] + [] == [1];
    assert Others([1], None) == [1] + Others([], None) && Others([1], Some(1)) == [] + Others([], Some(1));
  }

  lemma {:induction false} DistinctCount(ws: seq<Writer>, x: Writer)
    requires Distinct(ws)
    ensures multiset(ws)[x] == if x in ws then 1 else 0
  {
    if ws != [] {
      assert ws == [ws[0]] + ws[1..];
      DistinctCount(ws[1..], x);
    }
  }
}
