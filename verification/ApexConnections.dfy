/** The connection classes of Apex. Each handler is proved to do to its objects what the function of
    the same event in ApexRouting says. */
module ApexConnections {
  import opened Wrappers
  import opened ApexTypes
  import R = ApexRouting

  class MessageRecord {
    const id: nat
    const receivedAt: int
    var parsed: Option<Parsed>
    var error: Option<Error>
    var forwardedCount: nat

    ghost function View(): Message
      reads this
    {
      Message(id, receivedAt, parsed, error, forwardedCount)
    }

    constructor (id: nat, receivedAt: int, parsed: Option<Parsed>, error: Option<Error>)
      ensures View() == Message(id, receivedAt, parsed, error, 0)
    {
      this.id, this.receivedAt, this.parsed, this.error, this.forwardedCount := id, receivedAt, parsed, error, 0;
    }

    /** Sets the error of the record. */
    method Fail(severity: Severity, reason: Reason)
      modifies this`error
      ensures View() == R.Fail(old(View()), severity, reason)
    {
      error := Some(Error(severity, reason));
    }

    method ApplyTimestampOffset(config: Config, offset: int)
      requires parsed.Some?
      modifies this`parsed
      ensures View() == R.Shift(config, old(View()), offset)
    {
      if !config.adjustTimeSync {
        return;
      }
      parsed := Some(parsed.value.(timestamp := parsed.value.timestamp + offset));
    }
  }

  class SensorInfo {
    const writer: Writer
    const dmmOffset: int
    var registration: Content
    var recentNew: Option<Content>
    var recentUnchanged: Option<Content>

    ghost function View(): R.Sensor
      reads this
    {
      R.Sensor(writer, registration, dmmOffset, recentNew, recentUnchanged)
    }

    constructor (writer: Writer, registration: Content, dmmOffset: int)
      ensures View() == R.Sensor(writer, registration, dmmOffset, None, None)
    {
      this.writer, this.registration, this.dmmOffset := writer, registration, dmmOffset;
      recentNew, recentUnchanged := None, None;
    }
  }

  class SharedData {
    const config: Config
    var registered: map<NodeId, SensorInfo>
    var order: seq<NodeId>
    var dmmWriters: seq<Writer>
    var parentHighWriters: seq<Writer>
    var parentAllWriters: seq<Writer>
    var sent: seq<Delivery>

    /** The sensor records by value. */
    ghost var sensors: map<NodeId, R.Sensor>

    /** No two nodes share a record, and `sensors` holds the values of the records. */
    ghost predicate Valid()
      reads this`registered, this`sensors, registered.Values
    {
      && registered.Keys == sensors.Keys
      && (forall n :: n in registered ==> registered[n].View() == sensors[n])
      && (forall n, k :: n in registered && k in registered && n != k ==> registered[n] != registered[k])
    }

    ghost function View(): R.Shared
      reads this
    {
      R.Shared(sensors, order, dmmWriters, parentAllWriters, parentHighWriters, sent)
    }

    constructor (config: Config)
      ensures Valid() && this.config == config
      ensures registered == map[] && View() == R.Shared(map[], [], [], [], [], [])
    {
      this.config := config;
      registered, order, dmmWriters, parentHighWriters, parentAllWriters, sent := map[], [], [], [], [], [];
      sensors := map[];
    }

    /** One call of a writer. */
    method Write(w: Writer, p: Payload)
      modifies this`sent
      ensures sent == old(sent) + [Delivery(w, p)]
    {
      sent := sent + [Delivery(w, p)];
    }

    method WriteToDmms(p: Payload)
      modifies this`sent
      ensures sent == old(sent) + R.FanOut(dmmWriters, p)
    {
      for i := 0 to |dmmWriters|
        invariant sent == old(sent) + R.FanOut(dmmWriters[..i], p)
      {
        FanOutSnoc(dmmWriters, i, p);
        Write(dmmWriters[i], p);
      }
      assert dmmWriters[..|dmmWriters|] == dmmWriters;
    }

    /** Files the record of a sensor under a node id, where it replaces any other. */
    method SetSensor(n: NodeId, info: SensorInfo)
      requires Valid() && info !in registered.Values
      modifies this`registered, this`order, this`sensors
      ensures Valid() && registered == old(registered)[n := info]
      ensures sensors == old(sensors)[n := info.View()]
      ensures order == if n in old(registered) then old(order) else old(order) + [n]
    {
      if n !in registered {
        order := order + [n];
      }
      registered := registered[n := info];
      sensors := sensors[n := info.View()];
    }

    /** After the record of one node was written to. */
    ghost method Sync(n: NodeId)
      requires n in registered && registered.Keys == sensors.Keys
      requires forall k :: k in registered && k != n ==> registered[k].View() == sensors[k]
      requires forall n, k :: n in registered && k in registered && n != k ==> registered[n] != registered[k]
      modifies this`sensors
      ensures Valid() && sensors == old(sensors)[n := registered[n].View()]
    {
      sensors := sensors[n := registered[n].View()];
    }

    method RemoveSensor(n: NodeId)
      requires Valid()
      modifies this`registered, this`order, this`sensors
      ensures Valid() && sensors == old(sensors) - {n} && order == R.Without(old(order), n)
    {
      registered := registered - {n};
      order := R.Without(order, n);
      sensors := sensors - {n};
    }

    /** Hands the record to the writers other than `except`. Without parsed content the first of them
        raises. */
    method SendToOthers(msg: MessageRecord, writers: seq<Writer>, origin: Origin, except: Option<Writer>)
      returns (escaped: bool)
      modifies this`sent, msg`forwardedCount
      ensures var ws := R.Others(writers, except);
              && escaped == (msg.parsed.None? && ws != [])
              && (msg.parsed.None? ==> sent == old(sent) && msg.forwardedCount == old(msg.forwardedCount))
              && (msg.parsed.Some? ==>
                    && sent == old(sent) + R.FanOut(ws, Forward(origin, Content(msg.id, msg.parsed.value)))
                    && msg.forwardedCount == old(msg.forwardedCount) + |ws|)
    {
      ghost var p := if msg.parsed.Some? then Forward(origin, Content(msg.id, msg.parsed.value)) else Ack("");
      for i := 0 to |writers|
        invariant msg.parsed.None? ==> R.Others(writers[..i], except) == []
        invariant sent == old(sent) + R.FanOut(R.Others(writers[..i], except), p)
        invariant msg.forwardedCount == old(msg.forwardedCount) + |R.Others(writers[..i], except)|
      {
        OthersSnoc(writers, i, except);
        if Some(writers[i]) != except {
          if msg.parsed.None? {
            OthersKept(writers, i + 1, except);
            return true;
          }
          FanOutLast(R.Others(writers[..i], except), writers[i], p);
          Write(writers[i], Forward(origin, Content(msg.id, msg.parsed.value)));
          msg.forwardedCount := msg.forwardedCount + 1;
        }
      }
      assert writers[..|writers|] == writers;
      escaped := false;
    }

    method SendToParent(msg: MessageRecord, origin: Origin, highLevel: bool, exceptWriter: Option<Writer>)
      returns (escaped: bool)
      modifies this`sent, msg`forwardedCount
      ensures var o := R.SendToParents(R.Outcome(old(View()), (), old(msg.View()), false), origin, highLevel, exceptWriter);
              View() == o.shared && msg.View() == o.msg && escaped == o.escaped
    {
      if msg.error.Some? {
        return false;
      }
      escaped := SendToOthers(msg, parentAllWriters + (if highLevel then parentHighWriters else []), origin, exceptWriter);
    }

    method SendErrorReplyIfNecessary(w: Writer, msg: MessageRecord, node: Option<NodeId>)
      modifies this`sent
      ensures sent == old(sent) + R.ErrorReplies(w, msg.View(), node)
    {
      if msg.error.Some? && msg.error.value.severity == Noisy {
        Write(w, ErrorReply(msg.id, node));
      }
    }

    /** Tells a new subscriber about the nodes that connected before it. */
    method ReplayTo(w: Writer)
      modifies this`sent
      requires Valid()
      ensures sent == old(sent) + R.ReplayAll(w, sensors, order)
    {
      for i := 0 to |order|
        invariant sent + R.ReplayAll(w, sensors, order[i..]) == old(sent) + R.ReplayAll(w, sensors, order)
      {
        ghost var before := sent;
        assert order[i..][1..] == order[i + 1..];
        if order[i] in registered {
          ReplaySensor(w, registered[order[i]]);
        }
        ReplayFirst(before, sent, w, sensors, order[i..]);
      }
    }

    method ReplaySensor(w: Writer, info: SensorInfo)
      modifies this`sent
      ensures sent == old(sent) + R.Replay(w, info.View())
    {
      Write(w, Forward(FromChild, info.registration));
      if info.recentNew.Some? {
        Write(w, Forward(FromChild, info.recentNew.value));
      }
      if info.recentUnchanged.Some? {
        Write(w, Forward(FromChild, info.recentUnchanged.value));
      }
    }
  }

  class ChildConnection {
    const shared: SharedData
    const writer: Writer
    var registration: Option<Content>
    var nodeId: Option<NodeId>
    var timeOffset: int
    var lastStatusReportSystem: Option<string>

    ghost function View(): R.ChildState
      reads this
    {
      R.ChildState(registration, nodeId, timeOffset, lastStatusReportSystem)
    }

    constructor (shared: SharedData, writer: Writer)
      ensures this.shared == shared && this.writer == writer && View() == R.NEW_CHILD
    {
      this.shared, this.writer := shared, writer;
      registration, nodeId, timeOffset, lastStatusReportSystem := None, None, 0, None;
    }

    method FilterDetection(msg: MessageRecord)
      modifies msg`error
      ensures msg.View() == if R.Filtered(shared.config, old(msg.View()))
                            then R.Fail(old(msg.View()), if shared.config.storeFiltered then Silent else Unstored, BelowThreshold)
                            else old(msg.View())
    {
      var threshold := shared.config.confidenceThreshold;
      if threshold.None? {
        return;
      }
      if msg.parsed.None? || !msg.parsed.value.body.Detection? || msg.parsed.value.body.confidence.None? {
        return;
      }
      if msg.parsed.value.body.confidence.value >= threshold.value {
        return;
      }
      msg.Fail(if shared.config.storeFiltered then Silent else Unstored, BelowThreshold);
    }

    /** The checks of HandleRegistration. */
    method RefuseRegistration(msg: MessageRecord) returns (refused: bool)
      requires registration.None?
      modifies msg`error
      ensures var o := R.ChildInner(shared.config, shared.View(), writer, View(), old(msg.View()));
              refused ==> shared.View() == o.shared && View() == o.conn && msg.View() == o.msg && !o.escaped
      ensures !refused ==>
                && msg.View() == old(msg.View()) && msg.error.None? && msg.parsed.Some?
                && msg.parsed.value.body.Registration? && msg.parsed.value.nodeId.Some?
    {
      if msg.error.Some? {
        return true;
      }
      if msg.parsed.None? || !msg.parsed.value.body.Registration? {
        msg.Fail(Silent, RegistrationExpected);
        return true;
      }
      if msg.parsed.value.nodeId.None? {
        msg.Fail(Fatal, MissingNodeId);
        return true;
      }
      refused := false;
    }

    method HandleRegistration(msg: MessageRecord)
      requires shared.Valid() && registration.None?
      modifies this`registration, this`nodeId, this`timeOffset
      modifies shared`registered, shared`order, shared`sensors, shared`sent, msg
      ensures shared.Valid() && fresh(shared.registered.Values - old(shared.registered.Values))
      ensures var o := R.ChildInner(shared.config, old(shared.View()), writer, old(View()), old(msg.View()));
              shared.View() == o.shared && View() == o.conn && msg.View() == o.msg && !o.escaped
    {
      var refused := RefuseRegistration(msg);
      if refused {
        return;
      }
      RegisterAccepted(msg);
    }

    method RegisterAccepted(msg: MessageRecord)
      requires shared.Valid() && registration.None? && msg.error.None? && msg.parsed.Some?
      requires msg.parsed.value.body.Registration? && msg.parsed.value.nodeId.Some?
      modifies this`registration, this`nodeId, this`timeOffset
      modifies shared`registered, shared`order, shared`sensors, shared`sent, msg
      ensures shared.Valid() && fresh(shared.registered.Values - old(shared.registered.Values))
      ensures var o := R.ChildInner(shared.config, old(shared.View()), writer, old(View()), old(msg.View()));
              shared.View() == o.shared && View() == o.conn && msg.View() == o.msg && !o.escaped
    {
      hide R.FanOut, R.Shift;
      AcceptRegistration(msg, msg.parsed.value.nodeId.value);
    }

    /** Tells the peers, then acknowledges. */
    method Announce(msg: MessageRecord, content: Content, n: NodeId)
      modifies shared`sent, msg`forwardedCount
      ensures shared.sent == old(shared.sent) + (R.FanOut(shared.dmmWriters, Forward(FromChild, content))
                                                 + if shared.config.sendRegistrationAck then [Delivery(writer, Ack(n))] else [])
      ensures msg.forwardedCount == |shared.dmmWriters|
    {
      shared.WriteToDmms(Forward(FromChild, content));
      msg.forwardedCount := |shared.dmmWriters|;
      if shared.config.sendRegistrationAck {
        shared.Write(writer, Ack(n));
        Assoc(old(shared.sent), R.FanOut(shared.dmmWriters, Forward(FromChild, content)), [Delivery(writer, Ack(n))]);
      }
    }

    /** A new record for the node, in place of any other. */
    method NewSensor(content: Content, n: NodeId, dmmOffset: int)
      requires shared.Valid()
      modifies shared`registered, shared`order, shared`sensors
      ensures shared.Valid() && fresh(shared.registered.Values - old(shared.registered.Values))
      ensures shared.sensors == old(shared.sensors)[n := R.Sensor(writer, content, dmmOffset, None, None)]
      ensures shared.order == if n in old(shared.sensors) then old(shared.order) else old(shared.order) + [n]
    {
      hide R.ContentOf;
      var info := new SensorInfo(writer, content, dmmOffset);
      shared.SetSensor(n, info);
    }

    method AcceptRegistration(msg: MessageRecord, n: NodeId)
      requires shared.Valid() && msg.parsed.Some? && msg.error.None?
      modifies this`registration, this`nodeId, this`timeOffset
      modifies shared`registered, shared`order, shared`sensors, shared`sent, msg`parsed, msg`forwardedCount
      ensures shared.Valid() && fresh(shared.registered.Values - old(shared.registered.Values))
      ensures
        var elapsed := msg.receivedAt - old(msg.parsed.value.timestamp);
        var m := R.Shift(shared.config, old(msg.View()), elapsed - R.MESSAGE_DELAY_MS);
        var content := R.ContentOf(m);
        && msg.View() == m.(forwardedCount := |shared.dmmWriters|)
        && View() == R.ChildState(Some(content), Some(n), elapsed - R.MESSAGE_DELAY_MS, lastStatusReportSystem)
        && shared.sensors == old(shared.sensors)[n := R.Sensor(writer, content, -elapsed, None, None)]
        && shared.order == (if n in old(shared.sensors) then old(shared.order) else old(shared.order) + [n])
        && shared.sent == old(shared.sent) + (R.FanOut(shared.dmmWriters, Forward(FromChild, content))
                                              + if shared.config.sendRegistrationAck then [Delivery(writer, Ack(n))] else [])
    {
      hide R.FanOut;
      var elapsed := msg.receivedAt - msg.parsed.value.timestamp;
      timeOffset := elapsed - R.MESSAGE_DELAY_MS;
      msg.ApplyTimestampOffset(shared.config, timeOffset);
      var content := Content(msg.id, msg.parsed.value);
      nodeId := Some(n);
      registration := Some(content);
      NewSensor(content, n, -elapsed);
      Announce(msg, content, n);
    }

    /** The part of HandleOther about status reports. */
    method HandleStatusReport(msg: MessageRecord, info: SensorInfo)
      requires msg.parsed.Some? && msg.error.None? && msg.parsed.value.body.StatusReport?
      modifies this`lastStatusReportSystem, info`recentNew, info`recentUnchanged, msg`error
      ensures
        var content, fault := Content(msg.id, msg.parsed.value), R.StatusFault(old(View()), msg.parsed.value.body);
        if fault.Some? then
          && msg.View() == R.Fail(old(msg.View()), Noisy, fault.value)
          && View() == old(View()) && info.View() == old(info.View())
        else
          && msg.View() == old(msg.View())
          && View() == R.ChildAfter(old(View()), content)
          && info.View() == R.SensorAfter(old(info.View()), content)
    {
      var system, isUnchanged := msg.parsed.value.body.system, msg.parsed.value.body.isUnchanged;
      if isUnchanged {
        if lastStatusReportSystem.None? {
          msg.Fail(Noisy, UnchangedBeforeNew);
          return;
        } else if lastStatusReportSystem.value != system {
          msg.Fail(Noisy, UnchangedOtherSystem);
          return;
        }
      } else {
        lastStatusReportSystem := Some(system);
      }
      if isUnchanged {
        info.recentUnchanged := Some(Content(msg.id, msg.parsed.value));
      } else {
        info.recentNew := Some(Content(msg.id, msg.parsed.value));
        info.recentUnchanged := None;
      }
    }

    /** The part of HandleOther about registrations. */
    method Reregister(msg: MessageRecord, info: SensorInfo, n: NodeId)
      requires msg.parsed.Some? && msg.parsed.value.body.Registration?
      modifies this`registration, this`lastStatusReportSystem
      modifies info`registration, info`recentNew, info`recentUnchanged, shared`sent
      ensures var content := Content(msg.id, msg.parsed.value);
              && View() == R.ChildAfter(old(View()), content)
              && info.View() == R.SensorAfter(old(info.View()), content)
              && shared.sent == old(shared.sent) + R.RegistrationAck(shared.config, writer, n, msg.parsed.value.body)
    {
      registration := Some(Content(msg.id, msg.parsed.value));
      lastStatusReportSystem := None;
      info.registration := Content(msg.id, msg.parsed.value);
      info.recentNew := None;
      info.recentUnchanged := None;
      if shared.config.sendRegistrationAck {
        shared.Write(writer, Ack(n));
      }
    }

    /** What the sender and its node remember of a message, or why it is refused. */
    method Remember(msg: MessageRecord, info: SensorInfo, n: NodeId)
      requires msg.parsed.Some? && msg.error.None?
      modifies this`registration, this`lastStatusReportSystem
      modifies info`registration, info`recentNew, info`recentUnchanged, shared`sent, msg`error
      ensures
        var m, body := old(msg.View()), old(msg.parsed.value.body);
        var fault := R.StatusFault(old(View()), body);
        if fault.Some? || R.Filtered(shared.config, m) then
          && View() == old(View()) && info.View() == old(info.View()) && shared.sent == old(shared.sent)
          && msg.View() == if fault.Some? then R.Fail(m, Noisy, fault.value)
                           else R.Fail(m, if shared.config.storeFiltered then Silent else Unstored, BelowThreshold)
        else
          && msg.View() == m
          && View() == R.ChildAfter(old(View()), R.ContentOf(m))
          && info.View() == R.SensorAfter(old(info.View()), R.ContentOf(m))
          && shared.sent == old(shared.sent) + R.RegistrationAck(shared.config, writer, n, body)
    {
      if msg.parsed.value.body.Registration? {
        Reregister(msg, info, n);
      }
      if msg.parsed.value.body.StatusReport? {
        HandleStatusReport(msg, info);
        if msg.error.Some? {
          return;
        }
      }
      FilterDetection(msg);
    }

    method HandleOther(msg: MessageRecord)
      requires shared.Valid() && registration.Some?
      modifies this`registration, this`lastStatusReportSystem
      modifies shared`sent, shared`sensors, shared.registered.Values, msg
      ensures shared.Valid() && shared.registered == old(shared.registered)
      ensures var o := R.ChildInner(shared.config, old(shared.View()), writer, old(View()), old(msg.View()));
              shared.View() == o.shared && View() == o.conn && msg.View() == o.msg && !o.escaped
    {
      hide R.ChildAccepted;
      if msg.error.Some? {
        return;
      }
      if msg.parsed.None? {
        msg.Fail(Fatal, HandlerException);
        return;
      }
      if msg.parsed.value.nodeId != nodeId {
        msg.Fail(Noisy, WrongNodeId);
        return;
      }
      if nodeId.None? || nodeId.value !in shared.registered || shared.registered[nodeId.value].writer != writer {
        msg.Fail(Silent, Hijacked);
        return;
      }
      Accept(msg, nodeId.value);
    }

    /** Remember, in the record the shared data hold for node n. */
    method File(msg: MessageRecord, n: NodeId)
      requires shared.Valid() && n in shared.registered
      requires msg.parsed.Some? && msg.error.None?
      modifies this`registration, this`lastStatusReportSystem
      modifies shared`sent, shared`sensors, shared.registered[n], msg`error
      ensures shared.Valid()
      ensures var o := R.ChildFiled(shared.config, old(shared.View()), writer, old(View()), old(msg.View()), n);
              shared.View() == o.shared && View() == o.conn && msg.View() == o.msg && !o.escaped
    {
      hide R.StatusFault, R.Filtered, R.SensorAfter, R.ChildAfter, R.RegistrationAck;
      var info := shared.registered[n];
      ghost var m := msg.View();
      assert info.View() == shared.sensors[n];
      Remember(msg, info, n);
      shared.Sync(n);
      if msg.error.Some? {
        assert shared.sensors == old(shared.sensors);
      }
    }

    /** The rest of HandleOther, once the sender is known to own the node. */
    method Accept(msg: MessageRecord, n: NodeId)
      requires shared.Valid() && n in shared.registered
      requires msg.parsed.Some? && msg.error.None?
      modifies this`registration, this`lastStatusReportSystem
      modifies shared`sent, shared`sensors, shared.registered[n], msg
      ensures shared.Valid()
      ensures var o := R.ChildAccepted(
                         shared.config, old(shared.View()), writer, old(View()),
                         R.Shift(shared.config, old(msg.View()), timeOffset), n);
              shared.View() == o.shared && View() == o.conn && msg.View() == o.msg && !o.escaped
    {
      hide R.ChildFiled, R.FanOut;
      msg.ApplyTimestampOffset(shared.config, timeOffset);
      File(msg, n);
      if msg.error.Some? {
        return;
      }
      Publish(msg);
    }

    /** Hands the message to the peers. */
    method Publish(msg: MessageRecord)
      requires msg.parsed.Some? && msg.error.None?
      modifies shared`sent, msg`forwardedCount
      ensures var o := R.SendToDmms(R.Outcome(old(shared.View()), View(), old(msg.View()), false));
              shared.View() == o.shared && View() == o.conn && msg.View() == o.msg && !o.escaped
    {
      shared.WriteToDmms(Forward(FromChild, Content(msg.id, msg.parsed.value)));
      msg.forwardedCount := |shared.dmmWriters|;
    }

    method HandleInner(msg: MessageRecord)
      requires shared.Valid()
      modifies this, shared`registered, shared`order, shared`sensors, shared`sent, shared.registered.Values, msg
      ensures shared.Valid() && fresh(shared.registered.Values - old(shared.registered.Values))
      ensures var o := R.ChildInner(shared.config, old(shared.View()), writer, old(View()), old(msg.View()));
              shared.View() == o.shared && View() == o.conn && msg.View() == o.msg && !o.escaped
    {
      if registration.None? {
        HandleRegistration(msg);
      } else {
        HandleOther(msg);
      }
    }

    /** What HandleMessage does after either inner handler. */
    method Finish(msg: MessageRecord)
      modifies shared`sent, msg`forwardedCount, msg`error
      ensures var o := R.ChildFinish(R.Outcome(old(shared.View()), View(), old(msg.View()), false), writer);
              shared.View() == o.shared && msg.View() == o.msg && View() == o.conn
    {
      var escaped := shared.SendToParent(msg, FromChild, false, None);
      if escaped {
        msg.Fail(Fatal, HandlerException);
      }
      shared.SendErrorReplyIfNecessary(writer, msg, nodeId);
    }

    method HandleMessage(msg: MessageRecord)
      requires shared.Valid()
      modifies this, shared`registered, shared`order, shared`sensors, shared`sent, shared.registered.Values, msg
      ensures shared.Valid() && fresh(shared.registered.Values - old(shared.registered.Values))
      ensures var o := R.ChildMessage(shared.config, old(shared.View()), writer, old(View()), old(msg.View()));
              shared.View() == o.shared && View() == o.conn && msg.View() == o.msg
    {
      hide R.ChildInner, R.ChildFinish;
      HandleInner(msg);
      Finish(msg);
    }

    method HandleClosed()
      requires shared.Valid()
      modifies shared`registered, shared`order, shared`sensors
      ensures shared.Valid()
      ensures shared.View() == R.ChildClosed(old(shared.View()), writer, View())
    {
      if nodeId.Some? && nodeId.value in shared.registered && shared.registered[nodeId.value].writer == writer {
        shared.RemoveSensor(nodeId.value);
      }
    }
  }

  class PeerConnection {
    const shared: SharedData
    const writer: Writer
    var dmmId: Option<NodeId>

    constructor (shared: SharedData, writer: Writer)
      requires shared.Valid()
      modifies shared`dmmWriters, shared`sent
      ensures this.shared == shared && this.writer == writer && dmmId == None
      ensures shared.Valid() && shared.View() == R.PeerOpened(old(shared.View()), writer)
    {
      this.shared, this.writer, dmmId := shared, writer, None;
      new;
      shared.dmmWriters := shared.dmmWriters + [writer];
      shared.ReplayTo(writer);
    }

    method HandleRegistration(msg: MessageRecord)
      requires msg.parsed.Some? && msg.error.None?
      modifies this`dmmId, shared`sent, msg`error
      ensures var o := R.PeerRegistration(shared.config, old(shared.View()), writer, old(dmmId), old(msg.View()));
              shared.View() == o.shared && dmmId == o.conn && msg.View() == o.msg
    {
      if !shared.config.allowPeerRegistration {
        msg.Fail(Noisy, PeerMayNotRegister);
        return;
      }
      if msg.parsed.value.nodeId.None? {
        msg.Fail(Fatal, MissingNodeId);
        return;
      }
      if dmmId.Some? && msg.parsed.value.nodeId != dmmId {
        msg.Fail(Fatal, InconsistentPeerId);
        return;
      }
      dmmId := msg.parsed.value.nodeId;
      shared.Write(writer, Ack(dmmId.value));
    }

    method Route(msg: MessageRecord) returns (escaped: bool)
      requires shared.Valid() && msg.parsed.Some? && msg.error.None?
      modifies shared`sent, msg
      ensures var o := R.PeerRouted(shared.config, old(shared.View()), writer, dmmId, old(msg.View()));
              shared.View() == o.shared && dmmId == o.conn && msg.View() == o.msg && escaped == o.escaped == false
    {
      if dmmId.Some? && msg.parsed.value.nodeId != dmmId {
        msg.Fail(Noisy, WrongNodeId);
        return false;
      }
      var d := msg.parsed.value.destination;
      if d.Some? {
        if d.value !in shared.registered {
          msg.Fail(Noisy, UnknownDestination);
          return false;
        }
        var node := shared.registered[d.value];
        msg.ApplyTimestampOffset(shared.config, node.dmmOffset);
        shared.Write(node.writer, Forward(FromPeer, Content(msg.id, msg.parsed.value)));
        msg.forwardedCount := 1;
      }
      escaped := shared.SendToParent(msg, FromPeer, d.None?, None);
    }

    method HandleMessageInner(msg: MessageRecord) returns (escaped: bool)
      requires shared.Valid()
      modifies this`dmmId, shared`sent, msg
      ensures var m := old(msg.View());
              if m.error.None? && m.parsed.None? then
                escaped && shared.View() == old(shared.View()) && dmmId == old(dmmId) && msg.View() == m
              else
                var o := R.PeerInner(shared.config, old(shared.View()), writer, old(dmmId), m);
                shared.View() == o.shared && dmmId == o.conn && msg.View() == o.msg && escaped == o.escaped == false
    {
      if msg.error.Some? {
        return false;
      }
      if msg.parsed.None? {
        return true;
      }
      if msg.parsed.value.body.Registration? {
        HandleRegistration(msg);
        if msg.error.Some? {
          return false;
        }
      }
      escaped := Route(msg);
    }

    method HandleMessage(msg: MessageRecord)
      requires shared.Valid()
      modifies this`dmmId, shared`sent, msg
      ensures var o := R.PeerMessage(shared.config, old(shared.View()), writer, old(dmmId), old(msg.View()));
              shared.View() == o.shared && dmmId == o.conn && msg.View() == o.msg
    {
      hide R.PeerRouted, R.PeerRegistration, R.ErrorReplies;
      var escaped := HandleMessageInner(msg);
      if escaped {
        msg.Fail(Fatal, HandlerException);
      }
      shared.SendErrorReplyIfNecessary(writer, msg, dmmId);
    }

    method HandleClosed()
      modifies shared`dmmWriters
      ensures shared.View() == R.PeerClosed(old(shared.View()), writer)
    {
      shared.dmmWriters := R.Without(shared.dmmWriters, writer);
    }
  }

  class ParentConnection {
    const shared: SharedData
    const writer: Writer
    const forwardAll: bool

    constructor (shared: SharedData, writer: Writer, forwardAll: bool)
      requires shared.Valid()
      modifies shared`parentAllWriters, shared`parentHighWriters, shared`sent
      ensures this.shared == shared && this.writer == writer && this.forwardAll == forwardAll
      ensures shared.Valid() && shared.View() == R.ParentOpened(old(shared.View()), writer, forwardAll)
    {
      this.shared, this.writer, this.forwardAll := shared, writer, forwardAll;
      new;
      if forwardAll {
        shared.parentAllWriters := shared.parentAllWriters + [writer];
        shared.ReplayTo(writer);
      } else {
        shared.parentHighWriters := shared.parentHighWriters + [writer];
      }
    }

    method HandleMessage(msg: MessageRecord) returns (escaped: bool)
      requires shared.Valid()
      modifies shared`sent, msg`forwardedCount
      ensures var o := R.ParentMessage(old(shared.View()), writer, old(msg.View()));
              shared.View() == o.shared && msg.View() == o.msg && escaped == o.escaped
    {
      hide R.Others, R.ErrorReplies;
      if msg.error.None? {
        msg.forwardedCount := 0;
        if msg.parsed.None? {
          return true;
        }
        var payload := Forward(FromParent, Content(msg.id, msg.parsed.value));
        var d := msg.parsed.value.destination;
        ghost var child := if d.Some? && d.value in shared.registered then [shared.registered[d.value].writer] else [];
        if d.Some? && d.value in shared.registered {
          shared.Write(shared.registered[d.value].writer, payload);
          msg.forwardedCount := msg.forwardedCount + 1;
        }
        shared.WriteToDmms(payload);
        FanOutConcat(child, shared.dmmWriters, payload);
        msg.forwardedCount := msg.forwardedCount + |shared.dmmWriters|;
        assert shared.sent == old(shared.sent) + R.FanOut(child + shared.dmmWriters, payload);
        escaped := shared.SendToParent(msg, FromParent, false, Some(writer));
        return;
      }
      shared.SendErrorReplyIfNecessary(writer, msg, None);
      escaped := false;
    }

    method HandleClosed()
      modifies shared`parentAllWriters, shared`parentHighWriters
      ensures shared.View() == R.ParentClosed(old(shared.View()), writer, forwardAll)
    {
      if forwardAll {
        shared.parentAllWriters := R.Without(shared.parentAllWriters, writer);
      } else {
        shared.parentHighWriters := R.Without(shared.parentHighWriters, writer);
      }
    }
  }

  class RecorderConnection {
    const shared: SharedData

    constructor (shared: SharedData)
      ensures this.shared == shared
    {
      this.shared := shared;
    }

    method HandleMessage(msg: MessageRecord) returns (escaped: bool)
      modifies shared`sent, msg`forwardedCount
      ensures var o := R.RecorderMessage(old(shared.View()), old(msg.View()));
              shared.View() == o.shared && msg.View() == o.msg && escaped == o.escaped
    {
      escaped := shared.SendToParent(msg, FromRecorder, false, None);
    }
  }

  lemma FanOutConcat(a: seq<Writer>, b: seq<Writer>, p: Payload)
    ensures R.FanOut(a + b, p) == R.FanOut(a, p) + R.FanOut(b, p)
  {
  }

  lemma Assoc(a: seq<Delivery>, b: seq<Delivery>, c: seq<Delivery>)
    ensures a + b + c == a + (b + c)
  {
  }

  lemma ReplayFirst(before: seq<Delivery>, after: seq<Delivery>, w: Writer, sensors: map<NodeId, R.Sensor>, order: seq<NodeId>)
    requires order != []
    requires after == before + (if order[0] in sensors then R.Replay(w, sensors[order[0]]) else [])
    ensures after + R.ReplayAll(w, sensors, order[1..]) == before + R.ReplayAll(w, sensors, order)
  {
    var first := if order[0] in sensors then R.Replay(w, sensors[order[0]]) else [];
    Assoc(before, first, R.ReplayAll(w, sensors, order[1..]));
  }

  lemma FanOutLast(ws: seq<Writer>, w: Writer, p: Payload)
    ensures R.FanOut(ws + [w], p) == R.FanOut(ws, p) + [Delivery(w, p)]
  {
  }

  lemma FanOutSnoc(ws: seq<Writer>, i: nat, p: Payload)
    requires i < |ws|
    ensures R.FanOut(ws[..i + 1], p) == R.FanOut(ws[..i], p) + [Delivery(ws[i], p)]
  {
  }

  lemma {:induction false} OthersSnoc(ws: seq<Writer>, i: nat, except: Option<Writer>)
    requires i < |ws|
    ensures R.Others(ws[..i + 1], except)
            == R.Others(ws[..i], except) + (if Some(ws[i]) == except then [] else [ws[i]])
  {
    if i > 0 {
      OthersSnoc(ws[1..], i - 1, except);
      assert ws[..i + 1][1..] == ws[1..][..i] && ws[..i][1..] == ws[1..][..i - 1];
    }
  }

  lemma {:induction false} OthersKept(ws: seq<Writer>, i: nat, except: Option<Writer>)
    requires i <= |ws| && R.Others(ws[..i], except) != []
    ensures R.Others(ws, except) != []
    decreases |ws| - i
  {
    if i < |ws| {
      OthersSnoc(ws, i, except);
      OthersKept(ws, i + 1, except);
    } else {
      assert ws[..i] == ws;
    }
  }
}
