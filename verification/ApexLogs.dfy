/** What a connection has been sent: the log of one writer, the state of a node as a reader of that
    log sees it, and the grammar every log obeys. */
module ApexLogs {
  import opened Wrappers
  import opened ApexTypes
  import opened ApexRouting
  import opened Sequences

  // ----- the log of one writer

  function Log(sent: seq<Delivery>, w: Writer): seq<Payload> {
    if sent == [] then []
    else
      var last := sent[|sent| - 1];
      Log(sent[..|sent| - 1], w) + (if last.to == w then [last.payload] else [])
  }

  lemma {:induction false} LogAppend(a: seq<Delivery>, b: seq<Delivery>, w: Writer)
    ensures Log(a + b, w) == Log(a, w) + Log(b, w)
  {
    if b == [] {
      assert a + b == a;
    } else {
      var b0 := b[..|b| - 1];
      assert (a + b)[..|a + b| - 1] == a + b0;
      LogAppend(a, b0, w);
    }
  }

  lemma LogOne(d: Delivery, w: Writer)
    ensures Log([d], w) == if d.to == w then [d.payload] else []
  {
    assert [d][..0] == [];
  }

  /** A fan-out hands each addressee one copy. */
  lemma {:induction false} LogFanOut(ws: seq<Writer>, p: Payload, w: Writer)
    requires Distinct(ws)
    ensures Log(FanOut(ws, p), w) == if w in ws then [p] else []
  {
    if ws != [] {
      var ws0 := ws[..|ws| - 1];
      assert FanOut(ws, p)[..|ws| - 1] == FanOut(ws0, p);
      assert ws == ws0 + [ws[|ws| - 1]];
      LogFanOut(ws0, p, w);
    }
  }

  lemma {:induction false} LogOfStranger(sent: seq<Delivery>, w: Writer)
    requires forall i :: 0 <= i < |sent| ==> sent[i].to != w
    ensures Log(sent, w) == []
  {
    if sent != [] {
      LogOfStranger(sent[..|sent| - 1], w);
    }
  }

  // ----- the state of a node as seen in a log

  datatype NodeView = NodeView(registration: Content, recentNew: Option<Content>, recentUnchanged: Option<Content>)

  predicate IsFrom(p: Payload, n: NodeId) {
    p.Forward? && p.origin.FromChild? && p.content.parsed.nodeId == Some(n)
  }

  predicate IsRegistration(p: Payload, n: NodeId) {
    IsFrom(p, n) && p.content.parsed.body.Registration?
  }

  predicate IsStatus(p: Payload, n: NodeId, isUnchanged: bool) {
    IsFrom(p, n) && p.content.parsed.body.StatusReport? && p.content.parsed.body.isUnchanged == isUnchanged
  }

  function ViewStep(v: Option<NodeView>, p: Payload, n: NodeId): Option<NodeView> {
    if IsRegistration(p, n) then Some(NodeView(p.content, None, None))
    else if v.None? then None
    else if IsStatus(p, n, false) then Some(v.value.(recentNew := Some(p.content), recentUnchanged := None))
    else if IsStatus(p, n, true) then Some(v.value.(recentUnchanged := Some(p.content)))
    else v
  }

  /** The node's registration, the last New status since it and the last Unchanged since that. */
  function View(log: seq<Payload>, n: NodeId): Option<NodeView> {
    if log == [] then None else ViewStep(View(log[..|log| - 1], n), log[|log| - 1], n)
  }

  lemma ViewSnoc(log: seq<Payload>, p: Payload, n: NodeId)
    ensures View(log + [p], n) == ViewStep(View(log, n), p, n)
  {
    assert (log + [p])[..|log|] == log;
  }

  predicate ChildForward(p: Payload) {
    p.Forward? && p.origin.FromChild?
  }

  predicate Quiet(log: seq<Payload>) {
    forall i :: 0 <= i < |log| ==> !ChildForward(log[i])
  }

  lemma {:induction false} ViewQuiet(log: seq<Payload>, more: seq<Payload>, n: NodeId)
    requires Quiet(more)
    ensures View(log + more, n) == View(log, n)
  {
    if more == [] {
      assert log + more == log;
    } else {
      var more0 := more[..|more| - 1];
      assert log + more == (log + more0) + [more[|more| - 1]];
      ViewSnoc(log + more0, more[|more| - 1], n);
      ViewQuiet(log, more0, n);
    }
  }

  // ----- the grammar of a log

  predicate Resets(p: Payload, n: NodeId) {
    IsRegistration(p, n) || IsStatus(p, n, false)
  }

  ghost predicate RegisteredBefore(log: seq<Payload>, i: nat, n: NodeId) {
    exists j :: 0 <= j < i && j < |log| && IsRegistration(log[j], n)
  }

  /** The latest reset of n before i is a New status of the given system. */
  ghost predicate NewBefore(log: seq<Payload>, i: nat, n: NodeId, system: string) {
    exists j :: 0 <= j < i && j < |log| && IsStatus(log[j], n, false)
                && log[j].content.parsed.body.system == system
                && forall k :: j < k < i && k < |log| ==> !Resets(log[k], n)
  }

  /** Position i is legal: a child's message names its node; unless it is a registration, a
      registration of that node precedes it; and an Unchanged status repeats the system of the
      latest New status, with no registration of the node since. */
  ghost predicate LegalAt(log: seq<Payload>, i: nat)
    requires i < |log|
  {
    ChildForward(log[i]) ==>
      && log[i].content.parsed.nodeId.Some?
      && var n := log[i].content.parsed.nodeId.value;
      && (IsRegistration(log[i], n) || RegisteredBefore(log, i, n))
      && (IsStatus(log[i], n, true) ==> NewBefore(log, i, n, log[i].content.parsed.body.system))
  }

  ghost predicate Grammar(log: seq<Payload>) {
    forall i :: 0 <= i < |log| ==> LegalAt(log, i)
  }

  /** A reader whose view of the node is v accepts p. */
  predicate Accepts(v: Option<NodeView>, p: Payload, n: NodeId) {
    && IsFrom(p, n)
    && (p.content.parsed.body.Registration? || v.Some?)
    && (IsStatus(p, n, true) ==>
          && v.Some? && v.value.recentNew.Some?
          && v.value.recentNew.value.parsed.body == StatusReport(p.content.parsed.body.system, false))
  }

  /** What a view says is witnessed in the log. */
  lemma {:induction false} ViewWitness(log: seq<Payload>, n: NodeId)
    ensures View(log, n).Some? ==> RegisteredBefore(log, |log|, n)
    ensures View(log, n).Some? && View(log, n).value.recentNew.Some?
            && View(log, n).value.recentNew.value.parsed.body.StatusReport?
            ==> NewBefore(log, |log|, n, View(log, n).value.recentNew.value.parsed.body.system)
  {
    if log != [] {
      var log0, p := log[..|log| - 1], log[|log| - 1];
      ViewWitness(log0, n);
      var v0, v := View(log0, n), View(log, n);
      if v.Some? {
        if IsRegistration(p, n) {
        } else {
          var j :| 0 <= j < |log0| && IsRegistration(log0[j], n);
          assert IsRegistration(log[j], n);
          if v.value.recentNew.Some? && v.value.recentNew.value.parsed.body.StatusReport? {
            var system := v.value.recentNew.value.parsed.body.system;
            if IsStatus(p, n, false) {
              assert IsStatus(log[|log0|], n, false);
            } else {
              var j :| 0 <= j < |log0| && IsStatus(log0[j], n, false)
                       && log0[j].content.parsed.body.system == system
                       && forall k :: j < k < |log0| ==> !Resets(log0[k], n);
              assert IsStatus(log[j], n, false);
              assert forall k :: j < k < |log| ==> !Resets(log[k], n) by {
                forall k | j < k < |log| ensures !Resets(log[k], n) {
                  if k < |log0| { assert log[k] == log0[k]; }
                }
              }
            }
          }
        }
      }
    }
  }

  lemma LegalPrefix(log: seq<Payload>, more: seq<Payload>, i: nat)
    requires i < |log|
    ensures LegalAt(log, i) <==> LegalAt(log + more, i)
  {
    var long := log + more;
    assert forall k :: 0 <= k <= i ==> long[k] == log[k];
    if ChildForward(log[i]) && log[i].content.parsed.nodeId.Some? {
      var n := log[i].content.parsed.nodeId.value;
      assert RegisteredBefore(log, i, n) <==> RegisteredBefore(long, i, n);
      if IsStatus(log[i], n, true) {
        var system := log[i].content.parsed.body.system;
        if NewBefore(log, i, n, system) {
          var j :| 0 <= j < i && IsStatus(log[j], n, false) && log[j].content.parsed.body.system == system
                   && forall k :: j < k < i && k < |log| ==> !Resets(log[k], n);
          assert IsStatus(long[j], n, false);
          assert NewBefore(long, i, n, system);
        }
        if NewBefore(long, i, n, system) {
          var j :| 0 <= j < i && IsStatus(long[j], n, false) && long[j].content.parsed.body.system == system
                   && forall k :: j < k < i && k < |long| ==> !Resets(long[k], n);
          assert IsStatus(log[j], n, false);
          assert forall k :: j < k < i && k < |log| ==> !Resets(log[k], n) by {
            forall k | j < k < i && k < |log| ensures !Resets(log[k], n) { assert long[k] == log[k]; }
          }
          assert NewBefore(log, i, n, system);
        }
      }
    }
  }

  lemma GrammarSnoc(log: seq<Payload>, p: Payload, n: NodeId)
    requires Grammar(log) && Accepts(View(log, n), p, n)
    ensures Grammar(log + [p])
  {
    var long := log + [p];
    forall i | 0 <= i < |long| ensures LegalAt(long, i) {
      if i < |log| {
        LegalPrefix(log, [p], i);
      } else {
        ViewWitness(log, n);
        assert RegisteredBefore(log, |log|, n) ==> RegisteredBefore(long, |log|, n) by {
          if RegisteredBefore(log, |log|, n) {
            var j :| 0 <= j < |log| && IsRegistration(log[j], n);
            assert IsRegistration(long[j], n);
          }
        }
        if IsStatus(p, n, true) {
          var system := p.content.parsed.body.system;
          var j :| 0 <= j < |log| && IsStatus(log[j], n, false) && log[j].content.parsed.body.system == system
                   && forall k :: j < k < |log| ==> !Resets(log[k], n);
          assert IsStatus(long[j], n, false);
          assert forall k :: j < k < |log| ==> long[k] == log[k];
          assert NewBefore(long, |log|, n, system);
        }
      }
    }
  }

  lemma GrammarQuiet(log: seq<Payload>, more: seq<Payload>)
    requires Grammar(log) && Quiet(more)
    ensures Grammar(log + more)
  {
    forall i | 0 <= i < |log + more| ensures LegalAt(log + more, i) {
      if i < |log| { LegalPrefix(log, more, i); }
    }
  }
}
