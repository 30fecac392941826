/** The buffered writer: messages are buffered without waiting while another task hands the buffer to
    the stream. The two tasks interleave at the awaits of the sending task. */
module BufferedSending {
  import opened Wrappers
  import opened Framing

  /** Where the sending task stands between two awaits. */
  datatype Task =
    | Runnable
    | Parked
    | Sending(block: Bytes)
    | Raised

  /** The writer as a value; `sent` is what the stream has taken, `blocks` the blocks handed to it.
      After an overflow the buffer is None. */
  datatype Writer = Writer(maxData: nat, buffered: Option<Bytes>, task: Task, sent: Bytes, blocks: seq<Bytes>)

  datatype Event =
    | Write(message: Bytes)
    | Resume
    | SendDone

  function New(maxData: nat): Writer {
    Writer(maxData, Some([]), Runnable, [], [])
  }

  function Wake(task: Task): Task {
    if task == Parked then Runnable else task
  }

  function Step(w: Writer, ev: Event): Writer {
    match ev
    case Write(message) =>
      if w.buffered.None? then w
      else
        var data := w.buffered.value + message;
        w.(buffered := if |data| > w.maxData then None else Some(data), task := Wake(w.task))
    case Resume =>
      if w.task != Runnable then w
      else if w.buffered.None? then w.(task := Raised)
      else if w.buffered.value == [] then w.(task := Parked)
      else w.(task := Sending(w.buffered.value), buffered := Some([]), blocks := w.blocks + [w.buffered.value])
    case SendDone =>
      if w.task.Sending? then w.(task := Runnable, sent := w.sent + w.task.block) else w
  }

  /** The class, with the await points of `perform_writes` as separate methods. */
  class BufferedWriter {
    const maxData: nat
    var bufferedBytes: Option<Bytes>
    var exception: bool
    var task: Task
    var sent: Bytes
    var blocks: seq<Bytes>

    ghost predicate Valid()
      reads this
    {
      exception <==> bufferedBytes.None?
    }

    ghost function View(): Writer
      reads this
    {
      Writer(maxData, bufferedBytes, task, sent, blocks)
    }

    constructor (maxData: nat)
      ensures Valid() && View() == New(maxData)
    {
      this.maxData := maxData;
      bufferedBytes, exception, task, sent, blocks := Some([]), false, Runnable, [], [];
    }

    method WriteNowait(message: Bytes)
      requires Valid()
      modifies this`bufferedBytes, this`exception, this`task
      ensures Valid() && View() == Step(old(View()), Write(message))
    {
      if exception {
        return;
      }
      bufferedBytes := Some(bufferedBytes.value + message);
      if |bufferedBytes.value| > maxData {
        exception := true;
        bufferedBytes := None;
      }
      if task == Parked {
        task := Runnable;
      }
    }

    /** The sending task runs from one await to the next. */
    method PerformWrites()
      requires Valid() && task == Runnable
      modifies this`bufferedBytes, this`task, this`blocks
      ensures Valid() && View() == Step(old(View()), Resume)
    {
      if !exception && |bufferedBytes.value| == 0 {
        task := Parked;
        return;
      }
      if exception {
        task := Raised;
        return;
      }
      var messageData := bufferedBytes.value;
      bufferedBytes := Some([]);
      blocks := blocks + [messageData];
      task := Sending(messageData);
    }

    method SendAllReturns()
      requires Valid() && task.Sending?
      modifies this`task, this`sent
      ensures Valid() && View() == Step(old(View()), SendDone)
    {
      sent := sent + task.block;
      task := Runnable;
    }
  }

  // ----- every interleaving

  function Run(maxData: nat, evs: seq<Event>): Writer {
    if evs == [] then New(maxData) else Step(Run(maxData, evs[..|evs| - 1]), evs[|evs| - 1])
  }

  /** The messages written so far, in order. */
  function Written(evs: seq<Event>): seq<Bytes> {
    if evs == [] then []
    else
      var before, ev := Written(evs[..|evs| - 1]), evs[|evs| - 1];
      if ev.Write? then before + [ev.message] else before
  }

  function InFlight(w: Writer): Bytes {
    if w.task.Sending? then w.task.block else []
  }

  predicate IsRun(block: Bytes, messages: seq<Bytes>, from: nat, to: nat) {
    from <= to <= |messages| && block == Flatten(messages[from..to])
  }

  /** Each block is a run of whole messages, and the runs follow each other. */
  ghost predicate Cut(blocks: seq<Bytes>, messages: seq<Bytes>, cuts: seq<nat>) {
    && |cuts| == |blocks| + 1 && cuts[0] == 0 && cuts[|cuts| - 1] <= |messages|
    && forall k :: 0 <= k < |blocks| ==> IsRun(blocks[k], messages, cuts[k], cuts[k + 1])
  }

  /** What has been handed to the stream is all messages up to some point, in blocks of whole
      messages; what is buffered is all messages since. */
  ghost predicate Splits(w: Writer, messages: seq<Bytes>, cuts: seq<nat>) {
    && Cut(w.blocks, messages, cuts)
    && w.sent + InFlight(w) == Flatten(messages[..cuts[|cuts| - 1]])
    && (w.buffered.Some? ==> w.buffered.value == Flatten(messages[cuts[|cuts| - 1]..]))
  }

  ghost predicate Inv(w: Writer) {
    && (w.buffered.Some? ==> |w.buffered.value| <= w.maxData)
    && (w.task == Raised ==> w.buffered.None?)
    && (w.task == Parked ==> w.buffered == Some([]))
    && (w.task.Sending? ==> w.task.block != [] && w.blocks != [] && w.blocks[|w.blocks| - 1] == w.task.block)
    && (forall k :: 0 <= k < |w.blocks| ==> |w.blocks[k]| <= w.maxData && w.blocks[k] != [])
  }

  /** In every interleaving the buffer is within its limit, and the sending task is parked only when
      there is nothing to send and no exception to raise. */
  lemma {:induction false} RunKeepsInv(maxData: nat, evs: seq<Event>)
    ensures Inv(Run(maxData, evs)) && Run(maxData, evs).maxData == maxData
  {
    if evs != [] { RunKeepsInv(maxData, evs[..|evs| - 1]); }
  }

  lemma {:induction false} FlattenAppend(a: seq<Bytes>, b: seq<Bytes>)
    ensures Flatten(a + b) == Flatten(a) + Flatten(b)
  {
    if a == [] {
      assert a + b == b;
    } else {
      assert (a + b)[1..] == a[1..] + b;
      FlattenAppend(a[1..], b);
    }
  }

  lemma CutMore(blocks: seq<Bytes>, messages: seq<Bytes>, cuts: seq<nat>, m: Bytes)
    requires Cut(blocks, messages, cuts)
    ensures Cut(blocks, messages + [m], cuts)
  {
    forall k | 0 <= k < |blocks| ensures IsRun(blocks[k], messages + [m], cuts[k], cuts[k + 1]) {
      assert IsRun(blocks[k], messages, cuts[k], cuts[k + 1]);
      assert (messages + [m])[cuts[k]..cuts[k + 1]] == messages[cuts[k]..cuts[k + 1]];
    }
  }

  lemma CutAgain(blocks: seq<Bytes>, messages: seq<Bytes>, cuts: seq<nat>)
    requires Cut(blocks, messages, cuts)
    ensures Cut(blocks + [Flatten(messages[cuts[|cuts| - 1]..])], messages, cuts + [|messages|])
  {
    var last := cuts[|cuts| - 1];
    assert messages[last..|messages|] == messages[last..];
    var blocks', cuts' := blocks + [Flatten(messages[last..])], cuts + [|messages|];
    forall k | 0 <= k < |blocks'| ensures IsRun(blocks'[k], messages, cuts'[k], cuts'[k + 1]) {
      if k < |blocks| { assert IsRun(blocks[k], messages, cuts[k], cuts[k + 1]); }
    }
  }

  lemma FlattenSplit(messages: seq<Bytes>, c: nat)
    requires c <= |messages|
    ensures Flatten(messages[..c]) + Flatten(messages[c..]) == Flatten(messages)
  {
    assert messages == messages[..c] + messages[c..];
    FlattenAppend(messages[..c], messages[c..]);
  }

  lemma SplitsWrite(w: Writer, messages: seq<Bytes>, cuts: seq<nat>, m: Bytes)
    requires Splits(w, messages, cuts)
    ensures Splits(Step(w, Write(m)), messages + [m], cuts)
  {
    var c := cuts[|cuts| - 1];
    assert (messages + [m])[..c] == messages[..c] && (messages + [m])[c..] == messages[c..] + [m];
    FlattenSnoc(messages[c..], m);
    CutMore(w.blocks, messages, cuts, m);
  }

  lemma SplitsResume(w: Writer, messages: seq<Bytes>, cuts: seq<nat>) returns (cuts': seq<nat>)
    requires Splits(w, messages, cuts)
    ensures Splits(Step(w, Resume), messages, cuts')
  {
    cuts' := cuts;
    if w.task == Runnable && w.buffered.Some? && w.buffered.value != [] {
      cuts' := cuts + [|messages|];
      CutAgain(w.blocks, messages, cuts);
      FlattenSplit(messages, cuts[|cuts| - 1]);
      assert messages[..|messages|] == messages && messages[|messages|..] == [];
      assert w.sent + [] == w.sent;
    }
  }

  lemma SplitsDone(w: Writer, messages: seq<Bytes>, cuts: seq<nat>)
    requires Splits(w, messages, cuts)
    ensures Splits(Step(w, SendDone), messages, cuts)
  {
    assert w.sent + InFlight(w) + [] == w.sent + InFlight(w);
  }

  /** In every interleaving, the stream is given the messages in order, in blocks of whole messages;
      until an overflow the buffer holds all the others. */
  lemma {:induction false} NothingLost(maxData: nat, evs: seq<Event>) returns (cuts: seq<nat>)
    ensures Splits(Run(maxData, evs), Written(evs), cuts)
  {
    if evs == [] {
      cuts := [0];
    } else {
      var before, ev := evs[..|evs| - 1], evs[|evs| - 1];
      cuts := NothingLost(maxData, before);
      var w, messages := Run(maxData, before), Written(before);
      match ev
      case Write(m) => SplitsWrite(w, messages, cuts, m);
      case Resume => cuts := SplitsResume(w, messages, cuts);
      case SendDone => SplitsDone(w, messages, cuts);
    }
  }

  /** Until an overflow, what was sent, is in flight and is buffered are all messages written. */
  lemma Conservation(maxData: nat, evs: seq<Event>)
    ensures var w := Run(maxData, evs);
            w.buffered.Some? ==> w.sent + InFlight(w) + w.buffered.value == Flatten(Written(evs))
  {
    var cuts := NothingLost(maxData, evs);
    FlattenSplit(Written(evs), cuts[|cuts| - 1]);
  }

  function RunFrom(w: Writer, evs: seq<Event>): Writer {
    if evs == [] then w else Step(RunFrom(w, evs[..|evs| - 1]), evs[|evs| - 1])
  }

  /** After an overflow the stream gets no more than the block it was already given. */
  lemma {:induction false} OverflowIsFinal(w: Writer, evs: seq<Event>)
    requires w.buffered.None?
    ensures var w' := RunFrom(w, evs);
            w'.buffered.None? && w'.blocks == w.blocks && w'.sent + InFlight(w') == w.sent + InFlight(w)
  {
    if evs != [] {
      OverflowIsFinal(w, evs[..|evs| - 1]);
      var w1 := RunFrom(w, evs[..|evs| - 1]);
      assert w1.sent + InFlight(w1) + [] == w1.sent + InFlight(w1);
    }
  }

  // ----- when the buffer overflows

  /** How many bytes the messages have that were not yet handed to the stream. */
  function Pending(maxData: nat, evs: seq<Event>, message: Bytes): int {
    |Flatten(Written(evs))| + |message| - |Flatten(Run(maxData, evs).blocks)|
  }

  /** With the message that event k writes, more is pending than the limit. */
  predicate Exceeds(maxData: nat, evs: seq<Event>, k: nat) {
    k < |evs| && evs[k].Write? && Pending(maxData, evs[..k], evs[k].message) > maxData
  }

  lemma {:induction false} BlocksAreHanded(blocks: seq<Bytes>, messages: seq<Bytes>, cuts: seq<nat>)
    requires Cut(blocks, messages, cuts)
    ensures Flatten(blocks) == Flatten(messages[..cuts[|cuts| - 1]])
  {
    if blocks == [] {
      assert messages[..0] == [];
    } else {
      var n := |blocks| - 1;
      var a, b := cuts[n], cuts[n + 1];
      assert IsRun(blocks[n], messages, a, b);
      forall k | 0 <= k < n ensures IsRun(blocks[..n][k], messages, cuts[..n + 1][k], cuts[..n + 1][k + 1]) {
        assert IsRun(blocks[k], messages, cuts[k], cuts[k + 1]);
      }
      BlocksAreHanded(blocks[..n], messages, cuts[..n + 1]);
      assert blocks == blocks[..n] + [blocks[n]];
      FlattenSnoc(blocks[..n], blocks[n]);
      assert messages[..b] == messages[..a] + messages[a..b];
      FlattenAppend(messages[..a], messages[a..b]);
    }
  }

  /** Until an overflow the buffer holds what is pending. */
  lemma BufferIsPending(maxData: nat, evs: seq<Event>)
    ensures var w := Run(maxData, evs);
            w.buffered.Some? ==> |w.buffered.value| == |Flatten(Written(evs))| - |Flatten(w.blocks)|
  {
    var w := Run(maxData, evs);
    var cuts := NothingLost(maxData, evs);
    BlocksAreHanded(w.blocks, Written(evs), cuts);
    FlattenSplit(Written(evs), cuts[|cuts| - 1]);
  }

  lemma ExceedsEarlier(maxData: nat, evs: seq<Event>, k: nat)
    requires k < |evs| - 1
    ensures Exceeds(maxData, evs[..|evs| - 1], k) <==> Exceeds(maxData, evs, k)
  {
    assert evs[..|evs| - 1][..k] == evs[..k];
  }

  /** In every interleaving there has been an overflow exactly if at some write the messages not yet handed to
      the stream, that one included, had more bytes than the limit. */
  lemma {:induction false} OverflowsExactlyWhen(maxData: nat, evs: seq<Event>)
    ensures Run(maxData, evs).buffered.None? <==> exists k :: Exceeds(maxData, evs, k)
  {
    if evs == [] {
    } else {
      var evs0, ev, n := evs[..|evs| - 1], evs[|evs| - 1], |evs| - 1;
      OverflowsExactlyWhen(maxData, evs0);
      BufferIsPending(maxData, evs0);
      RunKeepsInv(maxData, evs0);
      forall k: nat | k < n ensures Exceeds(maxData, evs0, k) <==> Exceeds(maxData, evs, k) {
        ExceedsEarlier(maxData, evs, k);
      }
      if Run(maxData, evs0).buffered.None? {
        var k :| Exceeds(maxData, evs0, k);
        assert Exceeds(maxData, evs, k);
      } else {
        assert Run(maxData, evs).buffered.None? <==> Exceeds(maxData, evs, n);
      }
    }
  }

  // ----- what resuming does

  /** After any events a task that may run hands over all that is pending, if that is anything; raises exactly
      after an overflow; and parks otherwise. A task that is parked or sending, or has raised, does not run. */
  lemma ResumesExactly(maxData: nat, evs: seq<Event>)
    ensures var w, w' := Run(maxData, evs), Run(maxData, evs + [Resume]);
            var pending := |Flatten(Written(evs))| - |Flatten(w.blocks)|;
            var overflow := exists k :: Exceeds(maxData, evs, k);
            && (w.task != Runnable ==> w' == w)
            && (w.task == Runnable ==>
                  && (w'.task == Raised <==> overflow)
                  && (w'.task.Sending? <==> !overflow && pending > 0)
                  && (w'.task == Parked <==> !overflow && pending == 0)
                  && w'.sent == w.sent)
            && (w.task == Runnable && w'.task.Sending? ==>
                  && w'.blocks == w.blocks + [w'.task.block] && |w'.task.block| == pending
                  && w'.buffered == Some([]) && Flatten(w'.blocks) == Flatten(Written(evs)))
  {
    assert (evs + [Resume])[..|evs|] == evs;
    OverflowsExactlyWhen(maxData, evs);
    BufferIsPending(maxData, evs);
    BufferIsPending(maxData, evs + [Resume]);
    var w := Run(maxData, evs);
    var cuts := NothingLost(maxData, evs);
    BlocksAreHanded(w.blocks, Written(evs), cuts);
    FlattenSplit(Written(evs), cuts[|cuts| - 1]);
    if w.buffered.Some? { FlattenSnoc(w.blocks, w.buffered.value); }
  }

  // ----- everything is sent in the end

  lemma RunNext(maxData: nat, evs: seq<Event>, ev: Event)
    ensures Run(maxData, evs + [ev]) == Step(Run(maxData, evs), ev)
    ensures Written(evs + [ev]) == Written(evs) + if ev.Write? then [ev.message] else []
  {
    assert (evs + [ev])[..|evs|] == evs;
    assert Written(evs) + [] == Written(evs);
  }

  /** Unless there has been an overflow, everything written has been sent once a block that is in flight has
      been taken, the task has run, and what it handed over has been taken. */
  lemma AllIsSent(maxData: nat, evs: seq<Event>)
    requires forall k :: !Exceeds(maxData, evs, k)
    ensures Run(maxData, evs + [SendDone] + [Resume] + [SendDone]).sent == Flatten(Written(evs))
  {
    var e1, e2 := evs + [SendDone], evs + [SendDone] + [Resume];
    OverflowsExactlyWhen(maxData, evs);
    RunKeepsInv(maxData, evs);
    RunNext(maxData, evs, SendDone);
    RunNext(maxData, e1, Resume);
    RunNext(maxData, e2, SendDone);
    Conservation(maxData, evs);
    var w := Run(maxData, evs);
    assert w.sent + InFlight(w) + [] == w.sent + InFlight(w) && w.sent + [] == w.sent;
  }

  lemma {:induction false} WrittenGrows(evs: seq<Event>, k: nat)
    requires k <= |evs|
    ensures |Flatten(Written(evs[..k]))| <= |Flatten(Written(evs))|
    decreases |evs|
  {
    if k == |evs| {
      assert evs[..k] == evs;
    } else {
      var evs0, ev := evs[..|evs| - 1], evs[|evs| - 1];
      assert evs0[..k] == evs[..k];
      WrittenGrows(evs0, k);
      if ev.Write? { FlattenSnoc(Written(evs0), ev.message); }
    }
  }

  /** So messages that together stay within the limit never overflow the buffer, and are all sent. */
  lemma SmallIsSent(maxData: nat, evs: seq<Event>)
    requires |Flatten(Written(evs))| <= maxData
    ensures forall k :: !Exceeds(maxData, evs, k)
    ensures Run(maxData, evs + [SendDone] + [Resume] + [SendDone]).sent == Flatten(Written(evs))
  {
    forall k: nat ensures !Exceeds(maxData, evs, k) {
      if Exceeds(maxData, evs, k) {
        assert evs[..k + 1] == evs[..k] + [evs[k]];
        RunNext(maxData, evs[..k], evs[k]);
        FlattenSnoc(Written(evs[..k]), evs[k].message);
        WrittenGrows(evs, k + 1);
      }
    }
    AllIsSent(maxData, evs);
  }
}
