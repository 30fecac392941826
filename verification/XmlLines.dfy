/** The XML scanner over several lines, the state carried from line to line. */
module XmlLines {
  import opened Sequences
  import opened Spans
  import opened XmlScanning

  // ----- strings

  lemma OccursHead(text: string, c: char, p: nat)
    requires OccursAt(text, [c], p)
    ensures p < |text| && text[p] == c
  {
    assert text[p] == text[p..p + 1][0];
  }

  lemma OccursChars(text: string, s: string, p: nat)
    requires OccursAt(text, s, p)
    ensures p + |s| <= |text| && forall k :: p <= k < p + |s| ==> text[k] == s[k - p]
  {
    forall k | p <= k < p + |s| ensures text[k] == s[k - p] { assert text[k] == text[p..p + |s|][k - p]; }
  }

  predicate Free(s: string, p: char -> bool) {
    forall k :: 0 <= k < |s| ==> !p(s[k])
  }

  // ----- the scan of a whole text

  /** The end of the line that p is on. */
  function LineEnd(text: string, p: nat): (e: nat)
    requires p <= |text|
    ensures p <= e <= |text| && (e < |text| ==> text[e] == '\n') && forall k :: p <= k < e ==> text[k] != '\n'
    decreases |text| - p
  {
    if p == |text| || text[p] == '\n' then p else LineEnd(text, p + 1)
  }

  /** The text up to the end of that line. */
  function Upto(text: string, p: nat): (line: string)
    requires p <= |text|
    ensures p <= |line| == LineEnd(text, p) <= |text|
  {
    text[..LineEnd(text, p)]
  }

  lemma SameLine(text: string, p: nat, q: nat)
    requires p <= q <= |text| && forall k :: p <= k < q ==> text[k] != '\n'
    ensures LineEnd(text, q) == LineEnd(text, p)
  {
  }

  predicate SoundAt(text: string, sp: StatePosition) {
    sp.position <= |text| && Sound(Upto(text, sp.position), sp)
  }

  /** The next position: on the same line, or past its end in the same state. */
  function NextAt(text: string, sp: StatePosition): (to: StatePosition)
    requires SoundAt(text, sp) && sp.position < |text|
    ensures SoundAt(text, to) && sp.position <= to.position
    ensures to.position == sp.position ==> Rank(to.state) < Rank(sp.state)
  {
    var line := Upto(text, sp.position);
    if sp.position == |line| then At(sp.state, sp.position + 1)
    else
      var to := Advance(line, sp);
      SameLine(text, sp.position, to.position);
      to
  }

  /** The state of each character from here on. A line break gets the state that its line ends in. */
  function ScanText(text: string, sp: StatePosition): (s: Scanned)
    requires SoundAt(text, sp)
    ensures |s.states| == |text| - sp.position
    decreases |text| - sp.position, Rank(sp.state)
  {
    if sp.position == |text| then Scanned([], sp.state)
    else
      var to := NextAt(text, sp);
      var rest := ScanText(text, to);
      rest.(states := Repeat(sp.state, to.position - sp.position) + rest.states)
  }

  // ----- step by step

  /** Scanning from sp gives the states, and goes on from `to`. */
  ghost predicate Leads(text: string, sp: StatePosition, states: seq<XmlState>, to: StatePosition) {
    && SoundAt(text, sp) && SoundAt(text, to)
    && ScanText(text, sp) == Scanned(states + ScanText(text, to).states, ScanText(text, to).final)
  }

  lemma LeadsNext(text: string, sp: StatePosition)
    requires SoundAt(text, sp) && sp.position < |text|
    ensures var to := NextAt(text, sp); Leads(text, sp, Repeat(sp.state, to.position - sp.position), to)
  {
    hide NextAt, SoundAt;
  }

  lemma LeadsTrans(text: string, a: StatePosition, s: seq<XmlState>, b: StatePosition, t: seq<XmlState>, c: StatePosition)
    requires Leads(text, a, s, b) && Leads(text, b, t, c)
    ensures Leads(text, a, s + t, c)
  {
    hide ScanText, SoundAt;
    assert s + (t + ScanText(text, c).states) == s + t + ScanText(text, c).states;
  }

  lemma RepeatAppend(st: XmlState, m: nat, n: nat)
    ensures Repeat(st, m) + Repeat(st, n) == Repeat(st, m + n)
  {
  }

  /** What ends a state begins at k. */
  predicate Stops(text: string, st: XmlState, k: nat) {
    match st
    case Comment => OccursAt(text, "-->", k)
    case Normal => k < |text| && text[k] == '<'
    case AttributeName => k < |text| && InAttributeName(text[k])
    case AttributeSingle => k < |text| && text[k] == '\''
    case AttributeDouble => k < |text| && text[k] == '"'
    case _ => false
  }

  predicate Opens(text: string, q: nat) {
    q + 4 <= |text| && text[q + 1..q + 4] == "!--"
  }

  /** The state and position that the end of a state at q leads to. */
  function AfterStop(text: string, sp: StatePosition, q: nat): StatePosition
    requires q < |text|
  {
    match sp.state
    case Normal => if Opens(text, q) then StatePosition(Comment, q, q + 4) else StatePosition(Element, q, q + 1)
    case Comment => At(Normal, q + 3)
    case AttributeName =>
      if text[q] == '>' then At(ElementEnd, sp.search)
      else StatePosition(if text[q] == '\'' then AttributeSingle else AttributeDouble, q, q + 1)
    case _ => At(AttributeName, q + 1)
  }

  lemma StopInText(line: string, st: XmlState, k: nat)
    requires Restful(st) && Stops(line, st, k)
    ensures k < |line|
  {
  }

  /** Nothing that ends the state begins in between. */
  predicate Quiet(text: string, st: XmlState, from: nat, to: nat) {
    forall k :: from <= k < to ==> !Stops(text, st, k)
  }

  lemma FindsChar(text: string, c: char, from: nat, q: nat)
    requires from <= q < |text| && text[q] == c && forall k :: from <= k < q ==> text[k] != c
    ensures Find(text, [c], from) == q
  {
    forall k | from <= k < q ensures !OccursAt(text, [c], k) {
      if OccursAt(text, [c], k) { OccursHead(text, c, k); }
    }
    assert OccursAt(text, [c], q);
  }

  lemma FindsNoChar(text: string, c: char, from: nat)
    requires forall k :: from <= k < |text| ==> text[k] != c
    ensures Find(text, [c], from) == -1
  {
    forall k | from <= k ensures !OccursAt(text, [c], k) {
      if OccursAt(text, [c], k) { OccursHead(text, c, k); }
    }
  }

  /** What the states that one character ends wait for. */
  predicate Awaits(st: XmlState, c: char) {
    match st
    case Normal => c == '<'
    case AttributeName => InAttributeName(c)
    case AttributeSingle => c == '\''
    case AttributeDouble => c == '"'
    case _ => false
  }

  lemma QuietChars(text: string, st: XmlState, from: nat, to: nat)
    requires Restful(st) && !st.Comment? && Quiet(text, st, from, to)
    ensures forall k :: from <= k < to && k < |text| ==> !Awaits(st, text[k])
  {
    forall k | from <= k < to && k < |text| ensures !Awaits(st, text[k]) { assert !Stops(text, st, k); }
  }

  lemma StopFound(line: string, sp: StatePosition, q: nat)
    requires Restful(sp.state) && sp.search <= q && Stops(line, sp.state, q) && Quiet(line, sp.state, sp.search, q)
    ensures q < |line| && GetNextState(line, sp) == Goes(AfterStop(line, sp, q))
  {
    StopInText(line, sp.state, q);
    if !sp.state.Comment? { QuietChars(line, sp.state, sp.search, q); }
    match sp.state
    case Normal => FindsChar(line, '<', sp.search, q);
    case AttributeSingle => FindsChar(line, '\'', sp.search, q);
    case AttributeDouble => FindsChar(line, '"', sp.search, q);
    case AttributeName => assert Search(line, sp.search, InAttributeName) == q;
    case Comment =>
      var end := Find(line, "-->", sp.search);
      assert end <= q;
      if end < q { assert Stops(line, sp.state, end); }
  }

  lemma NoStopFound(line: string, sp: StatePosition)
    requires Restful(sp.state) && Quiet(line, sp.state, sp.search, |line|)
    ensures GetNextState(line, sp) == Stays
  {
    if !sp.state.Comment? { QuietChars(line, sp.state, sp.search, |line|); }
    match sp.state
    case Normal => FindsNoChar(line, '<', sp.search);
    case AttributeSingle => FindsNoChar(line, '\'', sp.search);
    case AttributeDouble => FindsNoChar(line, '"', sp.search);
    case AttributeName => assert Search(line, sp.search, InAttributeName) == -1;
    case Comment =>
      var end := Find(line, "-->", sp.search);
      if end != -1 { assert Stops(line, sp.state, end); }
  }

  /** What stops a state on a line stops it in the text, and the other way round if it does not go over
      the end of the line. None does. */
  lemma StopOnLine(text: string, e: nat, st: XmlState, k: nat)
    requires e <= |text| && Restful(st)
    ensures Stops(text[..e], st, k) ==> Stops(text, st, k)
    ensures k < e && (e == |text| || text[e] == '\n') && Stops(text, st, k) ==> Stops(text[..e], st, k)
  {
    if st.Comment? {
      if k + 3 <= e { assert text[..e][k..k + 3] == text[k..k + 3]; }
      if k < e < k + 3 && Stops(text, st, k) {
        OccursChars(text, "-->", k);
        assert text[e] == "-->"[e - k];
      }
    }
  }

  lemma QuietOnLine(text: string, e: nat, st: XmlState, from: nat, to: nat)
    requires e <= |text| && Restful(st) && Quiet(text, st, from, to) && to <= e
    ensures Quiet(text[..e], st, from, to)
  {
    forall k | from <= k < to ensures !Stops(text[..e], st, k) { StopOnLine(text, e, st, k); }
  }

  lemma StayOnLine(text: string, sp: StatePosition)
    requires SoundAt(text, sp) && Restful(sp.state) && sp.position < LineEnd(text, sp.position)
    requires Quiet(text, sp.state, sp.search, LineEnd(text, sp.position))
    ensures NextAt(text, sp) == At(sp.state, LineEnd(text, sp.position))
  {
    hide GetNextState, Quiet;
    var e := LineEnd(text, sp.position);
    QuietOnLine(text, e, sp.state, sp.search, e);
    NoStopFound(text[..e], sp);
  }

  lemma PastLine(text: string, sp: StatePosition)
    requires SoundAt(text, sp) && sp.position == LineEnd(text, sp.position) < |text|
    ensures NextAt(text, sp) == At(sp.state, sp.position + 1)
  {
  }

  /** Where the state is on the line of q, if nothing ends it before. */
  function LastStart(text: string, sp: StatePosition, q: nat): StatePosition
    requires sp.position <= q <= |text|
    decreases q - sp.position
  {
    var e := LineEnd(text, sp.position);
    if e >= q then sp else LastStart(text, At(sp.state, e + 1), q)
  }

  /** To the end of the line and past it. */
  lemma CrossLine(text: string, sp: StatePosition)
    requires SoundAt(text, sp) && Restful(sp.state) && LineEnd(text, sp.position) < |text|
    requires Quiet(text, sp.state, sp.search, LineEnd(text, sp.position))
    ensures var n := At(sp.state, LineEnd(text, sp.position) + 1);
            Leads(text, sp, Repeat(sp.state, n.position - sp.position), n)
  {
    hide ScanText, Leads, NextAt, Quiet, SoundAt;
    var e := LineEnd(text, sp.position);
    SameLine(text, sp.position, e);
    LeadsNext(text, sp);
    if sp.position == e {
      PastLine(text, sp);
    } else {
      StayOnLine(text, sp);
      var at := At(sp.state, e);
      LeadsNext(text, at);
      PastLine(text, at);
      LeadsTrans(text, sp, Repeat(sp.state, e - sp.position), at, Repeat(sp.state, 1), At(sp.state, e + 1));
      RepeatAppend(sp.state, e - sp.position, 1);
    }
  }

  lemma StopIsNoBreak(text: string, st: XmlState, q: nat)
    requires Restful(st) && Stops(text, st, q)
    ensures q < |text| && text[q] != '\n'
  {
    if st.Comment? { OccursChars(text, "-->", q); }
  }

  lemma StopOnThisLine(text: string, sp: StatePosition, q: nat)
    requires SoundAt(text, sp) && Restful(sp.state) && sp.search <= q < LineEnd(text, sp.position)
    requires Stops(text, sp.state, q) && Quiet(text, sp.state, sp.search, q)
    ensures var to := AfterStop(Upto(text, q), sp, q);
            sp.position <= to.position && Leads(text, sp, Repeat(sp.state, to.position - sp.position), to)
  {
    hide ScanText, Leads, GetNextState, Quiet, Stops;
    var e := LineEnd(text, sp.position);
    SameLine(text, sp.position, q);
    StopOnLine(text, e, sp.state, q);
    QuietOnLine(text, e, sp.state, sp.search, q);
    StopFound(text[..e], sp, q);
    LeadsNext(text, sp);
  }

  /** From inside a state over any lines to what ends it. */
  lemma {:induction false} RunLeads(text: string, sp: StatePosition, q: nat)
    requires SoundAt(text, sp) && Restful(sp.state) && sp.search <= q && Stops(text, sp.state, q)
    requires Quiet(text, sp.state, sp.search, q) && sp.search <= LineEnd(text, sp.position)
    ensures q < |text|
    ensures var to := AfterStop(Upto(text, q), LastStart(text, sp, q), q);
            sp.position <= to.position && Leads(text, sp, Repeat(sp.state, to.position - sp.position), to)
    decreases q - sp.position
  {
    hide ScanText, Leads, Stops;
    StopIsNoBreak(text, sp.state, q);
    var e := LineEnd(text, sp.position);
    if e >= q {
      StopOnThisLine(text, sp, q);
    } else {
      CrossLine(text, sp);
      var n := At(sp.state, e + 1);
      RunLeads(text, n, q);
      var to := AfterStop(Upto(text, q), LastStart(text, n, q), q);
      LeadsTrans(text, sp, Repeat(sp.state, n.position - sp.position), n, Repeat(sp.state, to.position - n.position), to);
      RepeatAppend(sp.state, n.position - sp.position, to.position - n.position);
    }
  }

  lemma Starts(text: string, st: XmlState, p: nat)
    requires p <= |text| && Restful(st)
    ensures SoundAt(text, At(st, p))
  {
  }

  lemma LeadsTo(text: string, a: StatePosition, s: seq<XmlState>, b: StatePosition, rest: Scanned)
    requires Leads(text, a, s, b) && ScanText(text, b) == rest
    ensures ScanText(text, a) == Scanned(s + rest.states, rest.final)
  {
  }

  lemma EndScanned(text: string, st: XmlState)
    requires Restful(st)
    ensures SoundAt(text, At(st, |text|)) && ScanText(text, At(st, |text|)) == Scanned(Repeat(st, 0), st)
  {
  }

  /** From inside a state that nothing ends any more, on the last line. */
  lemma LastLineScanned(text: string, sp: StatePosition)
    requires SoundAt(text, sp) && Restful(sp.state) && LineEnd(text, sp.position) == |text|
    requires Quiet(text, sp.state, sp.search, |text|)
    ensures ScanText(text, sp) == Scanned(Repeat(sp.state, |text| - sp.position), sp.state)
  {
    hide Quiet, Leads, SoundAt, LineEnd, NextAt, Repeat;
    var st, n := sp.state, |text| - sp.position;
    if n == 0 {
      SameAtEnd(text, sp, st);
    } else {
      StayOnLine(text, sp);
      LeadsNext(text, sp);
      EndScanned(text, st);
      LeadsTo(text, sp, Repeat(st, n), At(st, |text|), Scanned(Repeat(st, 0), st));
      RepeatAppend(st, n, 0);
    }
  }

  lemma MoreScanned(text: string, sp: StatePosition, n: StatePosition)
    requires SoundAt(text, sp) && sp.state == n.state && sp.position <= n.position
    requires Leads(text, sp, Repeat(sp.state, n.position - sp.position), n)
    requires ScanText(text, n) == Scanned(Repeat(n.state, |text| - n.position), n.state)
    ensures ScanText(text, sp) == Scanned(Repeat(sp.state, |text| - sp.position), sp.state)
  {
    hide ScanText, Repeat, SoundAt, Leads;
    InsideText(text, sp, n);
    LeadsTo(text, sp, Repeat(sp.state, n.position - sp.position), n, Scanned(Repeat(n.state, |text| - n.position), n.state));
    RepeatAppend(sp.state, n.position - sp.position, |text| - n.position);
  }

  lemma InsideText(text: string, sp: StatePosition, n: StatePosition)
    requires sp.position <= n.position && Leads(text, sp, Repeat(sp.state, n.position - sp.position), n)
    ensures SoundAt(text, sp) && SoundAt(text, n) && n.position <= |text|
  {
  }

  /** The start of the next line, in the same state, which nothing ends there either. */
  lemma QuietNext(text: string, sp: StatePosition) returns (n: StatePosition)
    requires Lasts(text, sp) && LineEnd(text, sp.position) < |text|
    ensures Lasts(text, n) && n.state == sp.state && sp.position < n.position
    ensures Leads(text, sp, Repeat(sp.state, n.position - sp.position), n)
  {
    hide Stops, Leads, ScanText, NextAt, LineEnd, SoundAt, Upto, Restful;
    n := At(sp.state, LineEnd(text, sp.position) + 1);
    CrossLine(text, sp);
    Starts(text, sp.state, n.position);
  }

  /** The scanner is inside a state that nothing ends any more. */
  predicate Lasts(text: string, sp: StatePosition) {
    && sp.position <= |text| && SoundAt(text, sp) && Restful(sp.state) && sp.search <= LineEnd(text, sp.position)
    && Quiet(text, sp.state, sp.search, |text|)
  }

  lemma {:induction false} RestScanned(text: string, sp: StatePosition)
    requires Lasts(text, sp)
    ensures ScanText(text, sp) == Scanned(Repeat(sp.state, |text| - sp.position), sp.state)
    decreases |text| - sp.position
  {
    if LineEnd(text, sp.position) == |text| {
      LastLineScanned(text, sp);
    } else {
      var n := QuietNext(text, sp);
      hide *;
      RestScanned(text, n);
      MoreScanned(text, sp, n);
    }
  }

  lemma SameAtEnd(text: string, sp: StatePosition, st: XmlState)
    requires SoundAt(text, sp) && sp.position == |text| && sp.state == st
    ensures ScanText(text, sp) == Scanned(Repeat(st, 0), st)
  {
  }

  // ----- line by line

  /** Characters that are not line breaks are on one line. */
  lemma OneLine(text: string, p: nat, q: nat)
    requires p <= q <= |text| && forall k :: p <= k < q ==> text[k] != '\n'
    ensures q <= LineEnd(text, p) == LineEnd(text, q)
  {
    SameLine(text, p, q);
  }

  function Shifted(sp: StatePosition, n: nat): StatePosition {
    StatePosition(sp.state, sp.position + n, sp.search + n)
  }

  function ShiftedNext(next: Next, n: nat): Next {
    if next.Goes? then Goes(Shifted(next.to, n)) else next
  }

  lemma OccursShift(pre: string, line: string, what: string, k: nat)
    ensures OccursAt(pre + line, what, |pre| + k) <==> OccursAt(line, what, k)
  {
    if k + |what| <= |line| {
      assert (pre + line)[|pre| + k..|pre| + k + |what|] == line[k..k + |what|];
    }
  }

  lemma FindShift(pre: string, line: string, what: string, from: nat)
    ensures var r := Find(line, what, from); Find(pre + line, what, |pre| + from) == if r == -1 then -1 else |pre| + r
  {
    var r, t := Find(line, what, from), Find(pre + line, what, |pre| + from);
    if r != -1 { OccursShift(pre, line, what, r); }
    if t != -1 { OccursShift(pre, line, what, t - |pre|); }
  }

  lemma SearchShift(pre: string, line: string, from: nat, p: char -> bool)
    ensures var r := Search(line, from, p); Search(pre + line, |pre| + from, p) == if r == -1 then -1 else |pre| + r
  {
    assert forall k :: 0 <= k < |line| ==> (pre + line)[|pre| + k] == line[k];
    var r, t := Search(line, from, p), Search(pre + line, |pre| + from, p);
    if t != -1 { assert p(line[t - |pre|]); }
    if r != -1 { assert p((pre + line)[|pre| + r]); }
  }

  lemma OpensShift(pre: string, line: string, q: nat)
    ensures Opens(pre + line, |pre| + q) <==> Opens(line, q)
  {
    if q + 4 <= |line| {
      assert (pre + line)[|pre| + q + 1..|pre| + q + 4] == line[q + 1..q + 4];
    }
  }

  lemma CharShift(pre: string, line: string, k: nat)
    requires k < |line|
    ensures |pre| + k < |pre + line| && (pre + line)[|pre| + k] == line[k]
  {
  }

  lemma NormalShift(pre: string, line: string, sp: StatePosition)
    requires sp.state.Normal?
    ensures GetNextState(pre + line, Shifted(sp, |pre|)) == ShiftedNext(GetNextState(line, sp), |pre|)
  {
    hide Find, OccursAt;
    FindShift(pre, line, "<", sp.search);
    var tag := Find(line, "<", sp.search);
    if tag != -1 { OpensShift(pre, line, tag); }
  }

  lemma ElementShift(pre: string, line: string, sp: StatePosition)
    requires sp.state.Element?
    ensures GetNextState(pre + line, Shifted(sp, |pre|)) == ShiftedNext(GetNextState(line, sp), |pre|)
  {
    hide Search, InElement;
    SearchShift(pre, line, sp.search, InElement);
    var end := Search(line, sp.search, InElement);
    if end != -1 { CharShift(pre, line, end); }
  }

  lemma AttributeNameShift(pre: string, line: string, sp: StatePosition)
    requires sp.state.AttributeName?
    ensures GetNextState(pre + line, Shifted(sp, |pre|)) == ShiftedNext(GetNextState(line, sp), |pre|)
  {
    hide Search, InAttributeName;
    SearchShift(pre, line, sp.search, InAttributeName);
    var end := Search(line, sp.search, InAttributeName);
    if end != -1 { CharShift(pre, line, end); }
  }

  lemma MarkShift(pre: string, line: string, sp: StatePosition, what: string)
    requires !sp.state.Normal? && !sp.state.Element? && !sp.state.AttributeName?
    requires what == match sp.state case Comment => "-->" case ElementEnd => ">" case AttributeSingle => "'" case _ => "\""
    ensures GetNextState(pre + line, Shifted(sp, |pre|)) == ShiftedNext(GetNextState(line, sp), |pre|)
  {
    hide Find, OccursAt;
    FindShift(pre, line, what, sp.search);
  }

  /** The text before a line does not matter to a step on it. */
  lemma NextShift(pre: string, line: string, sp: StatePosition)
    ensures GetNextState(pre + line, Shifted(sp, |pre|)) == ShiftedNext(GetNextState(line, sp), |pre|)
  {
    hide GetNextState;
    match sp.state
    case Normal => NormalShift(pre, line, sp);
    case Element => ElementShift(pre, line, sp);
    case AttributeName => AttributeNameShift(pre, line, sp);
    case Comment => MarkShift(pre, line, sp, "-->");
    case ElementEnd => MarkShift(pre, line, sp, ">");
    case AttributeSingle => MarkShift(pre, line, sp, "'");
    case AttributeDouble => MarkShift(pre, line, sp, "\"");
  }

  lemma SoundShift(pre: string, line: string, sp: StatePosition)
    requires Sound(line, sp)
    ensures Sound(pre + line, Shifted(sp, |pre|))
  {
    if sp.state.ElementEnd? {
      var k :| sp.position <= k < |line| && line[k] == '>';
      assert (pre + line)[|pre| + k] == '>';
    }
  }

  lemma LineIsOver(line: string, sp: StatePosition)
    requires Sound(line, sp) && sp.position == |line|
    ensures Scan(line, sp) == Scanned([], sp.state) && Restful(sp.state)
  {
  }

  lemma StepOfLine(line: string, sp: StatePosition)
    requires Sound(line, sp) && sp.position < |line|
    ensures var to := Advance(line, sp);
            Scan(line, sp)
            == Scanned(Repeat(sp.state, to.position - sp.position) + Scan(line, to).states, Scan(line, to).final)
  {
    hide Advance, Sound;
  }

  lemma {:induction false} ScanShift(pre: string, line: string, sp: StatePosition)
    requires Sound(line, sp)
    ensures Sound(pre + line, Shifted(sp, |pre|)) && Scan(pre + line, Shifted(sp, |pre|)) == Scan(line, sp)
    decreases |line| - sp.position, Rank(sp.state)
  {
    hide Scan, Advance, Repeat;
    SoundShift(pre, line, sp);
    if sp.position < |line| {
      hide Sound;
      AdvanceShift(pre, line, sp);
      ScanShift(pre, line, Advance(line, sp));
      StepOfLine(line, sp);
      StepOfLine(pre + line, Shifted(sp, |pre|));
    } else {
      LineIsOver(line, sp);
      LineIsOver(pre + line, Shifted(sp, |pre|));
    }
  }

  lemma AdvanceShift(pre: string, line: string, sp: StatePosition)
    requires Sound(line, sp) && sp.position < |line| && Sound(pre + line, Shifted(sp, |pre|))
    ensures Advance(pre + line, Shifted(sp, |pre|)) == Shifted(Advance(line, sp), |pre|)
  {
    hide GetNextState, Sound;
    NextShift(pre, line, sp);
    StepIsSound(line, sp);
  }

  /** A line ends in a state that lines end in. */
  lemma {:induction false} ScanRests(line: string, sp: StatePosition)
    requires Sound(line, sp)
    ensures Restful(Scan(line, sp).final)
    decreases |line| - sp.position, Rank(sp.state)
  {
    if sp.position < |line| { ScanRests(line, Advance(line, sp)); }
  }

  /** The scan of a text from sp is that of its line and then that of the rest. */
  ghost predicate GoesOverLine(text: string, sp: StatePosition)
    requires SoundAt(text, sp)
  {
    var e, s := LineEnd(text, sp.position), Scan(Upto(text, sp.position), sp);
    if e == |text| then ScanText(text, sp) == s
    else
      && Restful(s.final) && SoundAt(text, At(s.final, e + 1))
      && var rest := ScanText(text, At(s.final, e + 1));
      ScanText(text, sp) == Scanned(s.states + [s.final] + rest.states, rest.final)
  }

  lemma {:induction false} LineOfText(text: string, sp: StatePosition)
    requires SoundAt(text, sp)
    ensures GoesOverLine(text, sp)
    decreases |text| - sp.position, Rank(sp.state)
  {
    var e := LineEnd(text, sp.position);
    if sp.position < e {
      var to := NextAt(text, sp);
      OnThisLine(text, sp);
      LineOfText(text, to);
      LeadsNext(text, sp);
      OverByStep(text, sp, to);
    } else if e < |text| {
      OverByBreak(text, sp);
    } else {
      OverAtEnd(text, sp);
    }
  }

  lemma OnThisLine(text: string, sp: StatePosition)
    requires SoundAt(text, sp) && sp.position < LineEnd(text, sp.position)
    ensures var line, to := Upto(text, sp.position), NextAt(text, sp);
            && to == Advance(line, sp) && Upto(text, to.position) == line
            && LineEnd(text, to.position) == LineEnd(text, sp.position) == |line|
  {
    SameLine(text, sp.position, NextAt(text, sp).position);
  }

  lemma OverByStep(text: string, sp: StatePosition, to: StatePosition)
    requires SoundAt(text, sp) && sp.position < LineEnd(text, sp.position) && SoundAt(text, to) && sp.position <= to.position
    requires to == Advance(Upto(text, sp.position), sp) && Upto(text, to.position) == Upto(text, sp.position)
    requires LineEnd(text, to.position) == LineEnd(text, sp.position) == |Upto(text, sp.position)|
    requires Leads(text, sp, Repeat(sp.state, to.position - sp.position), to) && GoesOverLine(text, to)
    ensures GoesOverLine(text, sp)
  {
    hide ScanText, LineEnd, Upto, Advance;
    var line, first := Upto(text, sp.position), Repeat(sp.state, to.position - sp.position);
    StepOfLine(line, sp);
    var s, t := Scan(line, sp), Scan(line, to);
    assert s == Scanned(first + t.states, t.final);
    if LineEnd(text, sp.position) < |text| {
      var rest := ScanText(text, At(s.final, LineEnd(text, sp.position) + 1));
      assert first + (t.states + [t.final] + rest.states) == first + t.states + [t.final] + rest.states;
    }
  }

  lemma OverByBreak(text: string, sp: StatePosition)
    requires SoundAt(text, sp) && sp.position == LineEnd(text, sp.position) < |text|
    ensures GoesOverLine(text, sp)
  {
    hide ScanText, Scan, NextAt, LineEnd, Upto, Sound, Leads, GoesOverLine;
    LineIsOver(Upto(text, sp.position), sp);
    Starts(text, sp.state, sp.position + 1);
    PastLine(text, sp);
    LeadsNext(text, sp);
    assert Repeat(sp.state, 1) == [sp.state];
    BreakJoins(text, sp, At(sp.state, sp.position + 1));
  }

  lemma BreakJoins(text: string, sp: StatePosition, n: StatePosition)
    requires SoundAt(text, sp) && sp.position == LineEnd(text, sp.position) < |text| && Restful(sp.state)
    requires Scan(Upto(text, sp.position), sp) == Scanned([], sp.state)
    requires n == At(sp.state, sp.position + 1) && Leads(text, sp, [sp.state], n)
    ensures GoesOverLine(text, sp)
  {
    hide ScanText, Scan, LineEnd, Upto, Sound, SoundAt, Restful;
    assert [] + [sp.state] == [sp.state];
  }

  lemma OverAtEnd(text: string, sp: StatePosition)
    requires SoundAt(text, sp) && sp.position == LineEnd(text, sp.position) == |text|
    ensures GoesOverLine(text, sp)
  {
  }

  /** The lines with line breaks between them. */
  function Join(lines: seq<string>): string {
    if lines == [] then "" else if |lines| == 1 then lines[0] else lines[0] + ("\n" + Join(lines[1..]))
  }

  /** Scanning line after line, each from the state that the one before ended in. */
  function ScanLines(lines: seq<string>, state: XmlState): (all: seq<Scanned>)
    requires Restful(state)
    ensures |all| == |lines|
  {
    if lines == [] then []
    else
      var s := Scan(lines[0], At(state, 0));
      ScanRests(lines[0], At(state, 0));
      [s] + ScanLines(lines[1..], s.final)
  }

  /** The states of the lines, out of those of the text. */
  function Cut(states: seq<XmlState>, lines: seq<string>): (r: seq<seq<XmlState>>)
    requires lines != [] ==> |states| == |Join(lines)|
    ensures |r| == |lines|
  {
    if lines == [] then []
    else if |lines| == 1 then [states]
    else [states[..|lines[0]|]] + Cut(states[|lines[0]| + 1..], lines[1..])
  }

  predicate NoBreaks(lines: seq<string>) {
    forall i :: 0 <= i < |lines| ==> Free(lines[i], (c: char) => c == '\n')
  }

  /** The scan of the rest of a text is that of its first line, as a line of its own, and of the others. */
  lemma FirstScanned(text: string, b: nat, lines: seq<string>, state: XmlState)
    requires lines != [] && NoBreaks(lines) && Restful(state) && b <= |text| && text[b..] == Join(lines)
    ensures SoundAt(text, At(state, b))
    ensures var s, t, n := Scan(lines[0], At(state, 0)), ScanText(text, At(state, b)), b + |lines[0]| + 1;
            && Restful(s.final) && |s.states| == |lines[0]|
            && (|lines| == 1 ==> t == s)
            && (|lines| > 1 ==>
                  && n <= |text| && SoundAt(text, At(s.final, n))
                  && var rest := ScanText(text, At(s.final, n));
                  t == Scanned(s.states + [s.final] + rest.states, rest.final))
  {
    hide ScanText, Scan, LineEnd, NoBreaks, Join, Sound;
    FirstLine(text, b, lines);
    Starts(text, state, b);
    LineOfText(text, At(state, b));
    assert Upto(text, b) == text[..b] + lines[0];
    LineStarts(lines[0], state);
    ScanShift(text[..b], lines[0], At(state, 0));
    ScanRests(lines[0], At(state, 0));
  }

  lemma LineStarts(line: string, state: XmlState)
    requires Restful(state)
    ensures Sound(line, At(state, 0))
  {
  }

  /** The lines that are left make up the rest of the text. */
  lemma {:induction false} LinesScanned(text: string, b: nat, lines: seq<string>, state: XmlState)
    requires lines != [] && NoBreaks(lines) && Restful(state) && b <= |text| && text[b..] == Join(lines)
    ensures SoundAt(text, At(state, b))
    ensures var all, t := ScanLines(lines, state), ScanText(text, At(state, b));
            && all[|lines| - 1].final == t.final
            && forall i :: 0 <= i < |lines| ==> all[i].states == Cut(t.states, lines)[i]
    decreases |lines|
  {
    hide ScanText, Scan, SoundAt, Restful;
    FirstScanned(text, b, lines, state);
    if |lines| > 1 {
      FirstLine(text, b, lines);
      LineStarts(lines[0], state);
      var s := Scan(lines[0], At(state, 0));
      var n := b + |lines[0]| + 1;
      LinesScanned(text, n, lines[1..], s.final);
      var t, rest := ScanText(text, At(state, b)).states, ScanText(text, At(s.final, n)).states;
      assert t[..|lines[0]|] == s.states && t[|lines[0]| + 1..] == rest;
    }
  }

  lemma FirstLine(text: string, b: nat, lines: seq<string>)
    requires lines != [] && NoBreaks(lines) && b <= |text| && text[b..] == Join(lines)
    ensures var e := b + |lines[0]|;
            && e <= |text| && text[b..e] == lines[0] && LineEnd(text, b) == e
            && (|lines| == 1 ==> e == |text|)
            && (|lines| > 1 ==> e < |text| && text[e + 1..] == Join(lines[1..]))
  {
    var line, e := lines[0], b + |lines[0]|;
    var rest := text[b..];
    assert rest[..|line|] == line;
    assert text[b..e] == rest[..|line|];
    forall k | b <= k < e ensures text[k] != '\n' { assert text[k] == line[k - b]; }
    OneLine(text, b, e);
    if |lines| > 1 {
      assert rest[|line|] == '\n' && rest[|line| + 1..] == Join(lines[1..]);
      assert text[e] == rest[|line|] && text[e + 1..] == rest[|line| + 1..];
    }
  }
}
