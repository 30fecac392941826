/** The scanner of the XML highlighter: a state machine with steps of no width, line by line. */
module XmlScanning {
  import opened Sequences
  import opened Spans

  datatype XmlState =
    | Normal
    | Comment
    | Element
    | ElementEnd
    | AttributeName
    | AttributeSingle
    | AttributeDouble

  /** A state, where it begins, and where the search for the next one starts. */
  datatype StatePosition = StatePosition(state: XmlState, position: nat, search: nat)

  function At(state: XmlState, position: nat): StatePosition {
    StatePosition(state, position, position)
  }

  // ----- searching

  /** The white space of `\s` in a regular expression over strings. */
  predicate IsSpace(c: char) {
    var n := c as int;
    || 9 <= n <= 13 || 28 <= n <= 32 || n == 0x85 || n == 0xA0 || n == 0x1680 || 0x2000 <= n <= 0x200A
    || n == 0x2028 || n == 0x2029 || n == 0x202F || n == 0x205F || n == 0x3000
  }

  /** It has the white space of XML (section 2.3 of XML 1.0), and none of what names are made of in ASCII. */
  lemma SpacesOfXml(c: char)
    ensures c == ' ' || c == '\t' || c == '\r' || c == '\n' ==> IsSpace(c)
    ensures 'a' <= c <= 'z' || 'A' <= c <= 'Z' || '0' <= c <= '9' || c == '-' || c == '.' || c == ':' || c == '_' ==>
              !IsSpace(c) && c != '>'
  {
  }

  predicate InElement(c: char) {
    c == '>' || IsSpace(c)
  }

  predicate InAttributeName(c: char) {
    c == '>' || c == '\'' || c == '"'
  }

  /** The first character at `from` or later for which p holds, or -1. */
  function Search(text: string, from: nat, p: char -> bool): (r: int)
    ensures r == -1 || (from <= r < |text| && p(text[r]))
    ensures forall k :: from <= k < |text| && (r == -1 || k < r) ==> !p(text[k])
    decreases |text| - from
  {
    if from >= |text| then -1 else if p(text[from]) then from else Search(text, from + 1, p)
  }

  // ----- one step

  /** The next state, no change to the end of the line, or an exception of `text.index`. */
  datatype Next = Goes(to: StatePosition) | Stays | Raises

  function GetNextState(text: string, sp: StatePosition): Next {
    match sp.state
    case Normal =>
      var tag := Find(text, "<", sp.search);
      if tag == -1 then Stays
      else if tag + 4 <= |text| && text[tag + 1..tag + 4] == "!--" then Goes(StatePosition(Comment, tag, tag + 4))
      else Goes(StatePosition(Element, tag, tag + 1))
    case Comment =>
      var end := Find(text, "-->", sp.search);
      if end == -1 then Stays else Goes(At(Normal, end + 3))
    case Element =>
      var end := Search(text, sp.search, InElement);
      if end == -1 then Goes(At(AttributeName, |text|))
      else if text[end] == '>' then Goes(At(Normal, end + 1))
      else Goes(At(AttributeName, end + 1))
    case ElementEnd =>
      var end := Find(text, ">", sp.search);
      if end == -1 then Raises else Goes(At(Normal, end + 1))
    case AttributeName =>
      var end := Search(text, sp.search, InAttributeName);
      if end == -1 then Stays
      else if text[end] == '>' then Goes(At(ElementEnd, sp.search))
      else if text[end] == '\'' then Goes(StatePosition(AttributeSingle, end, end + 1))
      else Goes(StatePosition(AttributeDouble, end, end + 1))
    case AttributeSingle =>
      var end := Find(text, "'", sp.search);
      if end == -1 then Stays else Goes(At(AttributeName, end + 1))
    case AttributeDouble =>
      var end := Find(text, "\"", sp.search);
      if end == -1 then Stays else Goes(At(AttributeName, end + 1))
  }

  /** States that may be followed by a state at the same position. */
  function Rank(state: XmlState): nat {
    if state.Normal? || state.AttributeName? then 1 else 0
  }

  /** What the scanner keeps at every position it reaches. */
  predicate Sound(text: string, sp: StatePosition) {
    && sp.position <= |text| && sp.position <= sp.search
    && (sp.state.Normal? || sp.state.AttributeName? || sp.state.ElementEnd? ==> sp.search == sp.position)
    && (sp.state.Element? || sp.state.ElementEnd? ==> sp.position < |text|)
    && (sp.state.ElementEnd? ==> exists k :: sp.position <= k < |text| && text[k] == '>')
  }

  /** Each step goes forward, or stays in place and goes down in rank; and it keeps Sound, which rules
      out the exception. */
  lemma StepIsSound(text: string, sp: StatePosition)
    requires Sound(text, sp) && sp.position < |text|
    ensures var next := GetNextState(text, sp);
            && !next.Raises?
            && (next.Goes? ==>
                  && Sound(text, next.to)
                  && sp.position <= next.to.position
                  && (next.to.position == sp.position ==> Rank(next.to.state) < Rank(sp.state)))
            && (next.Stays? ==> !sp.state.Element? && !sp.state.ElementEnd?)
  {
    if sp.state.ElementEnd? {
      var k :| sp.position <= k < |text| && text[k] == '>';
      assert OccursAt(text, ">", k);
    }
  }

  /** States a line may end in, and so the next one start in. */
  predicate Restful(state: XmlState) {
    !state.Element? && !state.ElementEnd?
  }

  /** The next position of the loop: without a next state, the end of the line in the same state. */
  function Advance(text: string, sp: StatePosition): (to: StatePosition)
    requires Sound(text, sp) && sp.position < |text|
    ensures Sound(text, to) && sp.position <= to.position
    ensures to.position == sp.position ==> Rank(to.state) < Rank(sp.state)
    ensures to.position == |text| && sp.state != to.state ==> Restful(to.state)
    ensures to.state == sp.state ==> Restful(to.state)
  {
    StepIsSound(text, sp);
    var next := GetNextState(text, sp);
    if next.Goes? then next.to else At(sp.state, |text|)
  }

  method NextPosition(text: string, sp: StatePosition) returns (to: StatePosition)
    requires Sound(text, sp) && sp.position < |text|
    ensures to == Advance(text, sp)
  {
    StepIsSound(text, sp);
    var next := GetNextState(text, sp);
    to := if next.Goes? then next.to else At(sp.state, |text|);
  }

  // ----- one line

  datatype Scanned = Scanned(states: seq<XmlState>, final: XmlState)

  /** The state of each character from here on, and the state at the end of the line. */
  function Scan(text: string, sp: StatePosition): (s: Scanned)
    requires Sound(text, sp)
    ensures |s.states| == |text| - sp.position
    decreases |text| - sp.position, Rank(sp.state)
  {
    if sp.position == |text| then Scanned([], sp.state)
    else
      var to := Advance(text, sp);
      var rest := Scan(text, to);
      rest.(states := Repeat(sp.state, to.position - sp.position) + rest.states)
  }

  /** A line that starts in a state that lines end in: the loop terminates, no lookup raises, the
      spans tile the line, and the line ends in such a state again. A span of no characters is
      followed by one of another state at the same position. */
  method HighlightBlock(text: string, start: XmlState) returns (spans: seq<Span<XmlState>>, final: XmlState)
    requires Restful(start)
    ensures Tiles(spans, |text|) && Restful(final)
    ensures Scanned(Painted(spans), final) == Scan(text, At(start, 0))
  {
    hide GetNextState;
    spans := [];
    var sp := At(start, 0);
    while sp.position < |text|
      invariant Reached(text, At(start, 0), spans, sp)
      invariant sp.position == |text| ==> Restful(sp.state)
      decreases |text| - sp.position, Rank(sp.state)
    {
      var to := NextPosition(text, sp);
      ReachNext(text, At(start, 0), spans, sp);
      spans := spans + [Span(sp.position, to.position - sp.position, sp.state)];
      sp := to;
    }
    final := sp.state;
    assert Painted(spans) + [] == Painted(spans);
  }

  /** The spans so far and the scan of the rest make up the scan of the line. */
  ghost predicate Reached(text: string, start: StatePosition, spans: seq<Span<XmlState>>, sp: StatePosition) {
    && Sound(text, start) && Sound(text, sp) && Tiles(spans, sp.position)
    && var s := Scan(text, sp);
    && Scan(text, start) == Scanned(Painted(spans) + s.states, s.final)
  }

  lemma ReachNext(text: string, start: StatePosition, spans: seq<Span<XmlState>>, sp: StatePosition)
    requires Reached(text, start, spans, sp) && sp.position < |text|
    ensures var to := Advance(text, sp);
            Reached(text, start, spans + [Span(sp.position, to.position - sp.position, sp.state)], to)
  {
    hide GetNextState;
    var to := Advance(text, sp);
    var span := Span(sp.position, to.position - sp.position, sp.state);
    PaintNext(spans, span, Scan(text, to).states);
    TilesSnoc(spans, span);
  }

  /** From ElementEnd, in which no line ends, the lookup raises exactly when there is no `>`. */
  lemma ElementEndRaisesExactlyWhen(text: string, p: nat)
    ensures GetNextState(text, At(ElementEnd, p)).Raises? <==> forall k :: p <= k < |text| ==> text[k] != '>'
  {
    forall k | p <= k < |text| ensures OccursAt(text, ">", k) <==> text[k] == '>' {
    }
  }
}
