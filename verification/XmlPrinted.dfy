/** Printed XML: tags, attributes, comments and the text between them, any of which may go over line
    breaks. */
module XmlPrinted {
  import opened Sequences
  import opened Spans
  import opened XmlLines
  import opened XmlScanning

  /** One attribute: what precedes its quoted value, from the end of the one before. */
  datatype Attribute = Attribute(gap: string, single: bool, value: string)

  /** A comment; a tag up to its closing bracket; or a tag with white space after its name. The tail may
      hold a slash. */
  datatype Piece =
    | Note(body: string)
    | Bare(name: string)
    | Tag(name: string, space: char, attributes: seq<Attribute>, tail: string)

  /** A piece and the text before it. */
  datatype Item = Item(before: string, piece: Piece)

  // ----- printing

  function Mark(single: bool): string {
    if single then "'" else "\""
  }

  function Quoted(a: Attribute): string {
    Mark(a.single) + a.value + Mark(a.single)
  }

  function PrintAttributes(attributes: seq<Attribute>, tail: string): string {
    if attributes == [] then tail + ">"
    else attributes[0].gap + (Quoted(attributes[0]) + PrintAttributes(attributes[1..], tail))
  }

  function Print(p: Piece): string {
    match p
    case Note(body) => "<!--" + (body + "-->")
    case Bare(name) => "<" + (name + ['>'])
    case Tag(name, space, attributes, tail) => "<" + (name + [space]) + PrintAttributes(attributes, tail)
  }

  function PrintText(items: seq<Item>, trailing: string): string {
    if items == [] then trailing
    else items[0].before + (Print(items[0].piece) + PrintText(items[1..], trailing))
  }

  // ----- the states that the characters should get; a line break gets the state its line ends in

  /** Where the last line of a string starts. */
  function LastLine(s: string): (r: nat)
    ensures r <= |s| && (r > 0 ==> s[r - 1] == '\n') && forall k :: r <= k < |s| ==> s[k] != '\n'
  {
    if s == "" then 0 else if s[|s| - 1] == '\n' then |s| else LastLine(s[..|s| - 1])
  }

  /** The line with the closing bracket is the end of the element; lines of the tail before it are not
      told from attributes. */
  function TailStates(tail: string): seq<XmlState> {
    Repeat(AttributeName, LastLine(tail)) + Repeat(ElementEnd, |tail| - LastLine(tail) + 1)
  }

  function ValueState(a: Attribute): XmlState {
    if a.single then AttributeSingle else AttributeDouble
  }

  function AttributesStates(attributes: seq<Attribute>, tail: string): seq<XmlState> {
    if attributes == [] then TailStates(tail)
    else
      var a := attributes[0];
      Repeat(AttributeName, |a.gap|) + Repeat(ValueState(a), |a.value| + 2) + AttributesStates(attributes[1..], tail)
  }

  /** A bracket, the name, and what ends it. */
  function NameStates(name: string, end: char): seq<XmlState> {
    Repeat(Element, |name| + 1) + [if end == '\n' then AttributeName else Element]
  }

  function States(p: Piece): seq<XmlState> {
    match p
    case Note(body) => Repeat(Comment, |body| + 7)
    case Bare(name) => NameStates(name, '>')
    case Tag(name, space, attributes, tail) => NameStates(name, space) + AttributesStates(attributes, tail)
  }

  function TextStates(items: seq<Item>, trailing: string): seq<XmlState> {
    if items == [] then Repeat(Normal, |trailing|)
    else Repeat(Normal, |items[0].before|) + States(items[0].piece) + TextStates(items[1..], trailing)
  }

  // ----- what can be printed

  predicate IsOpening(c: char) {
    c == '<'
  }

  predicate AttributeOk(a: Attribute) {
    Free(a.gap, InAttributeName) && Free(a.value, (c: char) => c == Mark(a.single)[0])
  }

  predicate AttributesOk(attributes: seq<Attribute>, tail: string) {
    Free(tail, InAttributeName) && forall i :: 0 <= i < |attributes| ==> AttributeOk(attributes[i])
  }

  predicate NameOk(name: string) {
    Free(name, InElement) && !("!--" <= name)
  }

  /** The first end mark after the body is the comment's own. */
  predicate NoEnd(body: string) {
    forall k :: 0 <= k < |body| ==> !OccursAt(body + "-->", "-->", k)
  }

  predicate PieceOk(p: Piece) {
    match p
    case Note(body) => NoEnd(body)
    case Bare(name) => NameOk(name)
    case Tag(name, space, attributes, tail) => NameOk(name) && IsSpace(space) && AttributesOk(attributes, tail)
  }

  predicate TextOk(items: seq<Item>, trailing: string) {
    && Free(trailing, IsOpening)
    && forall i :: 0 <= i < |items| ==> Free(items[i].before, IsOpening) && PieceOk(items[i].piece)
  }

  // ----- where strings occur

  lemma OccursSplit(text: string, a: string, b: string, p: nat)
    requires OccursAt(text, a + b, p)
    ensures OccursAt(text, a, p) && OccursAt(text, b, p + |a|)
  {
    assert text[p..p + |a|] == (a + b)[..|a|] && text[p + |a|..p + |a| + |b|] == (a + b)[|a|..];
  }

  lemma NoEndAt(body: string, j: nat)
    requires NoEnd(body) && j < |body|
    ensures !OccursAt(body + "-->", "-->", j)
  {
  }

  lemma SliceOfSlice(text: string, p: nat, n: nat, j: nat, m: nat)
    requires p + n <= |text| && j + m <= n
    ensures text[p..p + n][j..j + m] == text[p + j..p + j + m]
  {
    var a, b := text[p..p + n][j..j + m], text[p + j..p + j + m];
    assert |a| == |b| && forall k :: 0 <= k < m ==> a[k] == b[k];
  }

  lemma NoEndInside(text: string, p: nat, body: string)
    requires OccursAt(text, body + "-->", p) && NoEnd(body)
    ensures forall k :: p <= k < p + |body| ==> !OccursAt(text, "-->", k)
  {
    forall k | p <= k < p + |body| ensures !OccursAt(text, "-->", k) {
      NoEndAt(body, k - p);
      SliceOfSlice(text, p, |body| + 3, k - p, 3);
    }
  }

  // ----- pieces

  lemma FreeIsQuiet(text: string, st: XmlState, s: string, p: nat, stops: char -> bool)
    requires OccursAt(text, s, p) && Free(s, stops) && Restful(st) && !st.Comment?
    requires forall c :: Awaits(st, c) ==> stops(c)
    ensures Quiet(text, st, p, p + |s|)
  {
    OccursChars(text, s, p);
  }

  lemma OpensOnLine(text: string, q: nat)
    requires q < |text| && text[q] != '\n'
    ensures Opens(Upto(text, q), q) <==> Opens(text, q)
  {
    var e := LineEnd(text, q);
    if Opens(text, q) {
      assert text[q + 1] == text[q + 1..q + 4][0] && text[q + 2] == text[q + 1..q + 4][1];
      assert text[q + 3] == text[q + 1..q + 4][2];
      OneLine(text, q, q + 4);
      assert text[..e][q + 1..q + 4] == text[q + 1..q + 4];
    } else if q + 4 <= e {
      assert text[..e][q + 1..q + 4] == text[q + 1..q + 4];
    }
  }

  lemma NormalLeads(text: string, p: nat, before: string)
    requires OccursAt(text, before, p) && Free(before, IsOpening)
    requires p + |before| < |text| && text[p + |before|] == '<'
    ensures var q := p + |before|;
            Leads(text, At(Normal, p), Repeat(Normal, |before|),
                  if Opens(text, q) then StatePosition(Comment, q, q + 4) else StatePosition(Element, q, q + 1))
  {
    hide Leads, ScanText;
    var q := p + |before|;
    Starts(text, Normal, p);
    FreeIsQuiet(text, Normal, before, p, IsOpening);
    RunLeads(text, At(Normal, p), q);
    LastStartState(text, At(Normal, p), q);
    OpensOnLine(text, q);
  }

  lemma {:induction false} LastStartState(text: string, sp: StatePosition, q: nat)
    requires sp.position <= q <= |text|
    ensures LastStart(text, sp, q).state == sp.state
    decreases q - sp.position
  {
    var e := LineEnd(text, sp.position);
    if e < q { LastStartState(text, At(sp.state, e + 1), q); }
  }

  lemma CommentLeads(text: string, q: nat, body: string)
    requires OccursAt(text, Print(Note(body)), q) && PieceOk(Note(body))
    ensures q < |text| && text[q] == '<' && Opens(text, q)
    ensures Leads(text, StatePosition(Comment, q, q + 4), States(Note(body)), At(Normal, q + |body| + 7))
  {
    hide Leads, ScanText, OccursAt, LineEnd, NoEnd, LastStart, Quiet, Opens;
    var sp, end := StatePosition(Comment, q, q + 4), q + 4 + |body|;
    OccursSplit(text, "<!--", body + "-->", q);
    CommentOpens(text, q);
    OneLine(text, q, q + 4);
    CommentQuiet(text, q + 4, body);
    RunLeads(text, sp, end);
    LastStartState(text, sp, end);
  }

  lemma CommentQuiet(text: string, p: nat, body: string)
    requires OccursAt(text, body + "-->", p) && NoEnd(body)
    ensures Quiet(text, Comment, p, p + |body|) && Stops(text, Comment, p + |body|)
  {
    hide OccursAt, NoEnd;
    OccursSplit(text, body, "-->", p);
    NoEndInside(text, p, body);
  }

  lemma CommentOpens(text: string, q: nat)
    requires OccursAt(text, "<!--", q)
    ensures q < |text| && text[q] == '<' && Opens(text, q)
    ensures forall k :: q <= k < q + 4 ==> text[k] != '\n'
  {
    OccursChars(text, "<!--", q);
    assert "<!--" == "<" + "!--";
    OccursSplit(text, "<", "!--", q);
  }

  lemma NameOpens(text: string, q: nat, name: string, end: char)
    requires OccursAt(text, "<" + (name + [end]), q) && NameOk(name) && InElement(end)
    ensures OccursAt(text, name, q + 1) && q + 1 + |name| < |text| && text[q + 1 + |name|] == end
    ensures text[q] == '<' && !Opens(text, q) && q + 1 + |name| <= LineEnd(text, q)
  {
    OccursSplit(text, "<", name + [end], q);
    OccursSplit(text, name, [end], q + 1);
    OccursHead(text, '<', q);
    OccursHead(text, end, q + 1 + |name|);
    OccursChars(text, name, q + 1);
    if Opens(text, q) { NoCommentMark(text[q + 1..], name, end); }
    OneLine(text, q, q + 1 + |name|);
  }

  /** A name and the character that ends it. */
  lemma NameLeads(text: string, q: nat, name: string, end: char)
    requires OccursAt(text, "<" + (name + [end]), q) && NameOk(name) && InElement(end)
    ensures q < |text| && text[q] == '<' && !Opens(text, q)
    ensures Leads(text, StatePosition(Element, q, q + 1), NameStates(name, end),
                  At(if end == '>' then Normal else AttributeName, q + |name| + 2))
  {
    hide Leads, ScanText, NextAt, OccursAt, Opens, LineEnd;
    var x, sp := q + 1 + |name|, StatePosition(Element, q, q + 1);
    NameOpens(text, q, name, end);
    NameStep(text, q, name, end);
    LeadsNext(text, sp);
    if end == '\n' {
      var at := At(AttributeName, x);
      Starts(text, AttributeName, x);
      BreakHere(text, x);
      LeadsNext(text, at);
      PastLine(text, at);
      LeadsTrans(text, sp, Repeat(Element, |name| + 1), at, Repeat(AttributeName, 1), At(AttributeName, x + 1));
      assert Repeat(AttributeName, 1) == [AttributeName];
    } else {
      RepeatAppend(Element, |name| + 1, 1);
      assert Repeat(Element, 1) == [Element];
    }
  }

  lemma BreakHere(text: string, x: nat)
    requires x < |text| && text[x] == '\n'
    ensures LineEnd(text, x) == x
  {
  }

  lemma NameStep(text: string, q: nat, name: string, end: char)
    requires OccursAt(text, name, q + 1) && q + 1 + |name| < |text| && text[q + 1 + |name|] == end
    requires Free(name, InElement) && InElement(end) && q + 1 + |name| <= LineEnd(text, q)
    ensures SoundAt(text, StatePosition(Element, q, q + 1))
    ensures NextAt(text, StatePosition(Element, q, q + 1))
            == if end == '\n' then At(AttributeName, q + 1 + |name|)
               else At(if end == '>' then Normal else AttributeName, q + |name| + 2)
  {
    var x, e := q + 1 + |name|, LineEnd(text, q);
    OccursChars(text, name, q + 1);
    assert e > x <==> end != '\n';
    assert forall k :: q + 1 <= k < x ==> !InElement(text[..e][k]);
    assert Search(text[..e], q + 1, InElement) == if end == '\n' then -1 else x;
  }

  lemma NoCommentMark(t: string, name: string, end: char)
    requires |name| < |t| && t[|name|] == end && (forall k :: 0 <= k < |name| ==> t[k] == name[k])
    requires NameOk(name) && InElement(end)
    ensures !(3 <= |t| && t[..3] == "!--")
  {
    if |name| >= 3 {
      assert t[..3] == name[..3];
    } else if 3 <= |t| {
      assert t[..3][|name|] == end && !InElement("!--"[|name|]);
    }
  }

  lemma GapLeads(text: string, p: nat, a: Attribute)
    requires OccursAt(text, a.gap, p) && OccursAt(text, Mark(a.single), p + |a.gap|) && AttributeOk(a)
    ensures var q := p + |a.gap|;
            Leads(text, At(AttributeName, p), Repeat(AttributeName, |a.gap|), StatePosition(ValueState(a), q, q + 1))
  {
    hide Leads, ScanText;
    var q, sp := p + |a.gap|, At(AttributeName, p);
    assert Mark(a.single) == [Mark(a.single)[0]];
    OccursHead(text, Mark(a.single)[0], q);
    Starts(text, AttributeName, p);
    FreeIsQuiet(text, AttributeName, a.gap, p, InAttributeName);
    RunLeads(text, sp, q);
    LastStartState(text, sp, q);
  }

  lemma ValueLeads(text: string, q: nat, a: Attribute)
    requires q < |text| && text[q] != '\n' && OccursAt(text, a.value, q + 1)
    requires OccursAt(text, Mark(a.single), q + 1 + |a.value|) && AttributeOk(a)
    ensures Leads(text, StatePosition(ValueState(a), q, q + 1), Repeat(ValueState(a), |a.value| + 2),
                  At(AttributeName, q + |a.value| + 2))
  {
    hide Leads, ScanText;
    var end, sp := q + 1 + |a.value|, StatePosition(ValueState(a), q, q + 1);
    assert Mark(a.single) == [Mark(a.single)[0]];
    OccursHead(text, Mark(a.single)[0], end);
    OneLine(text, q, q + 1);
    FreeIsQuiet(text, ValueState(a), a.value, q + 1, (c: char) => c == Mark(a.single)[0]);
    RunLeads(text, sp, end);
    LastStartState(text, sp, end);
  }

  lemma AttributeLeads(text: string, p: nat, a: Attribute)
    requires OccursAt(text, a.gap + Quoted(a), p) && AttributeOk(a)
    ensures Leads(text, At(AttributeName, p), Repeat(AttributeName, |a.gap|) + Repeat(ValueState(a), |a.value| + 2),
                  At(AttributeName, p + |a.gap| + |a.value| + 2))
  {
    hide ScanText, Leads, OccursAt, Free;
    var q, mark := p + |a.gap|, Mark(a.single);
    OccursSplit(text, a.gap, Quoted(a), p);
    assert Quoted(a) == mark + (a.value + mark);
    OccursSplit(text, mark, a.value + mark, q);
    OccursSplit(text, a.value, mark, q + 1);
    GapLeads(text, p, a);
    assert mark == [mark[0]];
    OccursHead(text, mark[0], q);
    ValueLeads(text, q, a);
    LeadsTrans(text, At(AttributeName, p), Repeat(AttributeName, |a.gap|), StatePosition(ValueState(a), q, q + 1),
               Repeat(ValueState(a), |a.value| + 2), At(AttributeName, q + |a.value| + 2));
  }

  /** The state is where the last line of what it runs over starts. */
  lemma {:induction false} LastStartIs(text: string, st: XmlState, p: nat, s: string)
    requires OccursAt(text, s, p)
    ensures LastStart(text, At(st, p), p + |s|) == At(st, p + LastLine(s))
    decreases |s|
  {
    hide OccursAt, LastLine, LineEnd, LastStart;
    OccursChars(text, s, p);
    var e, q := LineEnd(text, p), p + |s|;
    LastStartNext(text, At(st, p), q);
    if e < q {
      var i := e + 1 - p;
      OccursRest(text, s, p, i);
      LastStartIs(text, st, e + 1, s[i..]);
      LastLineOfRest(s, i);
    } else {
      NoBreakInside(text, s, p);
    }
  }

  lemma LastStartNext(text: string, sp: StatePosition, q: nat)
    requires sp.position <= q <= |text|
    ensures var e := LineEnd(text, sp.position);
            LastStart(text, sp, q) == if e >= q then sp else LastStart(text, At(sp.state, e + 1), q)
  {
  }

  lemma OccursRest(text: string, s: string, p: nat, i: nat)
    requires OccursAt(text, s, p) && i <= |s|
    ensures OccursAt(text, s[i..], p + i)
  {
    SliceOfSlice(text, p, |s|, i, |s| - i);
    assert s[i..|s|] == s[i..];
  }

  lemma NoBreakInside(text: string, s: string, p: nat)
    requires p + |s| <= |text| && (forall k :: p <= k < p + |s| ==> text[k] == s[k - p]) && LineEnd(text, p) >= p + |s|
    ensures LastLine(s) == 0
  {
    var r := LastLine(s);
    if r > 0 { assert text[p + r - 1] == s[r - 1]; }
  }

  lemma LastLineOfRest(s: string, i: nat)
    requires 0 < i <= |s| && s[i - 1] == '\n'
    ensures LastLine(s) == i + LastLine(s[i..])
  {
    var a, b := LastLine(s), i + LastLine(s[i..]);
    assert a >= i;
    if b > i { assert s[b - 1] == s[i..][b - i - 1]; }
    if a > i { assert s[i..][a - 1 - i] == s[a - 1]; }
  }

  lemma TailLeads(text: string, p: nat, tail: string)
    requires OccursAt(text, tail + ">", p) && Free(tail, InAttributeName)
    ensures Leads(text, At(AttributeName, p), TailStates(tail), At(Normal, p + |tail| + 1))
  {
    hide ScanText, Leads, NextAt, Repeat, OccursAt, LastLine, SoundAt;
    OccursSplit(text, tail, ">", p);
    var q, b := p + |tail|, p + LastLine(tail);
    OccursHead(text, '>', q);
    TailRuns(text, p, tail);
    LastLineFree(text, p, tail);
    BracketStep(text, b, q);
    LeadsNext(text, At(ElementEnd, b));
    LeadsTrans(text, At(AttributeName, p), Repeat(AttributeName, b - p), At(ElementEnd, b),
               Repeat(ElementEnd, q + 1 - b), At(Normal, q + 1));
  }

  lemma TailRuns(text: string, p: nat, tail: string)
    requires OccursAt(text, tail, p) && Free(tail, InAttributeName)
    requires p + |tail| < |text| && text[p + |tail|] == '>'
    ensures Leads(text, At(AttributeName, p), Repeat(AttributeName, LastLine(tail)), At(ElementEnd, p + LastLine(tail)))
  {
    hide ScanText, Leads, SoundAt, Repeat, LastLine, LastStart, LineEnd, OccursAt, Free, Quiet, Upto;
    var q := p + |tail|;
    OccursChars(text, tail, p);
    Starts(text, AttributeName, p);
    FreeIsQuiet(text, AttributeName, tail, p, InAttributeName);
    RunLeads(text, At(AttributeName, p), q);
    LastStartIs(text, AttributeName, p, tail);
    UptoAt(text, q);
  }

  lemma UptoAt(text: string, q: nat)
    requires q < |text| && text[q] != '\n'
    ensures q < |Upto(text, q)| && Upto(text, q)[q] == text[q]
  {
  }

  lemma LastLineFree(text: string, p: nat, tail: string)
    requires OccursAt(text, tail, p) && Free(tail, InAttributeName)
    ensures var q, b := p + |tail|, p + LastLine(tail);
            b <= q <= |text| && q <= LineEnd(text, b) && forall k :: b <= k < q ==> text[k] != '>'
  {
    hide OccursAt;
    OccursChars(text, tail, p);
    OneLine(text, p + LastLine(tail), p + |tail|);
  }

  lemma BracketStep(text: string, b: nat, q: nat)
    requires b <= q < |text| && text[q] == '>' && q <= LineEnd(text, b)
    requires forall k :: b <= k < q ==> text[k] != '>'
    ensures SoundAt(text, At(ElementEnd, b)) && NextAt(text, At(ElementEnd, b)) == At(Normal, q + 1)
  {
    var line := Upto(text, b);
    assert q < |line| && line[q] == '>';
    FindsChar(line, '>', b, q);
  }

  lemma {:induction false} AttributesLead(text: string, p: nat, attributes: seq<Attribute>, tail: string)
    requires OccursAt(text, PrintAttributes(attributes, tail), p) && AttributesOk(attributes, tail)
    ensures Leads(text, At(AttributeName, p), AttributesStates(attributes, tail),
                  At(Normal, p + |PrintAttributes(attributes, tail)|))
    decreases |attributes|
  {
    hide ScanText, Leads, OccursAt, AttributeOk, Free;
    if attributes == [] {
      TailLeads(text, p, tail);
    } else {
      var a, more := attributes[0], PrintAttributes(attributes[1..], tail);
      var q := p + |a.gap| + |a.value| + 2;
      assert PrintAttributes(attributes, tail) == (a.gap + Quoted(a)) + more;
      OccursSplit(text, a.gap + Quoted(a), more, p);
      AttributeLeads(text, p, a);
      AttributesLead(text, q, attributes[1..], tail);
      LeadsTrans(text, At(AttributeName, p), Repeat(AttributeName, |a.gap|) + Repeat(ValueState(a), |a.value| + 2),
                 At(AttributeName, q), AttributesStates(attributes[1..], tail), At(Normal, q + |more|));
    }
  }

  lemma TagLeads(text: string, q: nat, name: string, space: char, attributes: seq<Attribute>, tail: string)
    requires OccursAt(text, Print(Tag(name, space, attributes, tail)), q) && PieceOk(Tag(name, space, attributes, tail))
    ensures q < |text| && text[q] == '<' && !Opens(text, q)
    ensures Leads(text, StatePosition(Element, q, q + 1), States(Tag(name, space, attributes, tail)),
                  At(Normal, q + |Print(Tag(name, space, attributes, tail))|))
  {
    hide ScanText, Leads, OccursAt, NameOk, AttributesOk, PrintAttributes, AttributesStates, NameStates, Opens;
    var open, more := "<" + (name + [space]), PrintAttributes(attributes, tail);
    OccursSplit(text, open, more, q);
    NameLeads(text, q, name, space);
    AttributesLead(text, q + |open|, attributes, tail);
    LeadsTrans(text, StatePosition(Element, q, q + 1), NameStates(name, space), At(AttributeName, q + |open|),
               AttributesStates(attributes, tail), At(Normal, q + |open| + |more|));
  }

  /** A piece after its text, from Normal back to Normal. */
  lemma ItemLeads(text: string, p: nat, i: Item)
    requires OccursAt(text, i.before + Print(i.piece), p) && Free(i.before, IsOpening) && PieceOk(i.piece)
    ensures Leads(text, At(Normal, p), Repeat(Normal, |i.before|) + States(i.piece),
                  At(Normal, p + |i.before| + |Print(i.piece)|))
  {
    hide ScanText, Leads, OccursAt, Free, Repeat, NameOk, AttributesOk, NoEnd, PrintAttributes, AttributesStates,
      NameStates, Opens;
    var q, end := p + |i.before|, p + |i.before| + |Print(i.piece)|;
    OccursSplit(text, i.before, Print(i.piece), p);
    match i.piece {
      case Note(body) => CommentLeads(text, q, body);
      case Bare(name) => NameLeads(text, q, name, '>');
      case Tag(name, space, attributes, tail) => TagLeads(text, q, name, space, attributes, tail);
    }
    NormalLeads(text, p, i.before);
    LeadsTrans(text, At(Normal, p), Repeat(Normal, |i.before|),
               if i.piece.Note? then StatePosition(Comment, q, q + 4) else StatePosition(Element, q, q + 1),
               States(i.piece), At(Normal, end));
  }

  lemma {:induction false} TextLeads(text: string, p: nat, items: seq<Item>, trailing: string)
    requires OccursAt(text, PrintText(items, trailing), p) && p + |PrintText(items, trailing)| == |text|
    requires TextOk(items, trailing)
    ensures SoundAt(text, At(Normal, p)) && ScanText(text, At(Normal, p)) == Scanned(TextStates(items, trailing), Normal)
    decreases |items|
  {
    hide ScanText, OccursAt, PieceOk, Print, States, Repeat;
    Starts(text, Normal, p);
    if items == [] {
      FreeIsQuiet(text, Normal, trailing, p, IsOpening);
      RestScanned(text, At(Normal, p));
    } else {
      var i, more := items[0], PrintText(items[1..], trailing);
      assert PrintText(items, trailing) == (i.before + Print(i.piece)) + more;
      OccursSplit(text, i.before + Print(i.piece), more, p);
      ItemLeads(text, p, i);
      TextLeads(text, p + |i.before| + |Print(i.piece)|, items[1..], trailing);
    }
  }

  /** Printed XML, over any lines: the scanner starts it outside of any tag, gives each character the
      state of the part it belongs to, and ends it outside of any tag. */
  lemma TextScanned(items: seq<Item>, trailing: string)
    requires TextOk(items, trailing)
    ensures var text := PrintText(items, trailing);
            SoundAt(text, At(Normal, 0)) && ScanText(text, At(Normal, 0)) == Scanned(TextStates(items, trailing), Normal)
  {
    var text := PrintText(items, trailing);
    assert text[0..|text|] == text;
    TextLeads(text, 0, items, trailing);
  }

  /** On one line: the scanner starts it outside of any tag, and ends it so. */
  lemma LineHighlighted(items: seq<Item>, trailing: string)
    requires TextOk(items, trailing) && Free(PrintText(items, trailing), (c: char) => c == '\n')
    ensures Scan(PrintText(items, trailing), At(Normal, 0)) == Scanned(TextStates(items, trailing), Normal)
  {
    hide TextOk, PrintText, TextStates, Scan, ScanText;
    var text := PrintText(items, trailing);
    TextScanned(items, trailing);
    OneLine(text, 0, |text|);
    assert Upto(text, 0) == text;
    LineOfText(text, At(Normal, 0));
  }

  // ----- documents

  /** The spans of a document paint the lines of printed XML as they should be, wherever its comments,
      tags and attribute values go over line breaks. */
  method HighlightDocument(lines: seq<string>, ghost items: seq<Item>, ghost trailing: string)
    returns (all: seq<seq<Span<XmlState>>>, state: XmlState)
    requires lines != [] && NoBreaks(lines) && TextOk(items, trailing) && Join(lines) == PrintText(items, trailing)
    ensures |TextStates(items, trailing)| == |Join(lines)| && |all| == |lines| && state == Normal
    ensures forall i :: 0 <= i < |lines| ==> Painted(all[i]) == Cut(TextStates(items, trailing), lines)[i]
  {
    hide TextOk, PrintText, TextStates, Scan, Painted, Tiles, NoBreaks, Join;
    all, state := [], Normal;
    for i := 0 to |lines|
      invariant |all| == i && Restful(state)
      invariant ScanLines(lines, Normal)[i..] == ScanLines(lines[i..], state)
      invariant i > 0 ==> state == ScanLines(lines, Normal)[i - 1].final
      invariant forall k :: 0 <= k < i ==> Painted(all[k]) == ScanLines(lines, Normal)[k].states
    {
      var spans;
      NextLine(lines, i, state);
      spans, state := HighlightBlock(lines[i], state);
      all := all + [spans];
    }
    DocumentStates(lines, items, trailing);
  }

  lemma NextLine(lines: seq<string>, i: nat, state: XmlState)
    requires i < |lines| && Restful(state) && ScanLines(lines, Normal)[i..] == ScanLines(lines[i..], state)
    ensures var s := Scan(lines[i], At(state, 0));
            && Restful(s.final) && ScanLines(lines, Normal)[i] == s
            && ScanLines(lines, Normal)[i + 1..] == ScanLines(lines[i + 1..], s.final)
  {
    var all := ScanLines(lines, Normal);
    ScanRests(lines[i], At(state, 0));
    assert lines[i..][1..] == lines[i + 1..] && all[i..][1..] == all[i + 1..] && all[i] == all[i..][0];
  }

  lemma DocumentStates(lines: seq<string>, items: seq<Item>, trailing: string)
    requires lines != [] && NoBreaks(lines) && TextOk(items, trailing) && Join(lines) == PrintText(items, trailing)
    ensures |TextStates(items, trailing)| == |Join(lines)|
    ensures var all := ScanLines(lines, Normal);
            && all[|lines| - 1].final == Normal
            && forall i :: 0 <= i < |lines| ==> all[i].states == Cut(TextStates(items, trailing), lines)[i]
  {
    hide TextOk, PrintText, TextStates, ScanText, NoBreaks;
    var text := Join(lines);
    assert text[0..] == text;
    TextScanned(items, trailing);
    LinesScanned(text, 0, lines, Normal);
  }
}
