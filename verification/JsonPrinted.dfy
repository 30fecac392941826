/** The JSON scanner on printed JSON values: whatever the layout, the object keys are the strings marked
    as keys, and the stack of delimiters comes back to where it was. */
module JsonPrinted {
  import opened Wrappers
  import opened JsonScanning
  import opened Spans

  // ----- printed strings

  function Hex(d: nat): (c: char)
    requires d < 16
    ensures c != '"' && c != '\\'
  {
    if d < 10 then '0' + d as char else 'a' + (d - 10) as char
  }

  /** A code unit as four hexadecimal digits. */
  function Unit(n: nat): (r: string)
    requires n < 0x1_0000
    ensures |r| == 6 && r[0] == '\\' && forall k :: 1 <= k < 6 ==> r[k] != '"' && r[k] != '\\'
  {
    ['\\', 'u', Hex(n / 4096), Hex(n / 256 % 16), Hex(n / 16 % 16), Hex(n % 16)]
  }

  /** The second character of the short escapes. */
  function ShortEscape(c: char): Option<char> {
    if c == '"' || c == '\\' then Some(c)
    else if c == '\n' then Some('n') else if c == '\t' then Some('t') else if c == '\r' then Some('r')
    else if c as int == 8 then Some('b') else if c as int == 12 then Some('f')
    else None
  }

  /** A character as JSON prints it: in ASCII, with pairs of code units above 0xFFFF. */
  function EscapeChar(c: char): string {
    var n := c as int;
    if ShortEscape(c).Some? then ['\\', ShortEscape(c).value]
    else if 32 <= n < 127 then [c]
    else if n < 0x1_0000 then Unit(n)
    else Unit(0xD800 + (n - 0x1_0000) / 1024) + Unit(0xDC00 + (n - 0x1_0000) % 1024)
  }

  /** A string as JSON prints it between its quotes. */
  function Escape(s: string): string {
    if s == "" then "" else EscapeChar(s[0]) + Escape(s[1..])
  }

  predicate EndsInBackslash(s: string) {
    s != "" && s[|s| - 1] == '\\'
  }

  /** Each quote of the body follows a backslash. */
  predicate QuotesEscaped(body: string) {
    forall k :: 0 <= k < |body| && body[k] == '"' ==> k > 0 && body[k - 1] == '\\'
  }

  lemma EscapeCharEscapes(c: char)
    ensures EscapeChar(c) != "" && QuotesEscaped(EscapeChar(c)) && (EndsInBackslash(EscapeChar(c)) <==> c == '\\')
  {
    hide Hex;
    var n := c as int;
    if n >= 0x1_0000 {
      var a, b := Unit(0xD800 + (n - 0x1_0000) / 1024), Unit(0xDC00 + (n - 0x1_0000) % 1024);
      EscapedAppend(a, b);
    }
  }

  lemma {:induction false} EscapeEscapes(s: string)
    ensures QuotesEscaped(Escape(s)) && (Escape(s) == "" <==> s == "")
    ensures EndsInBackslash(Escape(s)) <==> EndsInBackslash(s)
  {
    hide EscapeChar;
    if s == "" {
    } else {
      EscapeEscapes(s[1..]);
      EscapeCharEscapes(s[0]);
      EscapedAppend(EscapeChar(s[0]), Escape(s[1..]));
      assert s[1..] != "" ==> s[|s| - 1] == s[1..][|s[1..]| - 1];
    }
  }

  lemma EscapedAppend(a: string, b: string)
    requires QuotesEscaped(a) && QuotesEscaped(b)
    ensures QuotesEscaped(a + b)
    ensures EndsInBackslash(a + b) <==> EndsInBackslash(if b == "" then a else b)
  {
    forall k | 0 <= k < |a + b| && (a + b)[k] == '"' ensures k > 0 && (a + b)[k - 1] == '\\' {
      if k >= |a| { assert (a + b)[k] == b[k - |a|]; }
    }
    if b == "" { assert a + b == a; }
  }

  function Quoted(body: string): string {
    "\"" + body + "\""
  }

  /** A printed string is scanned as one token up to its closing quote exactly when the string does not
      end in a backslash, or is the last of its line. */
  lemma StringScannedExactlyWhen(s: string, rest: string)
    ensures StringLength(Quoted(Escape(s)) + rest) == |Quoted(Escape(s))| <==> !EndsInBackslash(s) || rest == ""
  {
    EscapeEscapes(s);
    BodyScanned(Escape(s), rest);
  }

  lemma BodyScanned(body: string, rest: string)
    requires QuotesEscaped(body)
    ensures StringLength(Quoted(body) + rest) == |body| + 2 <==> !EndsInBackslash(body) || rest == ""
  {
    var text, end := Quoted(body) + rest, |body| + 1;
    assert text[end] == '"' && (body != "" ==> text[end - 1] == body[|body| - 1]);
    forall k | 1 <= k < end ensures !Closes(text, k) {
      assert text[k] == body[k - 1] && (k > 1 ==> text[k - 1] == body[k - 2]);
    }
    var q := ClosingQuote(text, 1);
    assert q >= end;
    if !EndsInBackslash(body) { ClosingQuoteIs(text, end); }
  }

  // ----- tokens

  /** Spaces are punctuation to the scanner. `isKey` says what a string is in the value printed. */
  datatype Token =
    | Lit(text: string)
    | Str(body: string, isKey: bool)
    | Punc(c: char)
    | Break

  predicate LitOk(text: string) {
    text != "" && text[0] != '"' && forall k :: 0 <= k < |text| ==> !IsPunctuation(text[k])
  }

  /** Tokens that can be told apart: literals and strings touch no literal and no string. */
  predicate Separated(toks: seq<Token>) {
    toks == [] ||
    (&& (match toks[0]
         case Lit(text) => LitOk(text) && (|toks| == 1 || toks[1].Punc? || toks[1].Break?)
         case Str(body, _) => QuotesEscaped(body) && (|toks| == 1 || toks[1].Punc? || toks[1].Break?)
         case Punc(c) => IsPunctuation(c)
         case Break => true)
     && Separated(toks[1..]))
  }

  /** Each string that ends in a backslash is the last of its line. */
  predicate Terminated(toks: seq<Token>) {
    toks == [] ||
    (&& (toks[0].Str? && EndsInBackslash(toks[0].body) ==> |toks| == 1 || toks[1].Break?)
     && Terminated(toks[1..]))
  }

  /** The stack after the tokens. */
  function After(toks: seq<Token>, d: Delims): Delims {
    if toks == [] then d
    else After(toks[1..], if toks[0].Punc? then Push(d, toks[0].c) else d)
  }

  /** Each string is at a key's place exactly when it is a key. */
  predicate KeysPlaced(toks: seq<Token>, d: Delims) {
    toks == [] ||
    (&& (toks[0].Str? ==> (toks[0].isKey <==> TopIs(d, '{')))
     && KeysPlaced(toks[1..], if toks[0].Punc? then Push(d, toks[0].c) else d))
  }

  function TextOf(t: Token): string {
    match t
    case Lit(text) => text
    case Str(body, _) => Quoted(body)
    case Punc(c) => [c]
    case Break => ""
  }

  function LineText(line: seq<Token>): string {
    if line == [] then "" else TextOf(line[0]) + LineText(line[1..])
  }

  /** The types that the characters of a token should get. */
  function TypesOf(t: Token): seq<CharType> {
    match t
    case Lit(text) => Repeat(Normal, |text|)
    case Str(body, isKey) => Repeat(if isKey then StringKey else StringValue, |body| + 2)
    case Punc(_) => [Punctuation]
    case Break => []
  }

  function LineTypes(line: seq<Token>): seq<CharType> {
    if line == [] then [] else TypesOf(line[0]) + LineTypes(line[1..])
  }

  lemma LineHead(line: seq<Token>)
    requires line != [] && Separated(line)
    requires line[0].Str? && EndsInBackslash(line[0].body) ==> |line| == 1
    ensures var text, rest := LineText(line), LineText(line[1..]);
            && (line[0].Str? ==> text != "" && text[0] == '"' && StringLength(text) == |line[0].body| + 2
                                 && text[|line[0].body| + 2..] == rest)
            && (line[0].Punc? ==> text != "" && text[0] == line[0].c && text[0] != '"' && text[1..] == rest)
            && (line[0].Lit? ==> text != "" && text[0] != '"' && !IsPunctuation(text[0]))
  {
    if line[0].Str? { BodyScanned(line[0].body, LineText(line[1..])); }
  }

  lemma LitHead(line: seq<Token>)
    requires line != [] && Separated(line) && line[0].Lit? && forall i :: 0 <= i < |line| ==> !line[i].Break?
    ensures var text, rest := LineText(line), LineText(line[1..]);
            NormalLength(text) == |line[0].text| && text[|line[0].text|..] == rest
  {
    var text, rest, n := LineText(line), LineText(line[1..]), |line[0].text|;
    if |line| > 1 {
      assert line[1].Punc? && line[1..][0] == line[1];
      LineHead(line[1..]);
      assert text[n] == line[1].c;
    }
    assert forall k :: 0 <= k < n ==> text[k] == line[0].text[k];
  }

  /** The scan of a line gives its first token the types it should get, and goes on with the others. */
  lemma TokenScanned(line: seq<Token>, d: Delims)
    requires line != [] && Separated(line) && KeysPlaced(line, d) && forall i :: 0 <= i < |line| ==> !line[i].Break?
    requires line[0].Str? && EndsInBackslash(line[0].body) ==> |line| == 1
    ensures var rest := Scan(LineText(line[1..]), if line[0].Punc? then Push(d, line[0].c) else d);
            Scan(LineText(line), d) == Scanned(TypesOf(line[0]) + rest.types, rest.delims)
  {
    LineHead(line);
    if line[0].Lit? { LitHead(line); }
  }

  /** A line of separated tokens is scanned token by token, if and only if a string that ends in a backslash
      is at most its last token. */
  lemma {:induction false} LineScanned(line: seq<Token>, d: Delims)
    requires Separated(line) && KeysPlaced(line, d) && forall i :: 0 <= i < |line| ==> !line[i].Break?
    ensures Scan(LineText(line), d).types == LineTypes(line) <==> Terminated(line)
    ensures Terminated(line) ==> Scan(LineText(line), d).delims == After(line, d)
  {
    if line != [] {
      assert !line[0].Break?;
      var more := line[1..];
      if line[0].Str? && EndsInBackslash(line[0].body) && |line| > 1 {
        assert !line[1].Break?;
        StringRunsOn(line, d);
      } else {
        var d1 := if line[0].Punc? then Push(d, line[0].c) else d;
        TokenScanned(line, d);
        LineScanned(more, d1);
        SameFront(TypesOf(line[0]), Scan(LineText(more), d1).types, LineTypes(more));
      }
    }
  }

  lemma SameFront(a: seq<CharType>, b: seq<CharType>, c: seq<CharType>)
    ensures a + b == a + c <==> b == c
  {
    if a + b == a + c {
      assert b == (a + b)[|a|..] && c == (a + c)[|a|..];
    }
  }

  /** A string that ends in a backslash and is followed by punctuation: that is painted as the string. */
  lemma StringRunsOn(line: seq<Token>, d: Delims)
    requires |line| > 1 && Separated(line) && line[0].Str? && EndsInBackslash(line[0].body) && line[1].Punc?
    ensures Scan(LineText(line), d).types != LineTypes(line)
  {
    var body, more, n := line[0].body, line[1..], |line[0].body| + 2;
    var text := LineText(line);
    assert more[0] == line[1] && LineText(more)[0] == line[1].c;
    BodyScanned(body, LineText(more));
    assert text == Quoted(body) + LineText(more) && text[0] == '"';
    assert StringLength(text) > n by { StringIsLonger(body, LineText(more)); }
    assert Scan(text, d).types[n] == StringType(d);
    assert LineTypes(line) == TypesOf(line[0]) + (TypesOf(line[1]) + LineTypes(more[1..]));
    assert LineTypes(line)[n] == Punctuation;
  }

  lemma StringIsLonger(body: string, rest: string)
    requires QuotesEscaped(body) && EndsInBackslash(body) && rest != ""
    ensures StringLength(Quoted(body) + rest) > |body| + 2
  {
    BodyScanned(body, rest);
    var text, end := Quoted(body) + rest, |body| + 1;
    forall k | 1 <= k < end ensures !Closes(text, k) {
      assert text[k] == body[k - 1] && (k > 1 ==> text[k - 1] == body[k - 2]);
    }
    assert ClosingQuote(text, 1) >= end;
  }

  // ----- several lines

  function FirstLine(doc: seq<Token>): seq<Token> {
    if doc == [] || doc[0].Break? then [] else [doc[0]] + FirstLine(doc[1..])
  }

  function OtherLines(doc: seq<Token>): Option<seq<Token>> {
    if doc == [] then None else if doc[0].Break? then Some(doc[1..]) else OtherLines(doc[1..])
  }

  lemma {:induction false} OtherLinesShorter(doc: seq<Token>)
    ensures OtherLines(doc).Some? ==> |OtherLines(doc).value| < |doc|
  {
    if doc != [] && !doc[0].Break? { OtherLinesShorter(doc[1..]); }
  }

  /** The lines of a document. */
  function Lines(doc: seq<Token>): seq<seq<Token>>
    decreases |doc|
  {
    OtherLinesShorter(doc);
    [FirstLine(doc)] + (if OtherLines(doc).Some? then Lines(OtherLines(doc).value) else [])
  }

  /** Scanning line after line, each from the stack that the one before left. */
  function ScanLines(lines: seq<seq<Token>>, d: Delims): seq<Scanned> {
    if lines == [] then []
    else
      var s := Scan(LineText(lines[0]), d);
      [s] + ScanLines(lines[1..], s.delims)
  }

  lemma {:induction false} SplitFirstLine(doc: seq<Token>, d: Delims)
    requires Separated(doc) && KeysPlaced(doc, d)
    ensures Separated(FirstLine(doc)) && KeysPlaced(FirstLine(doc), d)
    ensures forall i :: 0 <= i < |FirstLine(doc)| ==> !FirstLine(doc)[i].Break?
    ensures OtherLines(doc).None? ==> After(doc, d) == After(FirstLine(doc), d)
    ensures OtherLines(doc).Some? ==>
              var rest, d1 := OtherLines(doc).value, After(FirstLine(doc), d);
              Separated(rest) && KeysPlaced(rest, d1) && After(doc, d) == After(rest, d1)
  {
    if doc != [] && !doc[0].Break? {
      var d1 := if doc[0].Punc? then Push(d, doc[0].c) else d;
      SplitFirstLine(doc[1..], d1);
      assert FirstLine(doc)[1..] == FirstLine(doc[1..]);
      if |doc| > 1 && !doc[1].Break? { assert FirstLine(doc[1..])[0] == doc[1]; }
    }
  }

  lemma {:induction false} SplitTerminated(doc: seq<Token>)
    ensures Terminated(doc) <==>
              Terminated(FirstLine(doc)) && (OtherLines(doc).Some? ==> Terminated(OtherLines(doc).value))
  {
    if doc != [] && !doc[0].Break? {
      SplitTerminated(doc[1..]);
      assert FirstLine(doc)[1..] == FirstLine(doc[1..]);
      if |doc| > 1 && !doc[1].Break? { assert FirstLine(doc[1..])[0] == doc[1]; }
    }
  }

  /** Each line gets the types it should get if and only if each string that ends in a backslash is the
      last of its line; and then the last line leaves the stack that the document leaves. */
  lemma {:induction false} DocumentScanned(doc: seq<Token>, d: Delims)
    requires Separated(doc) && KeysPlaced(doc, d)
    ensures var lines := Lines(doc);
            && |ScanLines(lines, d)| == |lines| > 0
            && ((forall k :: 0 <= k < |lines| ==> ScanLines(lines, d)[k].types == LineTypes(lines[k])) <==> Terminated(doc))
            && (Terminated(doc) ==> ScanLines(lines, d)[|lines| - 1].delims == After(doc, d))
    decreases |doc|
  {
    OtherLinesShorter(doc);
    SplitFirstLine(doc, d);
    SplitTerminated(doc);
    LineScanned(FirstLine(doc), d);
    var lines := Lines(doc);
    LinesScanned(lines, d);
    if Terminated(FirstLine(doc)) {
      var d1 := After(FirstLine(doc), d);
      if OtherLines(doc).Some? {
        var rest := OtherLines(doc).value;
        DocumentScanned(rest, d1);
        assert lines[1..] == Lines(rest);
        FirstAndRest(lines, d, d1);
      } else {
        assert lines == [FirstLine(doc)];
      }
    } else {
      assert lines[0] == FirstLine(doc);
    }
  }

  lemma {:induction false} LinesScanned(lines: seq<seq<Token>>, d: Delims)
    ensures |ScanLines(lines, d)| == |lines|
    ensures lines != [] ==> ScanLines(lines, d)[0] == Scan(LineText(lines[0]), d)
  {
    if lines != [] { LinesScanned(lines[1..], Scan(LineText(lines[0]), d).delims); }
  }

  lemma FirstAndRest(lines: seq<seq<Token>>, d: Delims, d1: Delims)
    requires |lines| > 1 && Scan(LineText(lines[0]), d) == Scanned(LineTypes(lines[0]), d1)
    ensures var all, rest := ScanLines(lines, d), ScanLines(lines[1..], d1);
            && |all| == |lines| == |rest| + 1 && all[|lines| - 1] == rest[|rest| - 1]
            && ((forall k :: 0 <= k < |lines| ==> all[k].types == LineTypes(lines[k])) <==>
                (forall k :: 0 <= k < |rest| ==> rest[k].types == LineTypes(lines[1..][k])))
  {
    LinesScanned(lines, d);
    LinesScanned(lines[1..], d1);
    var all, rest := ScanLines(lines, d), ScanLines(lines[1..], d1);
    assert all == [Scan(LineText(lines[0]), d)] + rest;
    if forall k :: 0 <= k < |lines| ==> all[k].types == LineTypes(lines[k]) {
      forall k | 0 <= k < |rest| ensures rest[k].types == LineTypes(lines[1..][k]) {
        assert all[k + 1] == rest[k] && lines[1..][k] == lines[k + 1];
      }
    }
    if forall k :: 0 <= k < |rest| ==> rest[k].types == LineTypes(lines[1..][k]) {
      forall k | 0 <= k < |lines| ensures all[k].types == LineTypes(lines[k]) {
        if k > 0 { assert all[k] == rest[k - 1] && lines[1..][k - 1] == lines[k]; }
      }
    }
  }

  // ----- JSON values

  datatype Json =
    | Literal(text: string)
    | JsonString(s: string)
    | Array(items: seq<Json>)
    | Object(members: seq<Member>)

  datatype Member = Member(key: string, value: Json)

  function Tokens(v: Json): seq<Token>
    decreases v
  {
    match v
    case Literal(text) => [Lit(text)]
    case JsonString(s) => [Str(Escape(s), false)]
    case Array(items) => [Punc('[')] + ItemTokens(items) + [Punc(']')]
    case Object(members) => [Punc('{')] + MemberTokens(members) + [Punc('}')]
  }

  function ItemTokens(items: seq<Json>): seq<Token>
    decreases items
  {
    if items == [] then []
    else Tokens(items[0]) + (if |items| == 1 then [] else [Punc(',')] + ItemTokens(items[1..]))
  }

  function MemberTokens(members: seq<Member>): seq<Token>
    decreases members
  {
    if members == [] then []
    else
      [Str(Escape(members[0].key), true), Punc(':')] + Tokens(members[0].value)
      + (if |members| == 1 then [] else [Punc(',')] + MemberTokens(members[1..]))
  }

  /** Literals are words or numbers. */
  predicate Printable(v: Json)
    decreases v
  {
    match v
    case Literal(text) => LitOk(text)
    case JsonString(_) => true
    case Array(items) => forall i :: 0 <= i < |items| ==> Printable(items[i])
    case Object(members) => forall i :: 0 <= i < |members| ==> Printable(members[i].value)
  }

  /** A place where a value may stand: not where a key is expected. */
  predicate ValuePlace(d: Delims) {
    !TopIs(d, '{')
  }

  lemma {:induction false} AfterAppend(a: seq<Token>, b: seq<Token>, d: Delims)
    ensures After(a + b, d) == After(b, After(a, d))
    ensures KeysPlaced(a + b, d) <==> KeysPlaced(a, d) && KeysPlaced(b, After(a, d))
  {
    if a == [] {
      assert a + b == b;
    } else {
      assert (a + b)[1..] == a[1..] + b;
      AfterAppend(a[1..], b, if a[0].Punc? then Push(d, a[0].c) else d);
    }
  }

  lemma {:induction false} SeparatedAppend(a: seq<Token>, b: seq<Token>)
    requires Separated(a) && Separated(b) && (b == [] || b[0].Punc? || a == [] || a[|a| - 1].Punc?)
    ensures Separated(a + b)
  {
    if a == [] {
      assert a + b == b;
    } else {
      assert (a + b)[1..] == a[1..] + b;
      SeparatedAppend(a[1..], b);
    }
  }

  lemma OnePunc(c: char, d: Delims)
    requires IsPunctuation(c)
    ensures Separated([Punc(c)]) && After([Punc(c)], d) == Push(d, c) && KeysPlaced([Punc(c)], d)
  {
    assert [Punc(c)][1..] == [];
  }

  /** Tokens that can be told apart, with the keys in their places, and that take the stack from d to
      e. */
  ghost predicate Leads(toks: seq<Token>, d: Delims, e: Delims) {
    Separated(toks) && KeysPlaced(toks, d) && After(toks, d) == e
  }

  lemma LeadsAppend(a: seq<Token>, b: seq<Token>, d: Delims, e: Delims, f: Delims)
    requires Leads(a, d, e) && Leads(b, e, f) && (b == [] || b[0].Punc? || a == [] || a[|a| - 1].Punc?)
    ensures Leads(a + b, d, f)
  {
    AfterAppend(a, b, d);
    SeparatedAppend(a, b);
  }

  lemma PuncLeads(c: char, d: Delims)
    requires IsPunctuation(c)
    ensures Leads([Punc(c)], d, Push(d, c))
  {
    OnePunc(c, d);
  }

  /** A value leaves the stack as it found it. */
  lemma {:induction false} ValueLeads(v: Json, d: Delims)
    requires Printable(v) && ValuePlace(d)
    ensures Leads(Tokens(v), d, d)
    decreases v
  {
    match v
    case Literal(text) => assert [Lit(text)][1..] == [];
    case JsonString(s) =>
      EscapeEscapes(s);
      assert [Str(Escape(s), false)][1..] == [];
    case Array(items) =>
      var e := d + ['['];
      PuncLeads('[', d);
      ItemsLead(items, e);
      PuncLeads(']', e);
      assert Push(d, '[') == e && Push(e, ']') == d;
      LeadsAppend([Punc('[')], ItemTokens(items), d, e, e);
      LeadsAppend([Punc('[')] + ItemTokens(items), [Punc(']')], d, e, d);
    case Object(members) =>
      var e := d + ['{'];
      var f := if members == [] then e else e + [':'];
      PuncLeads('{', d);
      MembersLead(members, e);
      PuncLeads('}', f);
      assert Push(d, '{') == e;
      CloseBrace(d);
      LeadsAppend([Punc('{')], MemberTokens(members), d, e, f);
      LeadsAppend([Punc('{')] + MemberTokens(members), [Punc('}')], d, f, d);
  }

  lemma CloseBrace(d: Delims)
    ensures Push(d + ['{'], '}') == d && Push(d + ['{'] + [':'], '}') == d
    ensures Push(d + ['{'], ':') == d + ['{'] + [':'] && Push(d + ['{'] + [':'], ',') == d + ['{']
  {
    assert Pop(d + ['{'] + [':']) == d + ['{'] && Pop(d + ['{']) == d;
  }

  lemma {:induction false} ItemsLead(items: seq<Json>, e: Delims)
    requires (forall i :: 0 <= i < |items| ==> Printable(items[i])) && TopIs(e, '[')
    ensures Leads(ItemTokens(items), e, e)
    decreases items
  {
    if items != [] {
      ValueLeads(items[0], e);
      if |items| > 1 {
        PuncLeads(',', e);
        ItemsLead(items[1..], e);
        LeadsAppend([Punc(',')], ItemTokens(items[1..]), e, e, e);
        LeadsAppend(Tokens(items[0]), [Punc(',')] + ItemTokens(items[1..]), e, e, e);
      } else {
        assert Tokens(items[0]) + [] == Tokens(items[0]);
      }
    }
  }

  lemma {:induction false} MembersLead(members: seq<Member>, e: Delims)
    requires forall i :: 0 <= i < |members| ==> Printable(members[i].value)
    requires TopIs(e, '{')
    ensures Leads(MemberTokens(members), e, if members == [] then e else e + [':'])
    decreases members
  {
    hide Leads, Push, TopIs, Printable;
    if members == [] {
      NothingLeads(e);
    } else {
      var f := e + [':'];
      var first := [Str(Escape(members[0].key), true), Punc(':')] + Tokens(members[0].value);
      MemberLeads(members[0], e);
      if |members| > 1 {
        CommaLeads(e);
        MembersLead(members[1..], e);
        LeadsAppend([Punc(',')], MemberTokens(members[1..]), f, e, f);
        LeadsAppend(first, [Punc(',')] + MemberTokens(members[1..]), e, f, f);
      } else {
        assert first + [] == first;
      }
    }
  }

  lemma NothingLeads(e: Delims)
    ensures Leads([], e, e)
  {
  }

  lemma CommaLeads(e: Delims)
    requires TopIs(e, '{')
    ensures Leads([Punc(',')], e + [':'], e)
  {
    hide Leads;
    assert e == Pop(e) + ['{'];
    CloseBrace(Pop(e));
    PuncLeads(',', e + [':']);
  }

  /** A key, its colon and its value. */
  lemma MemberLeads(m: Member, e: Delims)
    requires TopIs(e, '{') && Printable(m.value)
    ensures Leads([Str(Escape(m.key), true), Punc(':')] + Tokens(m.value), e, e + [':'])
    decreases m, 0
  {
    var f, key := e + [':'], [Str(Escape(m.key), true)];
    KeyLeads(m.key, e);
    ValueLeads(m.value, f);
    LeadsAppend([key[0], Punc(':')], Tokens(m.value), e, f, f);
  }

  lemma KeyLeads(k: string, e: Delims)
    requires TopIs(e, '{')
    ensures Leads([Str(Escape(k), true), Punc(':')], e, e + [':'])
  {
    hide Escape;
    var f, key := e + [':'], [Str(Escape(k), true)];
    EscapeEscapes(k);
    assert key[1..] == [];
    assert e == Pop(e) + ['{'];
    CloseBrace(Pop(e));
    PuncLeads(':', e);
    LeadsAppend(key, [Punc(':')], e, e, f);
    assert key + [Punc(':')] == [Str(Escape(k), true), Punc(':')];
  }

  // ----- any layout

  /** The tokens without spaces and line breaks. */
  function Strip(doc: seq<Token>): seq<Token> {
    if doc == [] then []
    else (if doc[0] == Punc(' ') || doc[0].Break? then [] else [doc[0]]) + Strip(doc[1..])
  }

  lemma {:induction false} LayoutIsFree(doc: seq<Token>, d: Delims)
    requires Separated(Strip(doc))
    ensures Separated(doc) && After(doc, d) == After(Strip(doc), d)
    ensures KeysPlaced(doc, d) <==> KeysPlaced(Strip(doc), d)
  {
    if doc != [] {
      if doc[0] == Punc(' ') || doc[0].Break? {
        assert Strip(doc) == Strip(doc[1..]);
        LayoutIsFree(doc[1..], d);
        assert Push(d, ' ') == d;
      } else {
        assert Strip(doc)[1..] == Strip(doc[1..]);
        LayoutIsFree(doc[1..], if doc[0].Punc? then Push(d, doc[0].c) else d);
        assert |doc| > 1 && doc[1] != Punc(' ') && !doc[1].Break? ==> Strip(doc[1..])[0] == doc[1];
      }
    }
  }

  /** A printed value, however it is laid out over lines: each line gets the types it should get, with
      the object keys and no other strings marked as keys, if and only if each string that ends in a
      backslash is the last of its line; and then the stack ends as it began. */
  lemma ValueHighlightedExactlyWhen(v: Json, doc: seq<Token>, d: Delims)
    requires Printable(v) && Strip(doc) == Tokens(v) && ValuePlace(d)
    ensures var lines := Lines(doc);
            && |ScanLines(lines, d)| == |lines| > 0
            && ((forall k :: 0 <= k < |lines| ==> ScanLines(lines, d)[k].types == LineTypes(lines[k])) <==> Terminated(doc))
            && (Terminated(doc) ==> ScanLines(lines, d)[|lines| - 1].delims == d)
  {
    ValueLeads(v, d);
    LayoutIsFree(doc, d);
    DocumentScanned(doc, d);
  }

  // ----- an input for which the scanner fails

  /** The object {"\\": 1}, whose only key is a backslash: the colon and all that follows are taken for
      a part of the key, and the brace stays on the stack. */
  lemma BackslashRunsOn()
    ensures var text := "{" + (Quoted(Escape("\\")) + ":1}");
            Scan(text, []) == Scanned([Punctuation] + Repeat(StringKey, |text| - 1), ['{'])
  {
    var key := Quoted(Escape("\\"));
    assert Escape("\\") == "\\\\" + Escape("");
    var rest := key + ":1}";
    assert rest == "\"\\\\\":1}";
    assert !Closes(rest, 3) && forall k :: 1 <= k < |rest| && k != 3 ==> rest[k] != '"';
    ClosingQuoteIs(rest, |rest|);
    KeyToTheEnd(rest);
  }

  lemma KeyToTheEnd(rest: string)
    requires rest != "" && rest[0] == '"' && StringLength(rest) == |rest|
    ensures Scan("{" + rest, []) == Scanned([Punctuation] + Repeat(StringKey, |rest|), ['{'])
  {
    assert ("{" + rest)[1..] == rest && Push([], '{') == ['{'] && rest[|rest|..] == "";
    var text, d: Delims := "{" + rest, ['{'];
    assert Scan(rest[|rest|..], d) == Scanned([], d) && StringType(d) == StringKey;
    assert Repeat(StringKey, |rest|) + [] == Repeat(StringKey, |rest|);
    assert Scan(rest, d) == Scanned(Repeat(StringKey, |rest|), d);
    assert text[0] == '{' && Scan(text, []) == Scanned([Punctuation] + Scan(text[1..], Push([], '{')).types, Scan(text[1..], Push([], '{')).delims);
  }
}
