/** The scanner of the JSON highlighter, line by line with a stack of open delimiters, and what it does
    on printed JSON values. Formats become a list of spans. */
module JsonScanning {
  import opened Spans

  datatype CharType = Normal | Punctuation | StringValue | StringKey

  type Delims = seq<char>

  predicate IsPunctuation(c: char) {
    c == '{' || c == '}' || c == '[' || c == ']' || c == ':' || c == ',' || c == ' '
  }

  predicate TopIs(d: Delims, c: char) {
    d != [] && d[|d| - 1] == c
  }

  function Pop(d: Delims): Delims
    requires d != []
  {
    d[..|d| - 1]
  }

  /** What one punctuation character does to the stack: the five tests in their order. */
  function Push(d: Delims, c: char): Delims {
    var d1 := if (c == ',' || c == '}') && TopIs(d, ':') then Pop(d) else d;
    var d2 := if c == ':' && !TopIs(d1, ':') then d1 + [':'] else d1;
    var d3 := if c == ']' && TopIs(d2, '[') then Pop(d2) else d2;
    var d4 := if c == '}' && TopIs(d3, '{') then Pop(d3) else d3;
    if c == '[' || c == '{' then d4 + [c] else d4
  }

  /** The same said of each character, whatever the stack: an opening bracket goes onto it, and a closing one
      takes off its own opening bracket and no other; a colon goes onto it once, until a comma or a closing
      brace ends its value; and nothing else touches it. */
  lemma PushMeans(d: Delims, c: char)
    ensures c == '{' || c == '[' ==> Push(d, c) == d + [c]
    ensures c == ':' ==> Push(d, c) == if d != [] && d[|d| - 1] == ':' then d else d + [':']
    ensures c == ',' ==> Push(d, c) == if d != [] && d[|d| - 1] == ':' then d[..|d| - 1] else d
    ensures c == ']' ==> Push(d, c) == if d != [] && d[|d| - 1] == '[' then d[..|d| - 1] else d
    ensures c == '}' ==>
              Push(d, c) == if d != [] && d[|d| - 1] == '{' then d[..|d| - 1]
                            else if d == [] || d[|d| - 1] != ':' then d
                            else if |d| > 1 && d[|d| - 2] == '{' then d[..|d| - 2]
                            else d[..|d| - 1]
    ensures c !in "{}[]:," ==> Push(d, c) == d
  {
    if |d| > 1 { assert d[..|d| - 1][..|d| - 2] == d[..|d| - 2]; }
  }

  function StringType(d: Delims): CharType {
    if TopIs(d, '{') then StringKey else StringValue
  }

  // ----- where a run of characters ends

  /** A quote that does not follow a backslash. */
  predicate Closes(text: string, k: nat) {
    0 < k < |text| && text[k] == '"' && text[k - 1] != '\\'
  }

  /** The first closing quote at `from` or later, or the length of the text. */
  function ClosingQuote(text: string, from: nat): (r: nat)
    requires 0 < from <= |text|
    ensures from <= r <= |text|
    ensures r < |text| ==> Closes(text, r)
    ensures forall k :: from <= k < r ==> !Closes(text, k)
    decreases |text| - from
  {
    if from == |text| || Closes(text, from) then from else ClosingQuote(text, from + 1)
  }

  /** The length of the string token that a text starts with, or of the whole text. */
  function StringLength(text: string): (n: nat)
    requires text != []
    ensures 0 < n <= |text|
  {
    var q := ClosingQuote(text, 1);
    if q < |text| then q + 1 else |text|
  }

  /** The length of the run of characters that are not punctuation. A quote does not end it. */
  function NormalLength(text: string): (n: nat)
    ensures n <= |text|
    ensures n < |text| ==> IsPunctuation(text[n])
    ensures forall k :: 0 <= k < n ==> !IsPunctuation(text[k])
  {
    if text == [] || IsPunctuation(text[0]) then 0 else 1 + NormalLength(text[1..])
  }

  // ----- the scan of one line

  datatype Scanned = Scanned(types: seq<CharType>, delims: Delims)

  /** The type of each character of a line, and the stack at its end. */
  function Scan(text: string, d: Delims): Scanned
    decreases |text|
  {
    if text == [] then Scanned([], d)
    else if text[0] == '"' then
      var n := StringLength(text);
      var rest := Scan(text[n..], d);
      rest.(types := Repeat(StringType(d), n) + rest.types)
    else if IsPunctuation(text[0]) then
      var rest := Scan(text[1..], Push(d, text[0]));
      rest.(types := [Punctuation] + rest.types)
    else
      var n := NormalLength(text);
      var rest := Scan(text[n..], d);
      rest.(types := Repeat(Normal, n) + rest.types)
  }

  /** A string token from q on that reaches at least to i: it starts with a quote, and no closing quote comes
      before i. */
  predicate StringFrom(text: string, q: nat, i: nat) {
    q <= i < |text| && text[q] == '"' && forall k :: q < k < i ==> !Closes(text, k)
  }

  /** What is painted as punctuation are brackets, colons, commas and spaces, what is painted as normal text
      is none of these, and all else belongs to a string token. */
  ghost predicate Means(text: string, i: nat, t: CharType)
    requires i < |text|
  {
    var c := text[i];
    var marks := c == '{' || c == '}' || c == '[' || c == ']' || c == ':' || c == ',' || c == ' ';
    match t
    case Punctuation => marks
    case Normal => !marks
    case _ => exists q :: StringFrom(text, q, i)
  }

  /** This is what the types of any line mean, from whatever stack. */
  lemma {:induction false} TypesMean(text: string, d: Delims, i: nat)
    requires i < |text|
    ensures |Scan(text, d).types| == |text| && Means(text, i, Scan(text, d).types[i])
    decreases |text|
  {
    hide Scan, Means, Closes, IsPunctuation;
    ScanLength(text, d);
    var n, d' := FirstToken(text, d);
    if i < n {
      FirstMeans(text, n, i);
    } else {
      ScanLength(text[n..], d');
      TypesMean(text[n..], d', i - n);
      MeaningMoves(text, n, i, Scan(text[n..], d').types[i - n]);
    }
  }

  lemma FirstMeans(text: string, n: nat, i: nat)
    requires i < n <= |text| && (text[0] != '"' && IsPunctuation(text[0]) ==> n == 1)
    requires text[0] != '"' && !IsPunctuation(text[0]) ==> forall k :: 0 <= k < n ==> !IsPunctuation(text[k])
    requires text[0] == '"' ==> forall k :: 0 < k < n - 1 ==> !Closes(text, k)
    ensures text[0] == '"' ==> Means(text, i, StringKey) && Means(text, i, StringValue)
    ensures text[0] != '"' ==> Means(text, i, if IsPunctuation(text[0]) then Punctuation else Normal)
  {
    if text[0] == '"' { assert StringFrom(text, 0, i); }
  }

  lemma MeaningMoves(text: string, n: nat, i: nat, t: CharType)
    requires n <= i < |text| && Means(text[n..], i - n, t)
    ensures Means(text, i, t)
  {
    if !t.Punctuation? && !t.Normal? {
      var q :| StringFrom(text[n..], q, i - n);
      StringMoves(text, n, q, i - n);
    }
  }

  /** The first token of a line, and the stack after it. */
  lemma FirstToken(text: string, d: Delims) returns (n: nat, d': Delims)
    requires text != []
    ensures 0 < n <= |text|
    ensures var t := if text[0] == '"' then StringType(d) else if IsPunctuation(text[0]) then Punctuation else Normal;
            && Scan(text, d) == Scanned(Repeat(t, n) + Scan(text[n..], d').types, Scan(text[n..], d').delims)
            && (t == Punctuation ==> n == 1)
            && (t == Normal ==> forall k :: 0 <= k < n ==> !IsPunctuation(text[k]))
            && (text[0] == '"' ==> forall k :: 0 < k < n - 1 ==> !Closes(text, k))
  {
    n := if text[0] == '"' then StringLength(text) else if IsPunctuation(text[0]) then 1 else NormalLength(text);
    d' := if text[0] != '"' && IsPunctuation(text[0]) then Push(d, text[0]) else d;
    assert Repeat(Punctuation, 1) == [Punctuation];
  }

  lemma {:induction false} ScanLength(text: string, d: Delims)
    ensures |Scan(text, d).types| == |text|
    decreases |text|
  {
    if text != [] {
      var n, d' := FirstToken(text, d);
      ScanLength(text[n..], d');
    }
  }

  lemma StringMoves(text: string, n: nat, q: nat, i: nat)
    requires n <= |text| && StringFrom(text[n..], q, i)
    ensures StringFrom(text, n + q, n + i)
  {
    forall k | n + q < k < n + i ensures !Closes(text, k) {
      assert !Closes(text[n..], k - n);
    }
  }

  /** `text.find('"', from)`, or -1. */
  method FindQuote(text: string, from: nat) returns (r: int)
    requires from <= |text|
    ensures r == -1 || (from <= r < |text| && text[r] == '"')
    ensures forall k :: from <= k < |text| && (r == -1 || k < r) ==> text[k] != '"'
  {
    r := from;
    while r < |text|
      invariant from <= r <= |text|
      invariant forall k :: from <= k < r ==> text[k] != '"'
    {
      if text[r] == '"' {
        return;
      }
      r := r + 1;
    }
    r := -1;
  }

  /** Scanning from `position` gives type t up to `next` and goes on from there. */
  ghost predicate Paints(text: string, position: nat, d: Delims, t: CharType, next: nat, d': Delims) {
    && position <= next <= |text|
    && var s := Scan(text[next..], d');
    && Scan(text[position..], d) == Scanned(Repeat(t, next - position) + s.types, s.delims)
  }

  ghost predicate Steps(text: string, position: nat, d: Delims, t: CharType, next: nat, d': Delims) {
    position < next && Paints(text, position, d, t, next, d')
  }

  method ScanString(text: string, position: nat, ghost d: Delims) returns (nextPosition: nat)
    requires position < |text| && text[position] == '"'
    ensures Steps(text, position, d, StringType(d), nextPosition, d)
  {
    hide Steps, Paints;
    var nextQuote := FindQuote(text, position + 1);
    while nextQuote != -1 && text[nextQuote - 1] == '\\'
      invariant nextQuote == -1 || (position < nextQuote < |text| && text[nextQuote] == '"')
      invariant forall k :: position < k < (if nextQuote == -1 then |text| else nextQuote) ==> !Closes(text, k)
      decreases if nextQuote == -1 then 0 else |text| - nextQuote
    {
      assert !Closes(text, nextQuote);
      nextQuote := FindQuote(text, nextQuote + 1);
    }
    nextPosition := if nextQuote != -1 then nextQuote + 1 else |text|;
    StringSteps(text, position, d, if nextQuote != -1 then nextQuote else |text|);
  }

  lemma StringSteps(text: string, position: nat, d: Delims, end: nat)
    requires position < end <= |text| && text[position] == '"'
    requires end < |text| ==> Closes(text, end)
    requires forall k :: position < k < end ==> !Closes(text, k)
    ensures Steps(text, position, d, StringType(d), if end < |text| then end + 1 else end, d)
  {
    var token, next := text[position..], if end < |text| then end + 1 else end;
    forall k | 1 <= k <= end - position ensures Closes(token, k) <==> Closes(text, position + k) {
    }
    ClosingQuoteIs(token, end - position);
    assert token[next - position..] == text[next..];
  }

  lemma ClosingQuoteIs(text: string, r: nat)
    requires 0 < r <= |text|
    requires r < |text| ==> Closes(text, r)
    requires forall k :: 1 <= k < r ==> !Closes(text, k)
    ensures ClosingQuote(text, 1) == r
  {
  }

  method ScanPunctuation(text: string, position: nat, delims0: Delims) returns (nextPosition: nat, delims: Delims)
    requires position < |text| && IsPunctuation(text[position])
    ensures Steps(text, position, delims0, Punctuation, nextPosition, delims)
  {
    nextPosition, delims := position, delims0;
    while nextPosition < |text| && IsPunctuation(text[nextPosition])
      invariant position <= nextPosition <= |text|
      invariant nextPosition == position ==> delims == delims0
      invariant Paints(text, position, delims0, Punctuation, nextPosition, delims)
    {
      var c := text[nextPosition];
      ghost var before := delims;
      if (c == ',' || c == '}') && TopIs(delims, ':') {
        delims := Pop(delims);
      }
      if c == ':' && !TopIs(delims, ':') {
        delims := delims + [':'];
      }
      if c == ']' && TopIs(delims, '[') {
        delims := Pop(delims);
      }
      if c == '}' && TopIs(delims, '{') {
        delims := Pop(delims);
      }
      if c == '[' || c == '{' {
        delims := delims + [c];
      }
      assert delims == Push(before, c);
      OneMore(text, position, delims0, nextPosition, before);
      nextPosition := nextPosition + 1;
    }
  }

  lemma OneMore(text: string, position: nat, d0: Delims, next: nat, d: Delims)
    requires next < |text| && IsPunctuation(text[next]) && Paints(text, position, d0, Punctuation, next, d)
    ensures Paints(text, position, d0, Punctuation, next + 1, Push(d, text[next]))
  {
    assert text[next..][1..] == text[next + 1..];
    assert Repeat(Punctuation, next + 1 - position) == Repeat(Punctuation, next - position) + [Punctuation];
    Assoc(Repeat(Punctuation, next - position), [Punctuation], Scan(text[next + 1..], Push(d, text[next])).types);
  }

  method ScanNormal(text: string, position: nat, ghost d: Delims) returns (nextPosition: nat)
    requires position < |text| && text[position] != '"' && !IsPunctuation(text[position])
    ensures Steps(text, position, d, Normal, nextPosition, d)
  {
    nextPosition := position;
    while nextPosition < |text| && !IsPunctuation(text[nextPosition])
      invariant position <= nextPosition <= |text|
      invariant NormalLength(text[position..]) == nextPosition - position + NormalLength(text[nextPosition..])
    {
      assert text[nextPosition..][1..] == text[nextPosition + 1..];
      nextPosition := nextPosition + 1;
    }
    assert text[position..][nextPosition - position..] == text[nextPosition..];
  }

  /** The spans so far and the scan of the rest make up the scan of the line. */
  ghost predicate Reached(text: string, d0: Delims, spans: seq<Span<CharType>>, position: nat, d: Delims) {
    && position <= |text| && Tiles(spans, position) && NoneEmpty(spans)
    && var s := Scan(text[position..], d);
    && Scan(text, d0) == Scanned(Painted(spans) + s.types, s.delims)
  }

  lemma ReachNext(text: string, d0: Delims, spans: seq<Span<CharType>>, position: nat, d: Delims, t: CharType, next: nat, d': Delims)
    requires Reached(text, d0, spans, position, d) && Steps(text, position, d, t, next, d')
    ensures Reached(text, d0, spans + [Span(position, next - position, t)], next, d')
  {
    TilesSnoc(spans, Span(position, next - position, t));
    PaintNext(spans, Span(position, next - position, t), Scan(text[next..], d').types);
  }

  lemma Assoc(a: seq<CharType>, b: seq<CharType>, c: seq<CharType>)
    ensures a + (b + c) == a + b + c
  {
  }

  /** The scan of one line from the stack left by the line before. It terminates, and its spans tile
      the line. */
  method HighlightBlock(text: string, prevDelims: Delims) returns (spans: seq<Span<CharType>>, delims: Delims)
    ensures Tiles(spans, |text|) && NoneEmpty(spans)
    ensures Scanned(Painted(spans), delims) == Scan(text, prevDelims)
  {
    delims, spans := prevDelims, [];
    var position := 0;
    assert text[0..] == text;
    while position < |text|
      invariant Reached(text, prevDelims, spans, position, delims)
      decreases |text| - position
    {
      var charType, nextPosition;
      ghost var before := delims;
      if text[position] == '"' {
        charType := StringType(delims);
        nextPosition := ScanString(text, position, delims);
      } else if IsPunctuation(text[position]) {
        charType := Punctuation;
        nextPosition, delims := ScanPunctuation(text, position, delims);
      } else {
        charType := Normal;
        nextPosition := ScanNormal(text, position, delims);
      }
      ReachNext(text, prevDelims, spans, position, before, charType, nextPosition, delims);
      spans := spans + [Span(position, nextPosition - position, charType)];
      position := nextPosition;
    }
    assert text[|text|..] == "";
  }
}
