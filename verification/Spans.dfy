/** The formats that a highlighter sets: spans of characters of one kind. */
module Spans {
  datatype Span<T> = Span(start: nat, count: nat, kind: T)

  function Repeat<T>(kind: T, n: nat): (r: seq<T>)
    ensures |r| == n
  {
    seq(n, _ => kind)
  }

  /** The spans follow each other, from the start of a line of this length to its end. */
  predicate Tiles<T>(spans: seq<Span<T>>, length: nat) {
    if spans == [] then length == 0
    else
      var last := spans[|spans| - 1];
      last.start + last.count == length && Tiles(spans[..|spans| - 1], last.start)
  }

  predicate NoneEmpty<T>(spans: seq<Span<T>>) {
    forall i :: 0 <= i < |spans| ==> spans[i].count > 0
  }

  /** The kinds that the spans give to the characters. */
  function Painted<T>(spans: seq<Span<T>>): seq<T> {
    if spans == [] then []
    else Painted(spans[..|spans| - 1]) + Repeat(spans[|spans| - 1].kind, spans[|spans| - 1].count)
  }

  lemma TilesSnoc<T>(spans: seq<Span<T>>, s: Span<T>)
    requires Tiles(spans, s.start)
    ensures Tiles(spans + [s], s.start + s.count)
  {
    assert (spans + [s])[..|spans|] == spans;
  }

  lemma PaintNext<T>(spans: seq<Span<T>>, s: Span<T>, more: seq<T>)
    ensures Painted(spans) + (Repeat(s.kind, s.count) + more) == Painted(spans + [s]) + more
  {
    assert (spans + [s])[..|spans|] == spans;
  }
}
