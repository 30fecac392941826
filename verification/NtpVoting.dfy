/** The NTP probe's arithmetic and the vote over several servers, on real numbers. */
module NtpVoting {
  import opened Wrappers

  /** The thresholds, in seconds. */
  const WARN_THRESHOLD: real := 0.5
  const FAIL_THRESHOLD: real := 2.0

  datatype Severity = Good | Warn | Fail

  function Rank(s: Severity): nat {
    match s
    case Good => 0
    case Warn => 1
    case Fail => 2
  }

  function Abs(x: real): real {
    if x < 0.0 then -x else x
  }

  function Classify(offset: real): Severity {
    if Abs(offset) >= FAIL_THRESHOLD then Fail else if Abs(offset) >= WARN_THRESHOLD then Warn else Good
  }

  // ----- one server

  /** `offset` and `rtt` are None when the server was not reached. */
  datatype Result = Result(ok: bool, offset: Option<real>, rtt: Option<real>, severity: Severity)

  /** The result of a reply: sent at t0 and received at t3 by the local clock, received at t1 and sent
      at t2 by the server's. */
  function Reply(t0: real, t1: real, t2: real, t3: real): Result {
    var offset := ((t1 - t0) + (t2 - t3)) / 2.0;
    Result(true, Some(offset), Some((t3 - t0) - (t2 - t1)), Classify(offset))
  }

  const UNREACHED := Result(false, None, None, Fail)

  /** Section 8 of RFC 5905: with a server that is ahead by theta and paths that take `out` and `back`,
      the offset is off by at most half the round trip. */
  lemma OffsetWithinHalfRtt(t0: real, theta: real, out: real, hold: real, back: real)
    requires out >= 0.0 && back >= 0.0
    ensures var t1 := t0 + out + theta;
            var r := Reply(t0, t1, t1 + hold, t0 + out + hold + back);
            && r.rtt.value == out + back && r.offset.value == theta + (out - back) / 2.0
            && Abs(r.offset.value - theta) <= r.rtt.value / 2.0
  {
    var t1 := t0 + out + theta;
    var r := Reply(t0, t1, t1 + hold, t0 + out + hold + back);
    assert r.offset.value - theta == (out - back) / 2.0;
  }

  /** A reply is a failure exactly from an offset of two seconds on, in either direction, and good exactly
      below half a second. */
  lemma ReplySeverity(t0: real, t1: real, t2: real, t3: real)
    ensures var r := Reply(t0, t1, t2, t3);
            var twice := (t1 - t0) + (t2 - t3);
            && (r.severity == Fail <==> twice >= 4.0 || twice <= -4.0)
            && (r.severity == Good <==> -1.0 < twice < 1.0)
  {
  }

  // ----- the median

  function InsertSorted(x: real, s: seq<real>): seq<real> {
    if s == [] || x <= s[0] then [x] + s else [s[0]] + InsertSorted(x, s[1..])
  }

  function Sorted(s: seq<real>): seq<real> {
    if s == [] then [] else InsertSorted(s[0], Sorted(s[1..]))
  }

  predicate Ascending(s: seq<real>) {
    forall i, j :: 0 <= i < j < |s| ==> s[i] <= s[j]
  }

  lemma AscendingCons(x: real, s: seq<real>)
    requires Ascending(s) && forall y :: y in s ==> x <= y
    ensures Ascending([x] + s)
  {
    forall i, j | 0 <= i < j < |[x] + s| ensures ([x] + s)[i] <= ([x] + s)[j] {
      assert s[j - 1] in s;
    }
  }

  lemma {:induction false} InsertElements(x: real, s: seq<real>)
    ensures multiset(InsertSorted(x, s)) == multiset(s) + multiset{x}
    ensures |InsertSorted(x, s)| == |s| + 1
  {
    if s != [] && x > s[0] {
      InsertElements(x, s[1..]);
      assert s == [s[0]] + s[1..];
    }
  }

  lemma {:induction false} InsertAscends(x: real, s: seq<real>)
    requires Ascending(s)
    ensures Ascending(InsertSorted(x, s))
  {
    forall y | y in s ensures s[0] <= y {
      var i :| 0 <= i < |s| && s[i] == y;
    }
    if s != [] && x > s[0] {
      InsertAscends(x, s[1..]);
      InsertElements(x, s[1..]);
      forall y | y in InsertSorted(x, s[1..]) ensures s[0] <= y {
        assert y in multiset(InsertSorted(x, s[1..]));
        assert y == x || y in s[1..];
      }
      AscendingCons(s[0], InsertSorted(x, s[1..]));
    } else {
      AscendingCons(x, s);
    }
  }

  lemma {:induction false} SortedIsSorted(s: seq<real>)
    ensures Ascending(Sorted(s)) && multiset(Sorted(s)) == multiset(s) && |Sorted(s)| == |s|
  {
    if s != [] {
      SortedIsSorted(s[1..]);
      InsertAscends(s[0], Sorted(s[1..]));
      InsertElements(s[0], Sorted(s[1..]));
      assert s == [s[0]] + s[1..];
    }
  }

  /** As `statistics.median` does: the middle element, or the mean of the middle two. */
  function Median(s: seq<real>): real
    requires s != []
  {
    SortedIsSorted(s);
    var a, n := Sorted(s), |s|;
    if n % 2 == 1 then a[n / 2] else (a[n / 2 - 1] + a[n / 2]) / 2.0
  }

  lemma LeastFirst(a: seq<real>, x: real)
    requires Ascending(a) && x in multiset(a)
    ensures a != [] && a[0] <= x
  {
    var i :| 0 <= i < |a| && a[i] == x;
  }

  lemma RestAscends(a: seq<real>)
    requires Ascending(a) && a != []
    ensures Ascending(a[1..]) && multiset(a[1..]) == multiset(a) - multiset{a[0]}
    ensures a[0] in multiset(a) && |a| == |multiset(a)|
  {
    assert a == [a[0]] + a[1..];
  }

  lemma SameFirst(a: seq<real>, b: seq<real>)
    requires Ascending(a) && Ascending(b) && multiset(a) == multiset(b) && a != []
    ensures b != [] && a[0] == b[0]
  {
    RestAscends(a);
    LeastFirst(b, a[0]);
    RestAscends(b);
    LeastFirst(a, b[0]);
  }

  /** The ascending order of some values is unique. */
  lemma {:induction false} OneOrder(a: seq<real>, b: seq<real>)
    requires Ascending(a) && Ascending(b) && multiset(a) == multiset(b)
    ensures a == b
    decreases |a|
  {
    hide Ascending;
    if a == [] {
      assert |b| == |multiset(b)|;
    } else {
      SameFirst(a, b);
      RestAscends(a);
      RestAscends(b);
      OneOrder(a[1..], b[1..]);
      assert a == [a[0]] + a[1..] && b == [b[0]] + b[1..];
    }
  }

  /** With the values in ascending order, b, the median is the one in the middle, or the mean of the two. */
  predicate IsMedian(m: real, b: seq<real>) {
    b != [] && 2.0 * m == b[(|b| - 1) / 2] + b[|b| / 2]
  }

  lemma MedianIs(s: seq<real>, b: seq<real>)
    requires s != [] && Ascending(b) && multiset(b) == multiset(s)
    ensures IsMedian(Median(s), b)
  {
    SortedIsSorted(s);
    OneOrder(Sorted(s), b);
    Halves(|s|);
    assert multiset(s)[s[0]] > 0;
  }

  function Within(s: seq<real>, lo: real, hi: real): nat {
    if s == [] then 0 else Within(s[1..], lo, hi) + (if lo <= s[0] <= hi then 1 else 0)
  }

  lemma {:induction false} WithinInsert(x: real, s: seq<real>, lo: real, hi: real)
    ensures Within(InsertSorted(x, s), lo, hi) == Within(s, lo, hi) + (if lo <= x <= hi then 1 else 0)
  {
    if s == [] || x <= s[0] {
      assert ([x] + s)[1..] == s;
    } else {
      WithinInsert(x, s[1..], lo, hi);
      assert ([s[0]] + InsertSorted(x, s[1..]))[1..] == InsertSorted(x, s[1..]);
    }
  }

  lemma {:induction false} WithinSorted(s: seq<real>, lo: real, hi: real)
    ensures Within(Sorted(s), lo, hi) == Within(s, lo, hi)
  {
    if s != [] {
      WithinSorted(s[1..], lo, hi);
      WithinInsert(s[0], Sorted(s[1..]), lo, hi);
    }
  }

  lemma {:induction false} WithinSplit(a: seq<real>, k: nat, lo: real, hi: real)
    requires k <= |a|
    ensures Within(a, lo, hi) == Within(a[..k], lo, hi) + Within(a[k..], lo, hi)
    ensures Within(a[..k], lo, hi) <= k
    ensures Within(a, lo, hi) <= |a|
  {
    if a == [] {
    } else if k == 0 {
      WithinSplit(a[1..], 0, lo, hi);
    } else {
      WithinSplit(a[1..], k - 1, lo, hi);
      assert a[..k][1..] == a[1..][..k - 1] && a[k..] == a[1..][k - 1..];
    }
  }

  lemma {:induction false} NoneWithin(a: seq<real>, lo: real, hi: real)
    requires forall i :: 0 <= i < |a| ==> a[i] < lo || a[i] > hi
    ensures Within(a, lo, hi) == 0
  {
    if a != [] {
      assert a == [a[0]] + a[1..];
      NoneWithin(a[1..], lo, hi);
    }
  }

  /** Half of an ascending list, from the middle on or up to it, lies outside. */
  lemma AboveMiddle(a: seq<real>, k: nat, lo: real, hi: real)
    requires Ascending(a) && k < |a| && a[k] > hi
    ensures Within(a, lo, hi) <= k
  {
    NoneWithin(a[k..], lo, hi);
    WithinSplit(a, k, lo, hi);
  }

  lemma BelowMiddle(a: seq<real>, k: nat, lo: real, hi: real)
    requires Ascending(a) && k < |a| && a[k] < lo
    ensures Within(a, lo, hi) <= |a| - k - 1
  {
    NoneWithin(a[..k + 1], lo, hi);
    WithinSplit(a, k + 1, lo, hi);
    WithinSplit(a[k + 1..], 0, lo, hi);
  }

  lemma Halves(n: nat)
    requires n > 0
    ensures 0 <= (n - 1) / 2 <= n / 2 < n
    ensures (n - 1) / 2 == if n % 2 == 1 then n / 2 else n / 2 - 1
  {
  }

  lemma MedianBetween(s: seq<real>)
    requires s != []
    ensures |Sorted(s)| == |s| && Ascending(Sorted(s)) && 0 <= (|s| - 1) / 2 <= |s| / 2 < |s|
    ensures Sorted(s)[(|s| - 1) / 2] <= Median(s) <= Sorted(s)[|s| / 2]
  {
    SortedIsSorted(s);
    Halves(|s|);
    var x, y := Sorted(s)[(|s| - 1) / 2], Sorted(s)[|s| / 2];
    assert Median(s) == if |s| % 2 == 1 then y else (x + y) / 2.0;
    MeanBetween(x, y);
  }

  lemma MeanBetween(x: real, y: real)
    requires x <= y
    ensures x <= (x + y) / 2.0 <= y
  {
  }

  /** If more than half of the values lie in an interval, so does their median. */
  lemma MajorityHoldsMedian(s: seq<real>, lo: real, hi: real)
    requires s != [] && 2 * Within(s, lo, hi) > |s|
    ensures lo <= Median(s) <= hi
  {
    MedianBetween(s);
    WithinSorted(s, lo, hi);
    if Sorted(s)[|s| / 2] > hi { AboveMiddle(Sorted(s), |s| / 2, lo, hi); }
    if Sorted(s)[(|s| - 1) / 2] < lo { BelowMiddle(Sorted(s), (|s| - 1) / 2, lo, hi); }
  }

  // ----- the vote

  function Reached(results: seq<Result>): seq<Result> {
    if results == [] then []
    else (if results[0].ok && results[0].offset.Some? then [results[0]] else []) + Reached(results[1..])
  }

  predicate AllOffsets(results: seq<Result>) {
    forall i :: 0 <= i < |results| ==> results[i].ok && results[i].offset.Some?
  }

  lemma {:induction false} ReachedHaveOffsets(results: seq<Result>)
    ensures AllOffsets(Reached(results))
  {
    if results != [] { ReachedHaveOffsets(results[1..]); }
  }

  function Offsets(results: seq<Result>): seq<real>
    requires AllOffsets(results)
  {
    seq(|results|, i requires 0 <= i < |results| => results[i].offset.value)
  }

  function Worst(results: seq<Result>): Severity
    requires results != []
  {
    if |results| == 1 then results[0].severity
    else
      var w := Worst(results[1..]);
      if Rank(w) > Rank(results[0].severity) then w else results[0].severity
  }

  function Rtts(results: seq<Result>): seq<real> {
    if results == [] then []
    else (if results[0].rtt.Some? then [results[0].rtt.value] else []) + Rtts(results[1..])
  }

  datatype Vote = Vote(
    ok: bool, offset: Option<real>, rtt: Option<real>, severity: Severity, votedFrom: nat, asked: nat)

  function Voted(results: seq<Result>): Vote {
    var oks := Reached(results);
    if oks == [] then Vote(false, None, None, Fail, 0, |results|)
    else
      ReachedHaveOffsets(results);
      var median := Median(Offsets(oks));
      var sev, worst := Classify(median), Worst(oks);
      var rtt := if Rtts(oks) == [] then None else Some(Median(Rtts(oks)));
      Vote(true, Some(median), rtt, if Rank(worst) > Rank(sev) then worst else sev, |oks|, |results|)
  }

  /** Results as the probe makes them: the severity of a reached server is that of its offset. */
  predicate Probed(results: seq<Result>) {
    forall i :: 0 <= i < |results| && results[i].ok && results[i].offset.Some? ==>
      results[i].severity == Classify(results[i].offset.value)
  }

  lemma {:induction false} ReachedProbed(results: seq<Result>)
    requires Probed(results)
    ensures Probed(Reached(results))
  {
    if results != [] { ReachedProbed(results[1..]); }
  }

  lemma {:induction false} WorstIsWorst(results: seq<Result>)
    requires results != []
    ensures forall i :: 0 <= i < |results| ==> Rank(results[i].severity) <= Rank(Worst(results))
  {
    if |results| > 1 {
      WorstIsWorst(results[1..]);
      assert results == [results[0]] + results[1..];
    }
  }

  /** An offset no smaller in size than the median. */
  lemma SomeAtLeastMedian(s: seq<real>) returns (i: nat)
    requires s != []
    ensures i < |s| && Abs(s[i]) >= Abs(Median(s))
  {
    SortedIsSorted(s);
    var a, n := Sorted(s), |s|;
    var x := if n % 2 == 0 && Median(s) < 0.0 then a[n / 2 - 1] else a[n / 2];
    assert Abs(x) >= Abs(Median(s));
    assert x in multiset(a) && x in multiset(s);
    i :| 0 <= i < |s| && s[i] == x;
  }

  /** The voted severity is that of the worst reached server: the severity of the median never
      exceeds it, so the comparison of the two always takes the worst. */
  lemma VotedSeverityIsWorst(results: seq<Result>)
    requires Probed(results) && Reached(results) != []
    ensures Voted(results).severity == Worst(Reached(results))
  {
    var oks := Reached(results);
    ReachedHaveOffsets(results);
    ReachedProbed(results);
    var i := SomeAtLeastMedian(Offsets(oks));
    WorstIsWorst(oks);
    assert oks[i].severity == Classify(Offsets(oks)[i]);
    assert Rank(Classify(Median(Offsets(oks)))) <= Rank(oks[i].severity);
  }

  /** The vote is a failure exactly if some reached server is off by two seconds or more, or none is reached;
      and good exactly if servers are reached and all are off by less than half a second. */
  lemma VotedSeverityExactlyWhen(results: seq<Result>)
    requires Probed(results)
    ensures var v, oks := Voted(results), Reached(results);
            && AllOffsets(oks)
            && (v.severity == Fail <==> oks == [] || exists i :: 0 <= i < |oks| && !(-2.0 < oks[i].offset.value < 2.0))
            && (v.severity == Good <==> oks != [] && forall i :: 0 <= i < |oks| ==> -0.5 < oks[i].offset.value < 0.5)
  {
    var oks := Reached(results);
    ReachedHaveOffsets(results);
    ReachedProbed(results);
    if oks != [] {
      VotedSeverityIsWorst(results);
      WorstIsWorst(oks);
      var i := WorstIsOne(oks);
      assert oks[i].severity == Classify(oks[i].offset.value);
      forall k | 0 <= k < |oks| ensures oks[k].severity == Classify(oks[k].offset.value) {
      }
    }
  }

  lemma {:induction false} WorstIsOne(results: seq<Result>) returns (i: nat)
    requires results != []
    ensures i < |results| && results[i].severity == Worst(results)
  {
    if |results| == 1 || Rank(Worst(results[1..])) <= Rank(results[0].severity) {
      i := 0;
    } else {
      var k := WorstIsOne(results[1..]);
      i := k + 1;
    }
  }

  /** The servers reached are those that answered, each as often as it did. */
  lemma {:induction false} ReachedAre(results: seq<Result>, r: Result)
    ensures multiset(Reached(results))[r] == if r.ok && r.offset.Some? then multiset(results)[r] else 0
  {
    if results != [] {
      ReachedAre(results[1..], r);
      assert results == [results[0]] + results[1..];
    }
  }

  /** All round trips count, where all were measured. */
  lemma {:induction false} RttsAre(results: seq<Result>)
    requires forall i :: 0 <= i < |results| ==> results[i].rtt.Some?
    ensures |Rtts(results)| == |results| && forall i :: 0 <= i < |results| ==> Rtts(results)[i] == results[i].rtt.value
  {
    if results != [] { RttsAre(results[1..]); }
  }

  /** The offset and the round trip of the vote are the medians of those of the servers reached. */
  lemma VoteIsMedian(results: seq<Result>, offsets: seq<real>, rtts: seq<real>)
    requires AllOffsets(Reached(results)) && Ascending(offsets) && multiset(offsets) == multiset(Offsets(Reached(results)))
    requires Ascending(rtts) && multiset(rtts) == multiset(Rtts(Reached(results)))
    ensures var v, oks := Voted(results), Reached(results);
            && v.ok == (oks != []) && v.votedFrom == |oks| && v.asked == |results|
            && (v.offset.Some? <==> oks != []) && (v.offset.Some? ==> IsMedian(v.offset.value, offsets))
            && (v.rtt.Some? <==> Rtts(oks) != []) && (v.rtt.Some? ==> IsMedian(v.rtt.value, rtts))
  {
    var oks := Reached(results);
    if oks != [] {
      MedianIs(Offsets(oks), offsets);
      if Rtts(oks) != [] { MedianIs(Rtts(oks), rtts); }
    }
  }

  // ----- an honest majority

  /** r is the reply of a server whose clock is ahead by theta, over paths of these delays. */
  predicate IsReply(r: Result, theta: real, t0: real, out: real, hold: real, back: real) {
    r == Reply(t0, t0 + out + theta, t0 + out + theta + hold, t0 + out + hold + back)
  }

  /** The server's clock is ahead by theta, and no path took a negative time. */
  ghost predicate Honest(r: Result, theta: real) {
    exists t0, out, hold, back :: IsReply(r, theta, t0, out, hold, back) && out >= 0.0 && back >= 0.0
  }

  ghost function HonestCount(results: seq<Result>, theta: real): nat {
    if results == [] then 0 else HonestCount(results[1..], theta) + (if Honest(results[0], theta) then 1 else 0)
  }

  lemma HonestIsNear(r: Result, theta: real)
    requires Honest(r, theta)
    ensures r.ok && r.offset.Some? && r.rtt.Some? && Abs(r.offset.value - theta) <= r.rtt.value / 2.0
  {
    var t0, out, hold, back :| IsReply(r, theta, t0, out, hold, back) && out >= 0.0 && back >= 0.0;
    OffsetWithinHalfRtt(t0, theta, out, hold, back);
  }

  lemma {:induction false} HonestAreWithin(results: seq<Result>, theta: real, error: real)
    requires AllOffsets(results)
    requires forall i :: 0 <= i < |results| && Honest(results[i], theta) ==> Abs(results[i].offset.value - theta) <= error
    ensures HonestCount(results, theta) <= Within(Offsets(results), theta - error, theta + error)
  {
    if results != [] {
      assert Offsets(results)[1..] == Offsets(results[1..]);
      HonestAreWithin(results[1..], theta, error);
    }
  }

  /** If more than half of the reached servers have the same clock and no path to one of them took a
      negative time, the vote is off by at most half of any bound on their round trips. */
  lemma VoteWithinHalfRtt(results: seq<Result>, theta: real, rtt: real)
    requires var oks := Reached(results);
             && oks != [] && 2 * HonestCount(oks, theta) > |oks|
             && forall i :: 0 <= i < |oks| && Honest(oks[i], theta) ==> oks[i].rtt.Some? && oks[i].rtt.value <= rtt
    ensures Voted(results).ok && Voted(results).offset.Some? && Abs(Voted(results).offset.value - theta) <= rtt / 2.0
  {
    var oks := Reached(results);
    ReachedHaveOffsets(results);
    forall i | 0 <= i < |oks| && Honest(oks[i], theta) ensures Abs(oks[i].offset.value - theta) <= rtt / 2.0 {
      HonestIsNear(oks[i], theta);
    }
    HonestAreWithin(oks, theta, rtt / 2.0);
    VoteWithinError(results, theta, rtt / 2.0);
  }

  /** If more than half of the reached servers are within `error` of the true offset, so is the vote. */
  lemma VoteWithinError(results: seq<Result>, theta: real, error: real)
    requires Reached(results) != [] && AllOffsets(Reached(results))
    requires 2 * Within(Offsets(Reached(results)), theta - error, theta + error) > |Reached(results)|
    ensures Voted(results).ok && Voted(results).offset.Some? && Abs(Voted(results).offset.value - theta) <= error
  {
    MajorityHoldsMedian(Offsets(Reached(results)), theta - error, theta + error);
  }
}
