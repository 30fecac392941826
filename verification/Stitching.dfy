/** The second half of the track stitcher: chains of track ids are built from an assignment by list
    insertion, merged pairwise, and the tracks of each chain are joined.

    The assignment maps a track id to the id that follows it, or to None. No id follows two others,
    since it is the result of a linear sum assignment. Tracks are values here: the id of each track
    mapped to its states. */
module Stitching {
  import opened Sequences
  import opened Wrappers

  type TrackId = int
  type Chain = seq<TrackId>
  type Assignment = map<TrackId, Option<TrackId>>

  // ----- assignments, chains and cycles

  predicate Edge(x: Assignment, a: TrackId, b: TrackId) {
    a in x && x[a] == Some(b)
  }

  ghost predicate Injective(x: Assignment) {
    forall a, a', b :: Edge(x, a, b) && Edge(x, a', b) ==> a == a'
  }

  /** Each element is assigned the next one. */
  predicate Path(x: Assignment, l: Chain) {
    |l| >= 2 && forall j :: 0 <= j < |l| - 1 ==> Edge(x, l[j], l[j + 1])
  }

  predicate Cycle(x: Assignment, l: Chain) {
    Path(x, l) && l[0] == l[|l| - 1]
  }

  ghost predicate Acyclic(x: Assignment) {
    forall l :: !Cycle(x, l)
  }

  /** The chains are paths, and each edge is a consecutive pair of one chain, at one place. */
  ghost predicate Chains(x: Assignment, chains: set<Chain>) {
    && (forall l :: l in chains ==> Path(x, l))
    && (forall l, l', j, j' ::
          l in chains && l' in chains && 0 <= j < |l| - 1 && 0 <= j' < |l'| - 1 && l[j] == l'[j'] ==>
            l == l' && j == j')
    && (forall a, b :: Edge(x, a, b) ==> Covered(chains, a))
  }

  ghost predicate Covered(chains: set<Chain>, a: TrackId) {
    exists l, j :: l in chains && 0 <= j < |l| - 1 && l[j] == a
  }

  function Elements<T>(s: seq<T>): set<T> {
    set e | e in s
  }

  ghost predicate Chained(x: Assignment, combo: seq<Chain>) {
    Distinct(combo) && Chains(x, Elements(combo))
  }

  predicate Joins(a: Chain, b: Chain)
    requires |a| > 0 && |b| > 0
  {
    a[|a| - 1] == b[0]
  }

  function Last(l: Chain): TrackId
    requires |l| > 0
  {
    l[|l| - 1]
  }

  /** No vertex is at two places. */
  ghost predicate Disjoint(combo: seq<Chain>) {
    forall i, i', j, j' ::
      (0 <= i < |combo| && 0 <= i' < |combo| && 0 <= j < |combo[i]| && 0 <= j' < |combo[i']| && combo[i][j] == combo[i'][j'])
      ==> i == i' && j == j'
  }

  /** What the stitcher must find: the edges as paths that share no vertex and cannot be extended. */
  ghost predicate MaximalPaths(x: Assignment, combo: seq<Chain>) {
    && Chained(x, combo)
    && Disjoint(combo)
    && (forall l, a :: l in combo && |l| > 0 ==> !Edge(x, a, l[0]))
    && (forall l, b :: l in combo && |l| > 0 ==> !Edge(x, Last(l), b))
  }

  // ----- list operations

  function IndexOf(l: Chain, v: TrackId): (i: nat)
    requires v in l
    ensures i < |l| && l[i] == v && v !in l[..i]
  {
    if l[0] == v then 0 else 1 + IndexOf(l[1..], v)
  }

  function Insert(l: Chain, i: nat, v: TrackId): Chain
    requires i <= |l|
  {
    l[..i] + [v] + l[i..]
  }

  function Remove<T(==)>(s: seq<T>, e: T): seq<T> {
    if s == [] then [] else if s[0] == e then s[1..] else [s[0]] + Remove(s[1..], e)
  }

  lemma {:induction false} RemoveElements<T>(s: seq<T>, e: T)
    requires Distinct(s)
    ensures Distinct(Remove(s, e)) && Elements(Remove(s, e)) == Elements(s) - {e}
    ensures |Remove(s, e)| == |s| - (if e in s then 1 else 0)
  {
    if s != [] {
      assert s == [s[0]] + s[1..];
      assert s[0] !in s[1..];
      if s[0] == e {
        assert Elements(s[1..]) == Elements(s) - {e};
      } else {
        RemoveElements(s[1..], e);
        assert s[0] !in Elements(Remove(s[1..], e));
        assert Elements(Remove(s, e)) == {s[0]} + Elements(Remove(s[1..], e));
        assert Elements(s) == {s[0]} + Elements(s[1..]);
      }
    }
  }

  // ----- building the chains

  predicate Occurs(combo: seq<Chain>, v: TrackId) {
    exists i :: 0 <= i < |combo| && v in combo[i]
  }

  /** Inserts `v` beside every occurring `mark`: before it, or after it. */
  function InsertBeside(l: Chain, mark: TrackId, v: TrackId, after: bool): Chain {
    if mark in l then Insert(l, IndexOf(l, mark) + (if after then 1 else 0), v) else l
  }

  method InsertAll(combo: seq<Chain>, mark: TrackId, v: TrackId, after: bool) returns (r: seq<Chain>)
    ensures |r| == |combo|
    ensures forall i :: 0 <= i < |r| ==> r[i] == InsertBeside(combo[i], mark, v, after)
  {
    r := combo;
    for i := 0 to |combo|
      invariant |r| == |combo|
      invariant forall k :: 0 <= k < i ==> r[k] == InsertBeside(combo[k], mark, v, after)
      invariant forall k :: i <= k < |r| ==> r[k] == combo[k]
    {
      if mark in r[i] {
        r := r[i := Insert(r[i], IndexOf(r[i], mark) + (if after then 1 else 0), v)];
      }
    }
  }

  lemma PathPair(x: Assignment, l: Chain, j: int)
    requires Path(x, l)
    ensures 0 <= j < |l| - 1 ==> Edge(x, l[j], l[j + 1])
  {
  }

  /** Where the ends of an edge that is not yet part of any chain can occur: the key as the last
      element of one chain, its successor as the first of one. */
  lemma KeyIsLast(x: Assignment, chains: set<Chain>, key: TrackId, l: Chain, j: nat)
    requires Chains(x, chains) && key !in x
    requires l in chains && j < |l| && l[j] == key
    ensures j == |l| - 1
  {
    assert j < |l| - 1 ==> Edge(x, l[j], l[j + 1]);
  }

  lemma ValueIsFirst(x: Assignment, chains: set<Chain>, v: TrackId, l: Chain, j: nat)
    requires Chains(x, chains) && forall a :: !Edge(x, a, v)
    requires l in chains && j < |l| && l[j] == v
    ensures j == 0
  {
    PathPair(x, l, j - 1);
  }

  lemma PathGrows(x: Assignment, key: TrackId, v: Option<TrackId>, l: Chain)
    requires Path(x, l) && key !in x
    ensures Path(x[key := v], l)
  {
    forall j | 0 <= j < |l| - 1 ensures Edge(x[key := v], l[j], l[j + 1]) { assert Edge(x, l[j], l[j + 1]); }
  }

  /** A missed track leaves the chains alone. */
  lemma ChainsMissed(x: Assignment, chains: set<Chain>, key: TrackId)
    requires Chains(x, chains) && key !in x
    ensures Chains(x[key := None], chains)
  {
    var x' := x[key := None];
    forall l | l in chains ensures Path(x', l) { PathGrows(x, key, None, l); }
    forall a, b | Edge(x', a, b) ensures Covered(chains, a) { assert Edge(x, a, b); }
  }

  /** One chain is replaced, or none when `from` is empty; the new edge is its only new pair. */
  lemma ChainsReplaced(x: Assignment, chains: set<Chain>, key: TrackId, v: TrackId, from: Chain, to: Chain, at: nat)
    requires Chains(x, chains) && key !in x
    requires from in chains || (from == [] && |to| == 2)
    requires at < |to| - 1 && to[at] == key && to[at + 1] == v
    requires (to == [key] + from && at == 0) || (to == from + [v] && at == |to| - 2) || (from == [] && to == [key, v])
    ensures Chains(x[key := Some(v)], chains - {from} + {to})
  {
    var x', chains' := x[key := Some(v)], chains - {from} + {to};
    forall l | l in chains' ensures Path(x', l) {
      if l in chains { PathGrows(x, key, Some(v), l); }
      if l == to {
        if from != [] { PathGrows(x, key, Some(v), from); }
        forall j | 0 <= j < |to| - 1 ensures Edge(x', to[j], to[j + 1]) {
          if j != at {
            if at == 0 && to == [key] + from { assert Edge(x', from[j - 1], from[j]); }
            else { assert Edge(x', from[j], from[j + 1]); }
          }
        }
      }
    }
    forall l | l in chains ensures forall j :: 0 <= j < |l| - 1 ==> l[j] != key {
      forall j | 0 <= j < |l| - 1 ensures l[j] != key { assert Edge(x, l[j], l[j + 1]); }
    }
    // The places of `to` other than the new one are places of `from`.
    var shift := if to == [key] + from then 1 else 0;
    forall j | 0 <= j < |to| - 1 && j != at ensures 0 <= j - shift < |from| - 1 && from[j - shift] == to[j] {
    }
    forall l, l', j, j' | l in chains' && l' in chains' && 0 <= j < |l| - 1 && 0 <= j' < |l'| - 1 && l[j] == l'[j']
      ensures l == l' && j == j'
    {
      if l == to && j != at { assert from[j - shift] == l[j]; }
      if l' == to && j' != at { assert from[j' - shift] == l'[j']; }
    }
    forall a, b | Edge(x', a, b) ensures Covered(chains', a) {
      if a == key {
        assert to in chains' && to[at] == a;
      } else {
        assert Edge(x, a, b);
        var l, j :| l in chains && 0 <= j < |l| - 1 && l[j] == a;
        if l == from {
          assert to[j + shift] == a;
          assert to in chains' && 0 <= j + shift < |to| - 1;
        } else {
          assert l in chains';
        }
      }
    }
  }

  lemma ReplacedAt(combo: seq<Chain>, i: nat, to: Chain)
    requires Distinct(combo) && i < |combo| && to !in combo
    ensures Distinct(combo[i := to])
    ensures Elements(combo[i := to]) == Elements(combo) - {combo[i]} + {to}
  {
    var r := combo[i := to];
    forall l ensures l in Elements(r) <==> l in Elements(combo) - {combo[i]} + {to} {
      if l in combo && l != combo[i] {
        var k :| 0 <= k < |combo| && combo[k] == l;
        assert r[k] == l;
      }
      if l == to { assert r[i] == to; }
    }
  }

  /** The lists that hold the mark are at most one, so the insertion replaces one chain. */
  lemma InsertedOnce(combo: seq<Chain>, r: seq<Chain>, mark: TrackId, v: TrackId, after: bool, i: nat)
    requires |r| == |combo| && i < |combo|
    requires forall k :: 0 <= k < |r| ==> r[k] == InsertBeside(combo[k], mark, v, after)
    requires forall k :: 0 <= k < |combo| && k != i ==> mark !in combo[k]
    ensures r == combo[i := InsertBeside(combo[i], mark, v, after)]
  {
  }

  lemma NewKey(x: Assignment, combo: seq<Chain>, key: TrackId, to: Chain, at: nat)
    requires Chained(x, combo) && key !in x && at < |to| - 1 && to[at] == key
    ensures to !in combo
  {
    if to in combo {
      assert to in Elements(combo);
      KeyIsLast(x, Elements(combo), key, to, at);
    }
  }

  lemma StartChain(x: Assignment, combo: seq<Chain>, key: TrackId, v: TrackId)
    requires Chained(x, combo) && key !in x
    ensures Chained(x[key := Some(v)], combo + [[key, v]])
  {
    var to := [key, v];
    NewKey(x, combo, key, to, 0);
    assert [] !in Elements(combo);
    ChainsReplaced(x, Elements(combo), key, v, [], to, 0);
    assert Elements(combo + [to]) == Elements(combo) - {[]} + {to};
  }

  lemma OneFirst(x: Assignment, chains: set<Chain>, v: TrackId, l: Chain, l': Chain)
    requires Chains(x, chains) && forall a :: !Edge(x, a, v)
    requires l in chains && l' in chains && v in l && v in l'
    ensures l == l'
  {
    ValueIsFirst(x, chains, v, l, IndexOf(l, v));
    ValueIsFirst(x, chains, v, l', IndexOf(l', v));
    assert l[0] == l'[0];
  }

  lemma OneLast(x: Assignment, chains: set<Chain>, key: TrackId, l: Chain, l': Chain)
    requires Injective(x) && Chains(x, chains) && key !in x
    requires l in chains && l' in chains && key in l && key in l'
    ensures l == l'
  {
    KeyIsLast(x, chains, key, l, IndexOf(l, key));
    KeyIsLast(x, chains, key, l', IndexOf(l', key));
    PathPair(x, l, |l| - 2);
    PathPair(x, l', |l'| - 2);
    assert l[|l| - 2] == l'[|l'| - 2];
  }

  lemma ChainReplaced(x: Assignment, combo: seq<Chain>, key: TrackId, v: TrackId, i: nat, to: Chain, at: nat)
    requires Chained(x, combo) && key !in x && i < |combo|
    requires at < |to| - 1 && to[at] == key && to[at + 1] == v
    requires (to == [key] + combo[i] && at == 0) || (to == combo[i] + [v] && at == |to| - 2)
    ensures Chained(x[key := Some(v)], combo[i := to])
  {
    NewKey(x, combo, key, to, at);
    ReplacedAt(combo, i, to);
    ChainsReplaced(x, Elements(combo), key, v, combo[i], to, at);
  }

  lemma ExtendFront(x: Assignment, combo: seq<Chain>, r: seq<Chain>, key: TrackId, v: TrackId)
    requires Chained(x, combo) && key !in x && Occurs(combo, v) && forall a :: !Edge(x, a, v)
    requires |r| == |combo| && forall k :: 0 <= k < |r| ==> r[k] == InsertBeside(combo[k], v, key, false)
    ensures Chained(x[key := Some(v)], r)
  {
    hide Chains;
    var i :| 0 <= i < |combo| && v in combo[i];
    var from := combo[i];
    ValueIsFirst(x, Elements(combo), v, from, IndexOf(from, v));
    forall k | 0 <= k < |combo| && v in combo[k] ensures combo[k] == from {
      OneFirst(x, Elements(combo), v, combo[k], from);
    }
    InsertedOnce(combo, r, v, key, false, i);
    assert InsertBeside(from, v, key, false) == [key] + from;
    ChainReplaced(x, combo, key, v, i, [key] + from, 0);
  }

  lemma InsertedAtEnd(l: Chain, key: TrackId, v: TrackId)
    requires key in l && IndexOf(l, key) == |l| - 1
    ensures InsertBeside(l, key, v, true) == l + [v] && |l| > 0 && l[|l| - 1] == key
  {
  }

  lemma ExtendBack(x: Assignment, combo: seq<Chain>, r: seq<Chain>, key: TrackId, v: TrackId)
    requires Injective(x) && Chained(x, combo) && key !in x && Occurs(combo, key)
    requires |r| == |combo| && forall k :: 0 <= k < |r| ==> r[k] == InsertBeside(combo[k], key, v, true)
    ensures Chained(x[key := Some(v)], r)
  {
    hide Chains, InsertBeside, Injective, Edge;
    var i :| 0 <= i < |combo| && key in combo[i];
    var from := combo[i];
    KeyIsLast(x, Elements(combo), key, from, IndexOf(from, key));
    forall k | 0 <= k < |combo| && key in combo[k] ensures combo[k] == from {
      OneLast(x, Elements(combo), key, combo[k], from);
    }
    InsertedOnce(combo, r, key, v, true, i);
    InsertedAtEnd(from, key, v);
    ChainReplaced(x, combo, key, v, i, from + [v], |from| - 1);
  }

  /** The keys handled so far, with their assignments. */
  ghost predicate Handled(x: Assignment, keys: seq<TrackId>, k: nat, y: Assignment)
    requires k <= |keys|
  {
    y.Keys == Elements(keys[..k]) && forall a :: a in y ==> a in x && y[a] == x[a]
  }

  lemma HandleNext(x: Assignment, keys: seq<TrackId>, k: nat, y: Assignment)
    requires Injective(x) && Distinct(keys) && Elements(keys) == x.Keys
    requires k < |keys| && Handled(x, keys, k, y)
    ensures keys[k] in x && keys[k] !in y && Injective(y)
    ensures x[keys[k]].Some? ==> forall a :: !Edge(y, a, x[keys[k]].value)
    ensures Handled(x, keys, k + 1, y[keys[k] := x[keys[k]]])
  {
    var key := keys[k];
    assert key in Elements(keys);
    assert key !in keys[..k];
    assert forall a, b :: Edge(y, a, b) ==> Edge(x, a, b);
    assert keys[..k + 1] == keys[..k] + [key];
    assert Elements(keys[..k + 1]) == Elements(keys[..k]) + {key};
    if x[key].Some? {
      forall a ensures !Edge(y, a, x[key].value) {
        assert Edge(x, key, x[key].value);
      }
    }
  }

  /** The first loop: the keys in their order, each with its assignment. */
  method Build(x: Assignment, keys: seq<TrackId>) returns (combo: seq<Chain>)
    requires Injective(x) && Distinct(keys) && Elements(keys) == x.Keys
    ensures Chained(x, combo)
  {
    combo := [];
    ghost var y: Assignment := map[];
    for k := 0 to |keys|
      invariant Handled(x, keys, k, y)
      invariant Chained(y, combo)
    {
      var key := keys[k];
      HandleNext(x, keys, k, y);
      if x[key].None? {
        ChainsMissed(y, Elements(combo), key);
      } else if combo == [] || !(Occurs(combo, key) || Occurs(combo, x[key].value)) {
        StartChain(y, combo, key, x[key].value);
        combo := combo + [[key, x[key].value]];
      } else if Occurs(combo, x[key].value) {
        var r := InsertAll(combo, x[key].value, key, false);
        ExtendFront(y, combo, r, key, x[key].value);
        combo := r;
      } else {
        var r := InsertAll(combo, key, x[key].value, true);
        ExtendBack(y, combo, r, key, x[key].value);
        combo := r;
      }
      y := y[key := x[key]];
    }
    assert keys[..|keys|] == keys;
    assert y == x;
  }

  // ----- merging the chains

  /** `b` continues `a`, or `a` is returned unchanged. */
  function Merge(a: Chain, b: Chain): Chain
    requires |a| > 0 && |b| > 0
  {
    if Joins(a, b) then a[..|a| - 1] + b else a
  }

  /** The place of a merged chain's element in the two chains it came from. */
  function Origin(a: Chain, b: Chain, j: nat): (Chain, int) {
    if j < |a| - 1 then (a, j) else (b, j - (|a| - 1))
  }

  lemma MergedPlace(x: Assignment, a: Chain, b: Chain, j: nat)
    requires Path(x, a) && Path(x, b) && Joins(a, b) && j < |Merge(a, b)| - 1
    ensures var (l, k) := Origin(a, b, j);
            && 0 <= k < |l| - 1 && l[k] == Merge(a, b)[j] && l[k + 1] == Merge(a, b)[j + 1]
            && Edge(x, Merge(a, b)[j], Merge(a, b)[j + 1])
  {
    var (l, k) := Origin(a, b, j);
    PathPair(x, l, k);
  }

  lemma MergedPaths(x: Assignment, chains: set<Chain>, a: Chain, b: Chain)
    requires Chains(x, chains) && a in chains && b in chains && a != b && Joins(a, b)
    ensures Merge(a, b) !in chains - {a} - {b} && Path(x, Merge(a, b))
  {
    var m := Merge(a, b);
    assert m[0] == a[0];
    forall j | 0 <= j < |m| - 1 ensures Edge(x, m[j], m[j + 1]) { MergedPlace(x, a, b, j); }
  }

  lemma MergedUnique(x: Assignment, chains: set<Chain>, a: Chain, b: Chain, l: Chain, j: nat, l': Chain, j': nat)
    requires Chains(x, chains) && a in chains && b in chains && a != b && Joins(a, b)
    requires l in chains - {a} - {b} + {Merge(a, b)} && l' in chains - {a} - {b} + {Merge(a, b)}
    requires j < |l| - 1 && j' < |l'| - 1 && l[j] == l'[j']
    ensures l == l' && j == j'
  {
    hide Covered;
    var m := Merge(a, b);
    MergedPaths(x, chains, a, b);
    var (o, k) := if l == m then Origin(a, b, j) else (l, j);
    var (o', k') := if l' == m then Origin(a, b, j') else (l', j');
    if l == m { MergedPlace(x, a, b, j); }
    if l' == m { MergedPlace(x, a, b, j'); }
    assert o in chains && o' in chains && o[k] == o'[k'];
    assert o == o' && k == k';
  }

  lemma MergedCovers(x: Assignment, chains: set<Chain>, a: Chain, b: Chain, v: TrackId)
    requires Covered(chains, v) && |a| > 0 && |b| > 0 && Joins(a, b)
    ensures Covered(chains - {a} - {b} + {Merge(a, b)}, v)
  {
    var m, chains' := Merge(a, b), chains - {a} - {b} + {Merge(a, b)};
    var l, j :| l in chains && 0 <= j < |l| - 1 && l[j] == v;
    if l == a {
      assert m[j] == v && m in chains';
    } else if l == b {
      assert m[j + (|a| - 1)] == v && m in chains';
    } else {
      assert l in chains';
    }
  }

  lemma MergedChains(x: Assignment, chains: set<Chain>, a: Chain, b: Chain)
    requires Chains(x, chains) && a in chains && b in chains && a != b && Joins(a, b)
    ensures Merge(a, b) !in chains - {a} - {b}
    ensures Chains(x, chains - {a} - {b} + {Merge(a, b)})
  {
    var chains' := chains - {a} - {b} + {Merge(a, b)};
    MergedPaths(x, chains, a, b);
    forall l, l', j, j' | l in chains' && l' in chains' && 0 <= j < |l| - 1 && 0 <= j' < |l'| - 1 && l[j] == l'[j']
      ensures l == l' && j == j'
    {
      MergedUnique(x, chains, a, b, l, j, l', j');
    }
    forall v, w | Edge(x, v, w) ensures Covered(chains', v) { MergedCovers(x, chains, a, b, v); }
  }

  lemma RemoveTwo(combo: seq<Chain>, a: Chain, b: Chain, m: Chain)
    requires Distinct(combo) && a in combo && b in combo && a != b && m !in Elements(combo) - {a} - {b}
    ensures var rest := Remove(Remove(combo, a), b);
            && |rest| == |combo| - 2 && Distinct(rest + [m])
            && Elements(rest + [m]) == Elements(combo) - {a} - {b} + {m}
  {
    var rest := Remove(Remove(combo, a), b);
    RemoveElements(combo, a);
    assert b in Elements(combo) && b in Elements(Remove(combo, a));
    RemoveElements(Remove(combo, a), b);
    assert Elements(rest) == Elements(combo) - {a} - {b};
    assert m !in Elements(rest);
    assert Elements(rest + [m]) == Elements(rest) + {m};
  }

  lemma MergedCombo(x: Assignment, combo: seq<Chain>, a: Chain, b: Chain)
    requires Chained(x, combo) && a in combo && b in combo && a != b && |a| > 0 && |b| > 0 && Joins(a, b)
    ensures var rest := Remove(Remove(combo, a), b);
            |rest| == |combo| - 2 && Chained(x, rest + [Merge(a, b)])
  {
    assert a in Elements(combo) && b in Elements(combo);
    MergedChains(x, Elements(combo), a, b);
    RemoveTwo(combo, a, b, Merge(a, b));
  }

  lemma {:induction false} RemoveCommutes<T>(s: seq<T>, a: T, b: T)
    ensures Remove(Remove(s, a), b) == Remove(Remove(s, b), a)
  {
    if s != [] && s[0] != a && s[0] != b { RemoveCommutes(s[1..], a, b); }
  }

  /** The pairs compared so far do not join. */
  ghost predicate NoJoins(combo: seq<Chain>, i: nat, count: nat) {
    forall p, q :: 0 <= p < |combo| && 0 <= q < |combo| && (p < i || (p == i && q < count))
      ==> |combo[p]| > 0 && |combo[q]| > 0 && !Joins(combo[p], combo[q])
  }

  // ----- what it means that no pair joins

  lemma SamePlace(x: Assignment, chains: set<Chain>, l: Chain, j: nat, l': Chain, j': nat)
    requires Injective(x) && Chains(x, chains) && l in chains && l' in chains
    requires j < |l| && j' < |l'| && l[j] == l'[j']
    requires !Joins(l, l') && !Joins(l', l)
    ensures l == l' && j == j'
  {
    PathPair(x, l, j - 1);
    PathPair(x, l', j' - 1);
    if j > 0 && j' > 0 {
      assert l[j - 1] == l'[j' - 1];
    } else {
      assert j < |l| - 1 && j' < |l'| - 1;
    }
  }

  lemma FinishedIsMaximal(x: Assignment, combo: seq<Chain>)
    requires Injective(x) && Chained(x, combo) && NoJoins(combo, |combo|, 0)
    ensures MaximalPaths(x, combo)
  {
    forall i, i', j, j' | 0 <= i < |combo| && 0 <= i' < |combo| && 0 <= j < |combo[i]| && 0 <= j' < |combo[i']|
                          && combo[i][j] == combo[i'][j']
      ensures i == i' && j == j'
    {
      assert combo[i] in Elements(combo) && combo[i'] in Elements(combo);
      SamePlace(x, Elements(combo), combo[i], j, combo[i'], j');
    }
    forall l, a | l in combo && |l| > 0 ensures !Edge(x, a, l[0]) && !Edge(x, Last(l), a) {
      var i :| 0 <= i < |combo| && combo[i] == l;
      EdgePlaces(x, combo, a, l[0], i, 0);
      EdgePlaces(x, combo, Last(l), a, i, |l| - 1);
    }
  }

  /** An edge leaves no chain at its end and enters none at its start. */
  lemma EdgePlaces(x: Assignment, combo: seq<Chain>, a: TrackId, b: TrackId, i: nat, p: nat)
    requires Chained(x, combo) && Disjoint(combo) && i < |combo| && p < |combo[i]|
    ensures Edge(x, a, b) && combo[i][p] == b ==> p > 0
    ensures Edge(x, a, b) && combo[i][p] == a ==> p < |combo[i]| - 1
  {
    if Edge(x, a, b) {
      var k, j :| k in Elements(combo) && 0 <= j < |k| - 1 && k[j] == a;
      var i' :| 0 <= i' < |combo| && combo[i'] == k;
      PathPair(x, k, j);
      assert combo[i'][j] == a && combo[i'][j + 1] == b;
    }
  }

  /** A path of the assignment stays on the chain it starts on. */
  lemma {:induction false} FollowChain(x: Assignment, combo: seq<Chain>, i: nat, p: nat, l: Chain, k: nat)
    requires MaximalPaths(x, combo) && Path(x, l) && i < |combo| && p < |combo[i]| && combo[i][p] == l[0] && k < |l|
    ensures p + k < |combo[i]| && combo[i][p + k] == l[k]
  {
    if k > 0 {
      FollowChain(x, combo, i, p, l, k - 1);
      PathPair(x, l, k - 1);
      var c := combo[i];
      assert c in combo && c in Elements(combo);
      assert p + k - 1 != |c| - 1 by { assert !Edge(x, Last(c), l[k]); }
      PathPair(x, c, p + k - 1);
    }
  }

  lemma MaximalIsAcyclic(x: Assignment, combo: seq<Chain>, l: Chain)
    requires MaximalPaths(x, combo)
    ensures !Cycle(x, l)
  {
    if Path(x, l) {
      PathPair(x, l, 0);
      var c, p :| c in Elements(combo) && 0 <= p < |c| - 1 && c[p] == l[0];
      var i :| 0 <= i < |combo| && combo[i] == c;
      FollowChain(x, combo, i, p, l, |l| - 1);
      assert combo[i][p] != combo[i][p + (|l| - 1)];
    }
  }

  /** Timestamps rule out cycles: if every edge leads to a later track there is none. */
  lemma {:induction false} LaterIsAcyclic(x: Assignment, start: map<TrackId, int>, l: Chain, k: nat)
    requires forall a, b :: Edge(x, a, b) ==> a in start && b in start && start[a] < start[b]
    requires Path(x, l) && 0 < k < |l|
    ensures l[0] in start && l[k] in start && start[l[0]] < start[l[k]] && l[0] != l[k]
  {
    PathPair(x, l, k - 1);
    if k > 1 { LaterIsAcyclic(x, start, l, k - 1); }
  }

  /** A chain that closes on itself joins no other. */
  lemma CycleJoinsItself(x: Assignment, chains: set<Chain>, id1: Chain, id2: Chain)
    requires Injective(x) && Chains(x, chains) && id1 in chains && id2 in chains && Cycle(x, id1)
    requires |id2| > 0 && (Joins(id1, id2) || Joins(id2, id1))
    ensures id1 == id2
  {
    assert Path(x, id2);
    if Joins(id1, id2) {
      assert id1[0] == id2[0];
    }
    if Joins(id2, id1) {
      PathPair(x, id1, |id1| - 2);
      PathPair(x, id2, |id2| - 2);
      assert Edge(x, id1[|id1| - 2], Last(id1)) && Edge(x, id2[|id2| - 2], Last(id2));
      assert id1[|id1| - 2] == id2[|id2| - 2];
    }
  }

  /** Two chains that join are replaced by their merger. A chain that joins itself is removed once, and
      the second removal raises. */
  method Fuse(x: Assignment, combo: seq<Chain>, id1: Chain, id2: Chain) returns (fused: seq<Chain>, ok: bool)
    requires Chained(x, combo) && id1 in combo && id2 in combo && |id1| > 0 && |id2| > 0
    requires Joins(id1, id2) || Joins(id2, id1)
    ensures ok ==> Chained(x, fused) && 0 < |fused| == |combo| - 1
    ensures !ok <==> id1 == id2
    ensures !ok ==> Cycle(x, id1)
    ensures Injective(x) ==> (!ok <==> Cycle(x, id1))
  {
    if Injective(x) && Cycle(x, id1) { CycleJoinsItself(x, Elements(combo), id1, id2); }
    var newList1, newList2 := Merge(id1, id2), Merge(id2, id1);
    assert id1 in Elements(combo) && id2 in Elements(combo);
    RemoveElements(combo, id1);
    var rest := Remove(combo, id1);
    if id2 !in rest {
      assert id2 !in Elements(rest);
      return combo, false;
    }
    assert id2 in Elements(rest);
    rest := Remove(rest, id2);
    if |newList1| > |id1| {
      MergedCombo(x, combo, id1, id2);
      fused := rest + [newList1];
    } else {
      MergedCombo(x, combo, id2, id1);
      RemoveCommutes(combo, id1, id2);
      fused := rest + [newList2];
    }
    ok := true;
  }

  lemma ChainIsLong(x: Assignment, combo: seq<Chain>, i: nat)
    requires Chained(x, combo) && i < |combo|
    ensures |combo[i]| >= 2
  {
    assert combo[i] in Elements(combo);
  }

  lemma NoJoinsYet(combo: seq<Chain>)
    ensures NoJoins(combo, 0, 0)
  {
  }

  lemma NoJoinsNext(combo: seq<Chain>, i: nat, count: nat)
    requires NoJoins(combo, i, count) && i < |combo| && count < |combo|
    requires |combo[i]| > 0 && |combo[count]| > 0 && !Joins(combo[i], combo[count])
    ensures NoJoins(combo, i, count + 1)
    ensures count + 1 == |combo| ==> NoJoins(combo, i + 1, 0)
  {
  }

  lemma CycleMeansCyclic(x: Assignment, l: Chain)
    requires Cycle(x, l)
    ensures !Acyclic(x)
  {
  }

  lemma FinishedIsAcyclic(x: Assignment, combo: seq<Chain>)
    requires Injective(x) && MaximalPaths(x, combo)
    ensures Acyclic(x)
  {
    hide MaximalPaths;
    forall l ensures !Cycle(x, l) { MaximalIsAcyclic(x, combo, l); }
  }

  /** The second loop. `list.remove` raises on a missing element; `ok` says that it did not. It
      terminates on every assignment, and fails exactly when the assignment has a cycle. */
  method MergeAll(x: Assignment, chains: seq<Chain>) returns (combo: seq<Chain>, ok: bool)
    requires Injective(x) && Chained(x, chains)
    ensures ok <==> Acyclic(x)
    ensures ok ==> MaximalPaths(x, combo)
  {
    hide Chained, MaximalPaths, Acyclic, Cycle, NoJoins;
    combo := chains;
    var i, count := 0, 0;
    NoJoinsYet(combo);
    while i != |combo|
      invariant i <= |combo| && (if i < |combo| then count < |combo| else count == 0)
      invariant Chained(x, combo) && NoJoins(combo, i, count)
      decreases |combo|, |combo| - i, |combo| - count
    {
      var id1, id2 := combo[i], combo[count];
      ChainIsLong(x, combo, i);
      ChainIsLong(x, combo, count);
      var newList1, newList2 := Merge(id1, id2), Merge(id2, id1);
      if |newList1| == |id1| && |newList2| == |id2| {
        NoJoinsNext(combo, i, count);
        count := count + 1;
      } else {
        var fused, merged := Fuse(x, combo, id1, id2);
        if !merged {
          CycleMeansCyclic(x, id1);
          return combo, false;
        }
        combo := fused;
        count := 0;
        i := 0;
        NoJoinsYet(combo);
      }
      if count == |combo| {
        count := 0;
        i := i + 1;
      }
    }
    FinishedIsMaximal(x, combo);
    FinishedIsAcyclic(x, combo);
    ok := true;
  }

  // ----- joining the tracks

  type Tracks<S> = map<TrackId, seq<S>>

  function JoinedStates<S>(tracks: Tracks<S>, ids: Chain): seq<S>
    requires forall a :: a in ids ==> a in tracks
  {
    if ids == [] then []
    else
      var last := ids[|ids| - 1];
      assert last in ids;
      JoinedStates(tracks, ids[..|ids| - 1]) + tracks[last]
  }

  /** One id gives the states of its track, and a chain of two parts those of the first part and then those
      of the second: so the states come in the order of the chain. */
  lemma JoinedInOrder<S>(tracks: Tracks<S>, first: Chain, second: Chain)
    requires forall a :: a in first + second ==> a in tracks
    ensures JoinedStates(tracks, []) == []
    ensures forall a :: a in tracks ==> JoinedStates(tracks, [a]) == tracks[a]
    ensures (forall a :: a in first || a in second ==> a in first + second)
            && JoinedStates(tracks, first + second) == JoinedStates(tracks, first) + JoinedStates(tracks, second)
  {
    hide JoinedStates;
    forall a | a in tracks ensures JoinedStates(tracks, [a]) == tracks[a] { JoinedOne(tracks, a); }
    JoinedNone(tracks);
    JoinedAppend(tracks, first, second);
  }

  lemma JoinedNone<S>(tracks: Tracks<S>)
    ensures JoinedStates(tracks, []) == []
  {
  }

  lemma JoinedOne<S>(tracks: Tracks<S>, a: TrackId)
    requires a in tracks
    ensures JoinedStates(tracks, [a]) == tracks[a]
  {
    assert [a][..0] == [];
    assert [] + tracks[a] == tracks[a];
  }

  lemma {:induction false} JoinedAppend<S>(tracks: Tracks<S>, first: Chain, second: Chain)
    requires (forall a :: a in first ==> a in tracks) && forall a :: a in second ==> a in tracks
    ensures forall a :: a in first + second ==> a in tracks
    ensures JoinedStates(tracks, first + second) == JoinedStates(tracks, first) + JoinedStates(tracks, second)
    decreases |second|
  {
    if second == [] {
      assert first + second == first;
    } else {
      var init, last := second[..|second| - 1], second[|second| - 1];
      assert last in second;
      JoinedAppend(tracks, first, init);
      assert (first + second)[..|first + second| - 1] == first + init;
    }
  }

  /** The states of all tracks, with multiplicity. */
  ghost function AllStates<S>(tracks: Tracks<S>): multiset<S>
  {
    if exists a :: a in tracks then
      var a :| a in tracks;
      multiset(tracks[a]) + AllStates(tracks - {a})
    else multiset{}
  }

  lemma {:induction false} AllStatesRemove<S>(tracks: Tracks<S>, a: TrackId)
    requires a in tracks
    ensures AllStates(tracks) == multiset(tracks[a]) + AllStates(tracks - {a})
    decreases |tracks|
  {
    var b :| b in tracks && AllStates(tracks) == multiset(tracks[b]) + AllStates(tracks - {b});
    if a != b {
      Smaller(tracks, a);
      Smaller(tracks, b);
      AllStatesRemove(tracks - {b}, a);
      AllStatesRemove(tracks - {a}, b);
      assert tracks - {b} - {a} == tracks - {a} - {b};
    }
  }

  lemma Smaller<S>(tracks: Tracks<S>, a: TrackId)
    requires a in tracks
    ensures |tracks - {a}| < |tracks|
  {
    assert (tracks - {a}).Keys == tracks.Keys - {a};
  }

  lemma AllStatesAdd<S>(tracks: Tracks<S>, a: TrackId, states: seq<S>)
    requires a !in tracks
    ensures AllStates(tracks[a := states]) == AllStates(tracks) + multiset(states)
  {
    AllStatesRemove(tracks[a := states], a);
    assert tracks[a := states] - {a} == tracks;
  }

  lemma TakeNext<S>(tracks: Tracks<S>, ids: Chain, k: nat)
    requires Distinct(ids) && (forall a :: a in ids ==> a in tracks) && k < |ids|
    ensures ids[k] in tracks - Elements(ids[..k])
    ensures tracks - Elements(ids[..k]) - {ids[k]} == tracks - Elements(ids[..k + 1])
    ensures JoinedStates(tracks, ids[..k + 1]) == JoinedStates(tracks, ids[..k]) + tracks[ids[k]]
  {
    assert ids[..k + 1][..k] == ids[..k] && ids[..k + 1] == ids[..k] + [ids[k]];
    var a := ids[k];
    assert a in ids;
    assert a in tracks;
    assert a !in ids[..k];
    assert a !in Elements(ids[..k]);
    assert Elements(ids[..k + 1]) == Elements(ids[..k]) + {ids[k]};
  }

  /** The inner loop: takes the tracks of one chain out, one after the other. A track already taken
      would be missing, and the lookup of its states would raise. */
  method TakeChain<S>(tracks: Tracks<S>, ids: Chain) returns (rest: Tracks<S>, states: seq<S>)
    requires Distinct(ids) && forall a :: a in ids ==> a in tracks
    ensures rest == tracks - Elements(ids) && states == JoinedStates(tracks, ids)
    ensures AllStates(rest) + multiset(states) == AllStates(tracks)
  {
    rest, states := tracks, [];
    for k := 0 to |ids|
      invariant rest == tracks - Elements(ids[..k]) && states == JoinedStates(tracks, ids[..k])
      invariant AllStates(rest) + multiset(states) == AllStates(tracks)
    {
      var a := ids[k];
      TakeNext(tracks, ids, k);
      AllStatesRemove(rest, a);
      states := states + rest[a];
      rest := rest - {a};
    }
    assert ids[..|ids|] == ids;
  }

  function Used(combo: seq<Chain>): set<TrackId> {
    set i, j | 0 <= i < |combo| && 0 <= j < |combo[i]| :: combo[i][j]
  }

  predicate Known<S>(tracks: Tracks<S>, combo: seq<Chain>) {
    forall i :: 0 <= i < |combo| ==> forall a :: a in combo[i] ==> a in tracks
  }

  /** Ids for the new tracks: enough of them, all different, none in use. */
  predicate NewIds<S>(tracks: Tracks<S>, newIds: seq<TrackId>, count: nat) {
    Distinct(newIds) && |newIds| >= count && forall a :: a in newIds ==> a !in tracks
  }

  /** The tracks after stitching: the unused ones, and one new track a chain, with the states of the
      chain's tracks in order. */
  ghost predicate Stitched<S>(before: Tracks<S>, combo: seq<Chain>, newIds: seq<TrackId>, after: Tracks<S>)
    requires Known(before, combo) && |newIds| >= |combo|
  {
    && after.Keys == (before.Keys - Used(combo)) + Elements(newIds[..|combo|])
    && (forall a :: a in before && a !in Used(combo) ==> a in after && after[a] == before[a])
    && (forall i :: 0 <= i < |combo| ==> newIds[i] in after && after[newIds[i]] == JoinedStates(before, combo[i]))
  }

  lemma UsedSnoc(combo: seq<Chain>, k: nat)
    requires k < |combo|
    ensures Used(combo[..k + 1]) == Used(combo[..k]) + Elements(combo[k])
  {
    forall a ensures a in Used(combo[..k + 1]) <==> a in Used(combo[..k]) + Elements(combo[k]) {
      if a in Used(combo[..k + 1]) {
        var i, j :| 0 <= i < k + 1 && 0 <= j < |combo[..k + 1][i]| && combo[..k + 1][i][j] == a;
        if i < k { assert combo[..k][i][j] == a; } else { assert combo[k][j] == a; }
      }
      if a in Used(combo[..k]) {
        var i, j :| 0 <= i < k && 0 <= j < |combo[..k][i]| && combo[..k][i][j] == a;
        assert combo[..k + 1][i][j] == a;
      }
      if a in combo[k] {
        var j :| 0 <= j < |combo[k]| && combo[k][j] == a;
        assert combo[..k + 1][k][j] == a;
      }
    }
  }

  lemma {:induction false} JoinedAgree<S>(t: Tracks<S>, t': Tracks<S>, ids: Chain)
    requires forall a :: a in ids ==> a in t && a in t' && t[a] == t'[a]
    ensures JoinedStates(t, ids) == JoinedStates(t', ids)
  {
    if ids != [] {
      assert ids[|ids| - 1] in ids;
      JoinedAgree(t, t', ids[..|ids| - 1]);
    }
  }

  lemma NotUsedYet(combo: seq<Chain>, k: nat)
    requires Disjoint(combo) && k < |combo|
    ensures Distinct(combo[k]) && forall a :: a in combo[k] ==> a !in Used(combo[..k])
  {
    forall j, j' | 0 <= j < j' < |combo[k]| ensures combo[k][j] != combo[k][j'] {
    }
    forall a | a in combo[k] ensures a !in Used(combo[..k]) {
      var j :| 0 <= j < |combo[k]| && combo[k][j] == a;
      forall i, j' | 0 <= i < k && 0 <= j' < |combo[..k][i]| ensures combo[..k][i][j'] != a {
        assert combo[..k][i] == combo[i];
      }
    }
  }

  lemma DisjointPrefix(combo: seq<Chain>, k: nat)
    requires Disjoint(combo) && k <= |combo|
    ensures Disjoint(combo[..k])
  {
  }

  /** The tracks after the first chains were joined. */
  ghost function Joined<S>(before: Tracks<S>, combo: seq<Chain>, newIds: seq<TrackId>): Tracks<S>
    requires Known(before, combo) && |newIds| >= |combo|
  {
    if combo == [] then before
    else
      var k := |combo| - 1;
      (Joined(before, combo[..k], newIds) - Elements(combo[k]))[newIds[k] := JoinedStates(before, combo[k])]
  }

  lemma {:induction false} JoinedAt<S>(before: Tracks<S>, combo: seq<Chain>, newIds: seq<TrackId>, a: TrackId)
    requires Known(before, combo) && Disjoint(combo) && NewIds(before, newIds, |combo|)
    ensures var after := Joined(before, combo, newIds);
            && (a in before ==> (a in after <==> a !in Used(combo)) && (a in after ==> after[a] == before[a]))
            && (a !in before ==> (a in after <==> a in newIds[..|combo|]))
  {
    if combo != [] {
      var k := |combo| - 1;
      DisjointPrefix(combo, k);
      JoinedAt(before, combo[..k], newIds, a);
      UsedSnoc(combo, k);
      assert combo[..k + 1] == combo;
      assert newIds[k] in newIds;
      assert newIds[..k + 1] == newIds[..k] + [newIds[k]];
    }
  }

  lemma {:induction false} JoinedNew<S>(before: Tracks<S>, combo: seq<Chain>, newIds: seq<TrackId>, i: nat)
    requires Known(before, combo) && Disjoint(combo) && NewIds(before, newIds, |combo|) && i < |combo|
    ensures newIds[i] in Joined(before, combo, newIds)
    ensures Joined(before, combo, newIds)[newIds[i]] == JoinedStates(before, combo[i])
  {
    var k := |combo| - 1;
    if i < k {
      DisjointPrefix(combo, k);
      JoinedNew(before, combo[..k], newIds, i);
      assert newIds[i] in newIds && newIds[i] != newIds[k];
      assert newIds[i] !in combo[k];
    }
  }

  lemma JoinedIsStitched<S>(before: Tracks<S>, combo: seq<Chain>, newIds: seq<TrackId>)
    requires Known(before, combo) && Disjoint(combo) && NewIds(before, newIds, |combo|)
    ensures Stitched(before, combo, newIds, Joined(before, combo, newIds))
  {
    var after := Joined(before, combo, newIds);
    forall a ensures a in after <==> a in (before.Keys - Used(combo)) + Elements(newIds[..|combo|]) {
      JoinedAt(before, combo, newIds, a);
      if a in newIds[..|combo|] { assert a in newIds; }
    }
    forall a | a in before && a !in Used(combo) ensures a in after && after[a] == before[a] {
      JoinedAt(before, combo, newIds, a);
    }
    forall i | 0 <= i < |combo| ensures newIds[i] in after && after[newIds[i]] == JoinedStates(before, combo[i]) {
      JoinedNew(before, combo, newIds, i);
    }
  }

  /** The tracks of the next chain have not been touched, and its new id is not in use. */
  lemma NextChain<S>(before: Tracks<S>, combo: seq<Chain>, newIds: seq<TrackId>, k: nat, cur: Tracks<S>)
    requires Known(before, combo) && Disjoint(combo) && NewIds(before, newIds, |combo|) && k < |combo|
    requires Known(before, combo[..k]) && cur == Joined(before, combo[..k], newIds)
    ensures Distinct(combo[k]) && (forall a :: a in combo[k] ==> a in cur)
    ensures JoinedStates(cur, combo[k]) == JoinedStates(before, combo[k])
    ensures newIds[k] !in cur && Known(before, combo[..k + 1])
    ensures (cur - Elements(combo[k]))[newIds[k] := JoinedStates(before, combo[k])] == Joined(before, combo[..k + 1], newIds)
  {
    NotUsedYet(combo, k);
    DisjointPrefix(combo, k);
    forall a | a in combo[k] ensures a in cur && cur[a] == before[a] { JoinedAt(before, combo[..k], newIds, a); }
    JoinedAgree(cur, before, combo[k]);
    assert newIds[k] in newIds;
    assert newIds[k] !in newIds[..k];
    JoinedAt(before, combo[..k], newIds, newIds[k]);
    assert combo[..k + 1][..k] == combo[..k];
  }

  /** The map from each new id to its chain. */
  ghost predicate Names(m: map<TrackId, Chain>, combo: seq<Chain>, newIds: seq<TrackId>)
    requires |newIds| >= |combo|
  {
    && m.Keys == Elements(newIds[..|combo|])
    && forall i :: 0 <= i < |combo| ==> newIds[i] in m && m[newIds[i]] == combo[i]
  }

  lemma NameNext(m: map<TrackId, Chain>, combo: seq<Chain>, newIds: seq<TrackId>, k: nat)
    requires k < |combo| <= |newIds| && Distinct(newIds) && Names(m, combo[..k], newIds)
    ensures Names(m[newIds[k] := combo[k]], combo[..k + 1], newIds)
  {
    assert newIds[..k + 1] == newIds[..k] + [newIds[k]];
    assert Elements(newIds[..k + 1]) == Elements(newIds[..k]) + {newIds[k]};
    var m' := m[newIds[k] := combo[k]];
    forall i | 0 <= i < k + 1 ensures newIds[i] in m' && m'[newIds[i]] == combo[..k + 1][i] {
      if i < k { assert newIds[i] in m && m[newIds[i]] == combo[..k][i]; }
    }
  }

  /** The last loop: each chain's tracks are replaced by one, under a new id. */
  method JoinTracks<S>(before: Tracks<S>, combo: seq<Chain>, newIds: seq<TrackId>)
    returns (tracks: Tracks<S>, stitchedMap: map<TrackId, Chain>)
    requires Known(before, combo) && Disjoint(combo) && NewIds(before, newIds, |combo|)
    ensures Stitched(before, combo, newIds, tracks)
    ensures AllStates(tracks) == AllStates(before)
    ensures Names(stitchedMap, combo, newIds)
  {
    tracks, stitchedMap := before, map[];
    for k := 0 to |combo|
      invariant Known(before, combo[..k]) && tracks == Joined(before, combo[..k], newIds)
      invariant AllStates(tracks) == AllStates(before)
      invariant Names(stitchedMap, combo[..k], newIds)
    {
      NextChain(before, combo, newIds, k, tracks);
      NameNext(stitchedMap, combo, newIds, k);
      var rest, states := TakeChain(tracks, combo[k]);
      AllStatesAdd(rest, newIds[k], states);
      tracks := rest[newIds[k] := states];
      stitchedMap := stitchedMap[newIds[k] := combo[k]];
    }
    assert combo[..|combo|] == combo;
    JoinedIsStitched(before, combo, newIds);
  }

  /** The stitcher from the assignment on. It fails exactly when the assignment has a cycle. Otherwise
      the tracks along each maximal path become one track, the others stay as they are, and no state
      is lost or repeated. */
  method Stitch<S>(x: Assignment, keys: seq<TrackId>, before: Tracks<S>, newIds: seq<TrackId>)
    returns (tracks: Tracks<S>, stitchedMap: map<TrackId, Chain>, ghost combo: seq<Chain>, ok: bool)
    requires Injective(x) && Distinct(keys) && Elements(keys) == x.Keys
    requires forall a, b :: Edge(x, a, b) ==> a in before && b in before
    requires NewIds(before, newIds, |x|)
    ensures ok <==> Acyclic(x)
    ensures ok ==> MaximalPaths(x, combo) && |combo| <= |x| && Known(before, combo)
    ensures ok ==> Stitched(before, combo, newIds, tracks)
    ensures ok ==> Names(stitchedMap, combo, newIds)
    ensures ok ==> AllStates(tracks) == AllStates(before)
  {
    var built := Build(x, keys);
    var chains, merged := MergeAll(x, built);
    combo := chains;
    if !merged {
      return before, map[], combo, false;
    }
    NoMoreChainsThanKeys(x, chains);
    forall i | 0 <= i < |chains| ensures forall a :: a in chains[i] ==> a in before {
      assert chains[i] in Elements(chains);
      ChainIdsKnown(x, chains[i], before.Keys);
    }
    tracks, stitchedMap := JoinTracks(before, chains, newIds);
    ok := true;
  }

  lemma ChainIdsKnown(x: Assignment, l: Chain, known: set<TrackId>)
    requires Path(x, l) && forall a, b :: Edge(x, a, b) ==> a in known && b in known
    ensures forall a :: a in l ==> a in known
  {
    forall a | a in l ensures a in known {
      var j :| 0 <= j < |l| && l[j] == a;
      PathPair(x, l, j);
      PathPair(x, l, j - 1);
    }
  }

  lemma {:induction false} DistinctWithin(s: seq<TrackId>, all: set<TrackId>)
    requires Distinct(s) && forall a :: a in s ==> a in all
    ensures |s| <= |all|
  {
    if s != [] {
      var a, rest := s[|s| - 1], s[..|s| - 1];
      assert a in s && a !in rest;
      DistinctWithin(rest, all - {a});
    }
  }

  /** Each chain starts with its own key. */
  lemma NoMoreChainsThanKeys(x: Assignment, combo: seq<Chain>)
    requires Disjoint(combo) && forall i :: 0 <= i < |combo| ==> Path(x, combo[i])
    ensures |combo| <= |x|
  {
    var heads := seq(|combo|, i requires 0 <= i < |combo| => combo[i][0]);
    forall a | a in heads ensures a in x.Keys {
      var i :| 0 <= i < |heads| && heads[i] == a;
      PathPair(x, combo[i], 0);
    }
    DistinctWithin(heads, x.Keys);
    assert |x.Keys| == |x|;
  }
}
