/** The iterator adapters the filter pipelines are built from: `map`, then
    `filter`, then `collect` into a vector. Collecting a finite iterator is
    modelled as computing the whole sequence at once. */
module Iter {

  /** `s.into_iter().map(f).collect()` */
  function Map<A, B>(f: A -> B, s: seq<A>): (r: seq<B>)
    ensures |r| == |s|
    ensures forall i :: 0 <= i < |s| ==> r[i] == f(s[i])
  {
    if |s| == 0 then [] else [f(s[0])] + Map(f, s[1..])
  }

  /** `s.into_iter().filter(p).collect()`: keeps the elements satisfying `p`.
      That it keeps all of them, in order, is `FilterEmbeds` with `KeptExactly`. */
  function Filter<A>(p: A -> bool, s: seq<A>): (r: seq<A>)
    ensures |r| <= |s|
    ensures forall k :: 0 <= k < |r| ==> r[k] in s && p(r[k])
  {
    if |s| == 0 then []
    else if p(s[0]) then [s[0]] + Filter(p, s[1..]) else Filter(p, s[1..])
  }

  /** `idx` lists strictly increasing positions */
  ghost predicate Increasing(idx: seq<nat>) {
    forall k, l :: 0 <= k < l < |idx| ==> idx[k] < idx[l]
  }

  /** `sub` is `s` read at the increasing positions `idx` */
  ghost predicate Embeds<A>(idx: seq<nat>, sub: seq<A>, s: seq<A>) {
    && |idx| == |sub|
    && Increasing(idx)
    && forall k :: 0 <= k < |idx| ==> idx[k] < |s| && sub[k] == s[idx[k]]
  }

  /** `sub` is obtained from `s` by deleting elements, keeping the order of the rest */
  ghost predicate IsSubsequence<A>(sub: seq<A>, s: seq<A>) {
    exists idx :: Embeds(idx, sub, s)
  }

  /** The positions at or after `from` whose element satisfies `p`, in increasing
      order. That it lists all of them is `KeptComplete`. */
  function Kept<A>(p: A -> bool, s: seq<A>, from: nat): (idx: seq<nat>)
    requires from <= |s|
    ensures Increasing(idx)
    ensures forall k :: 0 <= k < |idx| ==> from <= idx[k] < |s| && p(s[idx[k]])
    decreases |s| - from
  {
    if from == |s| then []
    else
      var rest := Kept(p, s, from + 1);
      if p(s[from]) then [from] + rest else rest
  }

  /** Every position at or after `from` whose element satisfies `p` is listed */
  lemma {:induction false} KeptComplete<A>(p: A -> bool, s: seq<A>, from: nat, i: int)
    requires from <= i < |s| && p(s[i])
    ensures i in Kept(p, s, from)
    decreases |s| - from
  {
    if from < i {
      KeptComplete(p, s, from + 1, i);
    }
  }

  /** Filtering the suffix of `s` from `from` on reads `s` at exactly the positions `Kept` lists */
  lemma {:induction false} FilterEmbedsFrom<A>(p: A -> bool, s: seq<A>, from: nat)
    requires from <= |s|
    ensures Embeds(Kept(p, s, from), Filter(p, s[from..]), s)
    decreases |s| - from
  {
    if from < |s| {
      FilterEmbedsFrom(p, s, from + 1);
      assert s[from..][1..] == s[from + 1..];
    }
  }

  /** Filter's result is `s` read, in order, at the positions `Kept` lists */
  lemma FilterEmbeds<A>(p: A -> bool, s: seq<A>)
    ensures Embeds(Kept(p, s, 0), Filter(p, s), s)
  {
    FilterEmbedsFrom(p, s, 0);
    assert s[0..] == s;
  }

  /** `Kept` lists exactly the positions whose element satisfies `p` */
  lemma KeptExactly<A>(p: A -> bool, s: seq<A>)
    ensures forall i :: 0 <= i < |s| ==> (i in Kept(p, s, 0) <==> p(s[i]))
  {
    forall i | 0 <= i < |s| && p(s[i])
      ensures i in Kept(p, s, 0)
    {
      KeptComplete(p, s, 0, i);
    }
  }

  /** Filter drops no element that satisfies `p` */
  lemma {:induction false} FilterKeepsSatisfying<A>(p: A -> bool, s: seq<A>)
    ensures forall i :: 0 <= i < |s| && p(s[i]) ==> s[i] in Filter(p, s)
  {
    FilterEmbeds(p, s);
    var idx, r := Kept(p, s, 0), Filter(p, s);
    forall i | 0 <= i < |s| && p(s[i])
      ensures s[i] in r
    {
      KeptComplete(p, s, 0, i);
      var k :| 0 <= k < |idx| && idx[k] == i;
      assert r[k] == s[i];
    }
  }

  /** Filter's result is a subsequence of its input */
  lemma FilterIsSubsequence<A>(p: A -> bool, s: seq<A>)
    ensures IsSubsequence(Filter(p, s), s)
  {
    FilterEmbeds(p, s);
  }

  /** A filter that rejects nothing returns its input */
  lemma {:induction false} FilterKeepsAll<A>(p: A -> bool, s: seq<A>)
    requires forall i :: 0 <= i < |s| ==> p(s[i])
    ensures Filter(p, s) == s
  {
    if |s| > 0 {
      FilterKeepsAll(p, s[1..]);
    }
  }

  /** Filtering one element in front of the rest */
  lemma FilterCons<A>(p: A -> bool, x: A, s: seq<A>)
    ensures Filter(p, [x] + s) == (if p(x) then [x] else []) + Filter(p, s)
  {
    assert ([x] + s)[1..] == s;
  }

  /** A filter that rejects everything returns nothing */
  lemma {:induction false} FilterDropsAll<A>(p: A -> bool, s: seq<A>)
    requires forall i :: 0 <= i < |s| ==> !p(s[i])
    ensures Filter(p, s) == []
  {
    if |s| > 0 {
      FilterDropsAll(p, s[1..]);
    }
  }

  /** Mapping distributes over concatenation */
  lemma MapAppend<A, B>(f: A -> B, a: seq<A>, b: seq<A>)
    ensures Map(f, a + b) == Map(f, a) + Map(f, b)
  {
  }

  /** Filtering distributes over concatenation */
  lemma {:induction false} FilterAppend<A>(p: A -> bool, a: seq<A>, b: seq<A>)
    ensures Filter(p, a + b) == Filter(p, a) + Filter(p, b)
  {
    if |a| > 0 {
      assert (a + b)[0] == a[0];
      assert (a + b)[1..] == a[1..] + b;
      FilterAppend(p, a[1..], b);
    } else {
      assert a + b == b;
    }
  }
}
