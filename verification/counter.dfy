/** `collections.Counter` as the dashboard uses it: built from a stream of
    words (`Counter(iterable)`), read back with `most_common(n)`. A counter
    keeps its keys in first-insertion order, like the dict it is. */
module Counting {
  import opened Seqs

  /** A word counter: `order` holds the keys in the order they were first
      counted, `counts` the tally of each key. */
  datatype Counter = Counter(order: seq<string>, counts: map<string, nat>) {

    ghost predicate Valid()
    {
      NoDuplicates(order) && forall w :: w in counts <==> w in order
    }

    /** `counter[w]`: a word never counted reads as zero. */
    function Get(w: string): nat
    {
      if w in counts then counts[w] else 0
    }
  }

  /** `c` is the counter `Counter(stream)` builds: its keys are the distinct
      words of `stream` in order of first occurrence, each with its number of
      occurrences. */
  ghost predicate Tallies(c: Counter, stream: seq<string>)
  {
    && c.order == Distinct(stream)
    && (forall w :: w in c.counts <==> w in stream)
    && (forall w :: w in c.counts ==> c.counts[w] == multiset(stream)[w])
  }

  /** `Counter(stream)`: one pass over the stream, adding one to the word's
      tally, or inserting it with tally one when it is new. */
  method Tally(stream: seq<string>) returns (c: Counter)
    ensures Tallies(c, stream)
  {
    var order: seq<string> := [];
    var counts: map<string, nat> := map[];
    for i := 0 to |stream|
      invariant Tallies(Counter(order, counts), stream[..i])
    {
      var w := stream[i];
      assert stream[..i + 1] == stream[..i] + [w];
      if w in counts {
        TallyBump(order, counts, stream[..i], w);
        counts := counts[w := counts[w] + 1];
      } else {
        TallyInsert(order, counts, stream[..i], w);
        order := order + [w];
        counts := counts[w := 1];
      }
    }
    assert stream[..|stream|] == stream;
    c := Counter(order, counts);
  }

  /** Counting one more occurrence of a word already counted. */
  lemma TallyBump(order: seq<string>, counts: map<string, nat>, s: seq<string>, w: string)
    requires Tallies(Counter(order, counts), s) && w in counts
    ensures Tallies(Counter(order, counts[w := counts[w] + 1]), s + [w])
  {
    var s' := s + [w];
    assert s'[..|s'| - 1] == s && s'[|s'| - 1] == w;
    assert Distinct(s') == order;
    CountOneMore(counts, s, w, counts[w] + 1);
  }

  /** Counting the first occurrence of a word. */
  lemma TallyInsert(order: seq<string>, counts: map<string, nat>, s: seq<string>, w: string)
    requires Tallies(Counter(order, counts), s) && w !in counts
    ensures Tallies(Counter(order + [w], counts[w := 1]), s + [w])
  {
    assert w !in s;
    DistinctAppendNew(s, w);
    CountOneMore(counts, s, w, 1);
  }

  /** Setting the tally of `w` to its number of occurrences in `s + [w]` keeps
      every tally equal to the number of occurrences. */
  lemma CountOneMore(counts: map<string, nat>, s: seq<string>, w: string, n: nat)
    requires forall v :: v in counts <==> v in s
    requires forall v :: v in counts ==> counts[v] == multiset(s)[v]
    requires n == multiset(s)[w] + 1
    ensures forall v :: v in counts[w := n] <==> v in s + [w]
    ensures forall v :: v in counts[w := n] ==> counts[w := n][v] == multiset(s + [w])[v]
  {
    assert multiset(s + [w]) == multiset(s) + multiset{w};
    assert forall v :: v in s + [w] <==> v in s || v == w;
  }

  /** A word not seen before goes to the end of the key order. */
  lemma DistinctAppendNew(s: seq<string>, w: string)
    requires w !in s
    ensures Distinct(s + [w]) == Distinct(s) + [w]
  {
    var s' := s + [w];
    assert s'[..|s'| - 1] == s && s'[|s'| - 1] == w;
  }

  /** A counter built from a stream is well formed, and reading any word back
      gives its number of occurrences in the stream (zero when absent). */
  lemma TallyReadsOccurrences(c: Counter, stream: seq<string>, w: string)
    requires Tallies(c, stream)
    ensures c.Valid()
    ensures c.Get(w) == multiset(stream)[w]
  {
  }

  /** Sum of `c[k]` over the keys `ks`. */
  function SumOver(ks: seq<string>, c: Counter): nat
  {
    if ks == [] then 0 else c.Get(ks[0]) + SumOver(ks[1..], c)
  }

  /** `sum(c.values())`. */
  function Total(c: Counter): nat
  {
    SumOver(c.order, c)
  }

  function SumMultiplicities(ks: seq<string>, m: multiset<string>): nat
  {
    if ks == [] then 0 else m[ks[0]] + SumMultiplicities(ks[1..], m)
  }

  lemma {:induction false} SumMultiplicitiesAdd(ks: seq<string>, m: multiset<string>, x: string)
    requires NoDuplicates(ks)
    ensures SumMultiplicities(ks, m + multiset{x}) == SumMultiplicities(ks, m) + (if x in ks then 1 else 0)
  {
    if ks != [] {
      SumMultiplicitiesAdd(ks[1..], m, x);
      assert x in ks <==> x == ks[0] || x in ks[1..];
      assert x == ks[0] ==> x !in ks[1..];
    }
  }

  /** Summing the multiplicities of a stream over a duplicate-free list of keys
      that covers it gives the length of the stream. */
  lemma {:induction false} SumMultiplicitiesOfStream(ks: seq<string>, s: seq<string>)
    requires NoDuplicates(ks)
    requires forall x :: x in s ==> x in ks
    ensures SumMultiplicities(ks, multiset(s)) == |s|
  {
    if s == [] {
      SumMultiplicitiesOfEmpty(ks);
    } else {
      var init := s[..|s| - 1];
      assert s == init + [s[|s| - 1]];
      assert forall x :: x in init ==> x in s;
      SumMultiplicitiesOfStream(ks, init);
      SumMultiplicitiesAdd(ks, multiset(init), s[|s| - 1]);
    }
  }

  lemma {:induction false} SumMultiplicitiesOfEmpty(ks: seq<string>)
    ensures SumMultiplicities(ks, multiset{}) == 0
  {
    if ks != [] {
      SumMultiplicitiesOfEmpty(ks[1..]);
    }
  }

  lemma {:induction false} SumOverIsSumMultiplicities(ks: seq<string>, c: Counter, s: seq<string>)
    requires Tallies(c, s)
    ensures SumOver(ks, c) == SumMultiplicities(ks, multiset(s))
  {
    if ks != [] {
      TallyReadsOccurrences(c, s, ks[0]);
      SumOverIsSumMultiplicities(ks[1..], c, s);
    }
  }

  /** The tallies of a counter add up to the number of words counted. */
  lemma TallyTotal(c: Counter, stream: seq<string>)
    requires Tallies(c, stream)
    ensures Total(c) == |stream|
  {
    SumOverIsSumMultiplicities(c.order, c, stream);
    SumMultiplicitiesOfStream(c.order, stream);
  }

  /** The order `most_common` lists keys in: higher count first, and among equal
      counts the key inserted first. */
  predicate Ahead(c: Counter, a: string, b: string)
    requires a in c.order && b in c.order
  {
    c.Get(a) > c.Get(b) || (c.Get(a) == c.Get(b) && IndexOf(c.order, a) < IndexOf(c.order, b))
  }

  function Words(top: seq<(string, nat)>): (ws: seq<string>)
    ensures |ws| == |top| && forall i :: 0 <= i < |top| ==> ws[i] == top[i].0
  {
    seq(|top|, i requires 0 <= i < |top| => top[i].0)
  }

  /** `top` is `c.most_common(n)`: the first `n` keys (all of them when there
      are fewer) with their counts, in `Ahead` order, and every key left out
      comes after every key listed. */
  ghost predicate IsMostCommon(top: seq<(string, nat)>, c: Counter, n: nat)
  {
    && |top| == Min(n, |c.order|)
    && (forall i :: 0 <= i < |top| ==> top[i].0 in c.order && top[i].1 == c.Get(top[i].0))
    && (forall i, j :: 0 <= i < j < |top| ==> Ahead(c, top[i].0, top[j].0))
    && (forall i, w :: 0 <= i < |top| && w in c.order && w !in Words(top) ==> Ahead(c, top[i].0, w))
  }

  /** Two distinct keys are always ordered one way or the other. */
  lemma AheadTotal(c: Counter, a: string, b: string)
    requires a in c.order && b in c.order && a != b
    ensures Ahead(c, a, b) || Ahead(c, b, a)
  {
  }

  lemma AheadTransitive(c: Counter, a: string, b: string, d: string)
    requires a in c.order && b in c.order && d in c.order
    requires Ahead(c, a, b) && Ahead(c, b, d)
    ensures Ahead(c, a, d)
  {
  }

  /** Position of the key in `rest` that is ahead of every other key of `rest`. */
  method Leader(c: Counter, rest: seq<string>) returns (b: nat)
    requires rest != [] && forall w :: w in rest ==> w in c.order
    requires NoDuplicates(rest)
    ensures b < |rest|
    ensures forall k :: 0 <= k < |rest| && k != b ==> Ahead(c, rest[b], rest[k])
  {
    b := 0;
    for j := 1 to |rest|
      invariant b < j
      invariant forall k :: 0 <= k < j && k != b ==> Ahead(c, rest[b], rest[k])
    {
      if Ahead(c, rest[j], rest[b]) {
        forall k | 0 <= k < j && k != b
          ensures Ahead(c, rest[j], rest[k])
        {
          AheadTransitive(c, rest[j], rest[b], rest[k]);
        }
        b := j;
      } else {
        AheadTotal(c, rest[j], rest[b]);
      }
    }
  }

  lemma RemoveAt(rest: seq<string>, b: nat)
    requires b < |rest| && NoDuplicates(rest)
    ensures NoDuplicates(rest[..b] + rest[b + 1..])
    ensures |rest[..b] + rest[b + 1..]| == |rest| - 1
    ensures forall v :: v in rest[..b] + rest[b + 1..] <==> v in rest && v != rest[b]
  {
    var r := rest[..b] + rest[b + 1..];
    assert forall i :: 0 <= i < |r| ==> r[i] == if i < b then rest[i] else rest[i + 1];
    forall v | v in rest && v != rest[b]
      ensures v in r
    {
      var i :| 0 <= i < |rest| && rest[i] == v;
      if i < b { assert r[i] == v; } else { assert r[i - 1] == v; }
    }
  }

  /** `top` holds, in `Ahead` order, the keys of `c` no longer in `rest`, and
      each of them is ahead of every key still in `rest`. */
  ghost predicate SelectedSoFar(top: seq<(string, nat)>, rest: seq<string>, c: Counter)
  {
    && |top| + |rest| == |c.order|
    && NoDuplicates(rest)
    && (forall w :: w in rest ==> w in c.order)
    && (forall w :: w in c.order ==> w in rest || w in Words(top))
    && (forall i :: 0 <= i < |top| ==> top[i].0 in c.order && top[i].0 !in rest && top[i].1 == c.Get(top[i].0))
    && (forall i, j :: 0 <= i < j < |top| ==> Ahead(c, top[i].0, top[j].0))
    && (forall i, w :: 0 <= i < |top| && w in rest ==> Ahead(c, top[i].0, w))
  }

  lemma SelectedSoFarStep(top: seq<(string, nat)>, rest: seq<string>, c: Counter, b: nat)
    requires SelectedSoFar(top, rest, c)
    requires b < |rest| && forall k :: 0 <= k < |rest| && k != b ==> Ahead(c, rest[b], rest[k])
    ensures SelectedSoFar(top + [(rest[b], c.Get(rest[b]))], rest[..b] + rest[b + 1..], c)
  {
    var w := rest[b];
    var top', rest' := top + [(w, c.Get(w))], rest[..b] + rest[b + 1..];
    RemoveAt(rest, b);
    assert Words(top') == Words(top) + [w];
    forall i, j | 0 <= i < j < |top'|
      ensures Ahead(c, top'[i].0, top'[j].0)
    {
      assert top'[i] == top[i];
      if j == |top| {
        assert top'[j].0 == w && w in rest;
        assert Ahead(c, top[i].0, w);
      } else {
        assert top'[j] == top[j];
        assert Ahead(c, top[i].0, top[j].0);
      }
    }
    forall i, v | 0 <= i < |top'| && v in rest'
      ensures Ahead(c, top'[i].0, v)
    {
      if i == |top| {
        var k :| 0 <= k < |rest| && rest[k] == v;
        assert k != b;
      } else {
        assert top'[i] == top[i] && v in rest;
      }
    }
  }

  /** `c.most_common(n)`: repeatedly takes the key that is ahead of all keys
      not yet taken. */
  method MostCommon(c: Counter, n: nat) returns (top: seq<(string, nat)>)
    requires c.Valid()
    ensures IsMostCommon(top, c, n)
  {
    top := [];
    var rest := c.order;
    while |top| < n && rest != []
      invariant SelectedSoFar(top, rest, c) && |top| <= n
      decreases |rest|
    {
      var b := Leader(c, rest);
      SelectedSoFarStep(top, rest, c, b);
      top, rest := top + [(rest[b], c.Get(rest[b]))], rest[..b] + rest[b + 1..];
    }
  }

  /** What `most_common(n)` promises: at most `n` entries and no more than
      there are keys, counts never increase along the table, and every key
      left out has a count no larger than the last one listed. */
  lemma MostCommonBounds(top: seq<(string, nat)>, c: Counter, n: nat)
    requires IsMostCommon(top, c, n)
    ensures |top| <= n && |top| <= |c.order|
    ensures forall i, j :: 0 <= i < j < |top| ==> top[i].1 >= top[j].1
    ensures forall w :: w in c.order && w !in Words(top) && |top| > 0 ==> c.Get(w) <= top[|top| - 1].1
  {
  }

  /** `most_common(n)` with `n > 0` lists nothing exactly when the counted
      stream was empty. */
  lemma MostCommonEmptyIffNothingCounted(top: seq<(string, nat)>, c: Counter, stream: seq<string>, n: nat)
    requires Tallies(c, stream) && IsMostCommon(top, c, n) && n > 0
    ensures top == [] <==> stream == []
  {
    if stream != [] {
      assert stream[0] in c.order;
    }
  }

  /** Entries with equal counts appear in the order their words first occur in
      the counted stream. */
  lemma MostCommonTiesByFirstOccurrence(top: seq<(string, nat)>, c: Counter, stream: seq<string>, n: nat, i: nat, j: nat)
    requires Tallies(c, stream) && IsMostCommon(top, c, n)
    requires i < j < |top| && top[i].1 == top[j].1
    ensures top[i].0 in stream && top[j].0 in stream
    ensures IndexOf(stream, top[i].0) < IndexOf(stream, top[j].0)
  {
    var a, b := top[i].0, top[j].0;
    assert Ahead(c, a, b);
    DistinctFirstOccurrence(stream, IndexOf(c.order, a), IndexOf(c.order, b));
  }
}
