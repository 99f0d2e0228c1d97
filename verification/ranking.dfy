/** `tweets.sort_values('Retweets', ascending=False).head(n)`: the `n` most
    retweeted rows, most retweeted first. */
module Ranking {
  import opened Seqs
  import opened Corpus

  /** `top` is what sorting by retweets in descending order and taking the
      first `n` rows can give: `n` rows of the table (all of them when there
      are fewer), retweets never increasing along `top`, and no row left out
      with more retweets than a row kept. The order among equal retweet counts
      is left open, as the sort used is not stable. */
  ghost predicate IsTopRetweeted(top: seq<Tweet>, rows: seq<Tweet>, n: nat)
  {
    && |top| == Min(n, |rows|)
    && multiset(top) <= multiset(rows)
    && (forall i, j :: 0 <= i < j < |top| ==> top[i].retweets >= top[j].retweets)
    && (forall i, r :: 0 <= i < |top| && r in multiset(rows) - multiset(top) ==> r.retweets <= top[i].retweets)
  }

  /** Position of a most retweeted row of `rest`. */
  method MostRetweeted(rest: seq<Tweet>) returns (b: nat)
    requires rest != []
    ensures b < |rest|
    ensures forall k :: 0 <= k < |rest| ==> rest[k].retweets <= rest[b].retweets
  {
    b := 0;
    for j := 1 to |rest|
      invariant b < j
      invariant forall k :: 0 <= k < j ==> rest[k].retweets <= rest[b].retweets
    {
      if rest[j].retweets > rest[b].retweets {
        b := j;
      }
    }
  }

  /** `top` holds, in non-increasing retweet order, the rows of `rows` no longer
      in `rest`, and none of `rest` has more retweets than any of them. */
  ghost predicate TakenSoFar(top: seq<Tweet>, rest: seq<Tweet>, rows: seq<Tweet>)
  {
    && |top| + |rest| == |rows|
    && multiset(top) + multiset(rest) == multiset(rows)
    && (forall i, j :: 0 <= i < j < |top| ==> top[i].retweets >= top[j].retweets)
    && (forall i, r :: 0 <= i < |top| && r in rest ==> r.retweets <= top[i].retweets)
  }

  lemma TakenSoFarStep(top: seq<Tweet>, rest: seq<Tweet>, rows: seq<Tweet>, b: nat)
    requires TakenSoFar(top, rest, rows)
    requires b < |rest| && forall k :: 0 <= k < |rest| ==> rest[k].retweets <= rest[b].retweets
    ensures TakenSoFar(top + [rest[b]], rest[..b] + rest[b + 1..], rows)
  {
    var r := rest[b];
    var top', rest' := top + [r], rest[..b] + rest[b + 1..];
    RemoveRow(rest, b);
    assert multiset(top') == multiset(top) + multiset{r};
    forall i, j | 0 <= i < j < |top'|
      ensures top'[i].retweets >= top'[j].retweets
    {
      if j == |top| {
        assert top'[j] == r && r in rest;
      }
    }
    forall i, r' | 0 <= i < |top'| && r' in rest'
      ensures r'.retweets <= top'[i].retweets
    {
      assert r' in rest;
    }
  }

  /** Sort by retweets, descending, and keep the first `n` rows: repeatedly
      moves a most retweeted remaining row to the end of `top`. */
  method TopRetweeted(rows: seq<Tweet>, n: nat) returns (top: seq<Tweet>)
    ensures IsTopRetweeted(top, rows, n)
  {
    top := [];
    var rest := rows;
    while |top| < n && rest != []
      invariant TakenSoFar(top, rest, rows) && |top| <= n
      decreases |rest|
    {
      var b := MostRetweeted(rest);
      TakenSoFarStep(top, rest, rows, b);
      top, rest := top + [rest[b]], rest[..b] + rest[b + 1..];
    }
    TakenAll(top, rest, rows, n);
  }

  /** The loop's state on exit meets the specification. */
  lemma TakenAll(top: seq<Tweet>, rest: seq<Tweet>, rows: seq<Tweet>, n: nat)
    requires TakenSoFar(top, rest, rows) && |top| <= n && (|top| == n || rest == [])
    ensures IsTopRetweeted(top, rows, n)
  {
    assert multiset(rows) - multiset(top) == multiset(rest);
  }

  lemma RemoveRow(rest: seq<Tweet>, b: nat)
    requires b < |rest|
    ensures multiset(rest[..b] + rest[b + 1..]) + multiset{rest[b]} == multiset(rest)
    ensures forall r :: r in rest[..b] + rest[b + 1..] ==> r in rest
  {
    assert rest == rest[..b] + [rest[b]] + rest[b + 1..];
  }

  /** The first row kept is a most retweeted row of the whole table, and every
      row of the table that was left out has no more retweets than the last
      row kept. */
  lemma TopRetweetedBounds(top: seq<Tweet>, rows: seq<Tweet>, n: nat)
    requires IsTopRetweeted(top, rows, n) && top != []
    ensures forall r :: r in rows ==> r.retweets <= top[0].retweets
    ensures forall r :: r in rows && r !in top ==> r.retweets <= top[|top| - 1].retweets
    ensures forall r :: r in top ==> r in rows
  {
    forall r | r in rows
      ensures r.retweets <= top[0].retweets
    {
      if r in top {
        var j :| 0 <= j < |top| && top[j] == r;
        assert j == 0 || top[0].retweets >= top[j].retweets;
      } else {
        assert r in multiset(rows) - multiset(top);
      }
    }
    forall r | r in rows && r !in top
      ensures r.retweets <= top[|top| - 1].retweets
    {
      assert r in multiset(rows) - multiset(top);
    }
    forall r | r in top
      ensures r in rows
    {
      assert r in multiset(top);
    }
  }

  /** When `n` covers the whole table the result is the table itself, reordered. */
  lemma TopRetweetedAllRows(top: seq<Tweet>, rows: seq<Tweet>, n: nat)
    requires IsTopRetweeted(top, rows, n) && n >= |rows|
    ensures multiset(top) == multiset(rows)
  {
    assert |multiset(top)| == |top| == |rows| == |multiset(rows)|;
    var d := multiset(rows) - multiset(top);
    assert multiset(rows) == multiset(top) + d;
    assert |d| == 0;
  }
}
