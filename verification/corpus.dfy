/** The tweet table as the dashboard reads it, and the token streams built
    from its 'Post Text' column. */
module Corpus {
  import opened Seqs
  import opened Text
  import opened Stopwords

  /** A spreadsheet cell that may be empty (pandas NaN). */
  datatype Option<T> = None | Some(value: T)

  /** One row of the table, reduced to the columns the pipeline reads:
      '#', 'Date Posted' (ISO date text), 'Post Text', 'Retweets' and
      'Overall Sentiment'. */
  datatype Tweet = Tweet(
    id: Option<int>,
    datePosted: Option<string>,
    postText: Option<string>,
    retweets: int,
    sentiment: Option<string>)

  /** `str(x)` of a 'Post Text' cell: a text cell is its own text, and an
      empty cell is the float NaN, whose text is the single word "nan". */
  function CellText(cell: Option<string>): (text: string)
    ensures cell.Some? ==> text == cell.value
    ensures cell.None? ==> |text| == 3 && NoSpace(text)
  {
    match cell
    case Some(s) => s
    case None => "nan"
  }

  /** `lambda x : str(x).split()` */
  function PostTokens(cell: Option<string>): (tokens: seq<string>)
    ensures forall t :: t in tokens ==> t != [] && NoSpace(t)
  {
    Split(CellText(cell))
  }

  /** A missing text is tokenised as the single word "nan"; an empty or
      all-whitespace text gives no tokens. */
  lemma PostTokensEdgeCases(text: string)
    ensures PostTokens(None) == ["nan"]
    ensures AllSpace(text) ==> PostTokens(Some(text)) == []
  {
    var nan := CellText(None);
    assert !IsSpace(nan[0]) && !IsSpace(nan[1]) && !IsSpace(nan[2]);
    assert Join([nan]) == nan;
    SplitJoin([nan]);
  }

  /** `tweets['Post Text'].apply(lambda x : str(x).split())`: one token list per row. */
  function TokenColumn(tweets: seq<Tweet>): (temp: seq<seq<string>>)
    ensures |temp| == |tweets|
    ensures forall i :: 0 <= i < |tweets| ==> temp[i] == PostTokens(tweets[i].postText)
  {
    seq(|tweets|, i requires 0 <= i < |tweets| => PostTokens(tweets[i].postText))
  }

  /** `temp.apply(lambda x: stopwords_remover(x))`: the stop words removed from each row. */
  function FilteredColumn(temp: seq<seq<string>>): (r: seq<seq<string>>)
    ensures |r| == |temp|
    ensures forall i :: 0 <= i < |temp| ==> r[i] == RemoveStopwords(temp[i])
  {
    seq(|temp|, i requires 0 <= i < |temp| => RemoveStopwords(temp[i]))
  }

  /** `item.lower().strip()`: never longer than the item, without whitespace
      at either end, and for a whitespace-free item just its lower-case form. */
  function Normalise(t: string): (r: string)
    ensures |r| <= |t|
    ensures r == [] || (!IsSpace(r[0]) && !IsSpace(r[|r| - 1]))
    ensures NoSpace(t) ==> r == Lower(t)
  {
    LowerIdempotent(t);
    if NoSpace(t) then StripOfWord(Lower(t)); Strip(Lower(t)) else Strip(Lower(t))
  }

  /** `item.lower().strip()` applied to every word of `s`, in order. */
  function NormaliseAll(s: seq<string>): (r: seq<string>)
    ensures |r| == |s|
    ensures forall i :: 0 <= i < |s| ==> r[i] == Normalise(s[i])
  {
    MapSeq(Normalise, s)
  }

  lemma NormaliseAllAppend(a: seq<string>, b: seq<string>)
    ensures NormaliseAll(a + b) == NormaliseAll(a) + NormaliseAll(b)
  {
  }

  /** `item.lower().strip() for sublist in x for item in sublist`: one word
      per item of all rows together. */
  function NormalisedStream(x: seq<seq<string>>): (r: seq<string>)
    ensures |r| == TotalLength(x)
  {
    FlattenLength(x);
    NormaliseAll(Flatten(x))
  }

  /** Every word of a normalised stream is `lower().strip()` of a token of one of the rows. */
  lemma NormalisedWordsComeFromTokens(x: seq<seq<string>>, w: string)
    requires w in NormalisedStream(x)
    ensures exists i, t :: 0 <= i < |x| && t in x[i] && w == Normalise(t)
  {
    var r := NormalisedStream(x);
    var k :| 0 <= k < |r| && r[k] == w;
    assert |r| == |Flatten(x)|;
    var t := Flatten(x)[k];
    FlattenMembers(x, t);
  }

  /** A whitespace-free token normalises to its lower-case form, so a token
      that survived the stop-word filter is not a stop word after
      normalisation either. */
  lemma NormaliseFilteredToken(t: string)
    requires NoSpace(t) && !IsStopword(t)
    ensures Normalise(t) == Lower(t)
    ensures !IsStopword(Normalise(t))
  {
    LowerIdempotent(t);
    StripOfWord(Lower(t));
  }

  /** `tweets[tweets['Overall Sentiment'] == category]['temp']`: the entries of
      the column `col` in the rows with that sentiment category, in table order. */
  function Selected<T>(tweets: seq<Tweet>, col: seq<T>, category: string): (r: seq<T>)
    requires |col| == |tweets|
    ensures |r| <= |col|
  {
    if tweets == [] then []
    else (if tweets[0].sentiment == Some(category) then [col[0]] else [])
         + Selected(tweets[1..], col[1..], category)
  }

  /** The positions from `i` on of the rows with sentiment `category`, in
      ascending order. */
  function MatchingFrom(tweets: seq<Tweet>, category: string, i: nat): (idx: seq<nat>)
    requires i <= |tweets|
    ensures forall k :: 0 <= k < |idx| ==> i <= idx[k] < |tweets| && tweets[idx[k]].sentiment == Some(category)
    ensures forall k, l :: 0 <= k < l < |idx| ==> idx[k] < idx[l]
    ensures forall j :: i <= j < |tweets| && tweets[j].sentiment == Some(category) ==> j in idx
    decreases |tweets| - i
  {
    if i == |tweets| then []
    else
      var rest := MatchingFrom(tweets, category, i + 1);
      if tweets[i].sentiment == Some(category) then [i] + rest else rest
  }

  /** The positions of the rows with sentiment `category`, in ascending order:
      the index of `tweets[tweets['Overall Sentiment'] == category]`. */
  function MatchingRows(tweets: seq<Tweet>, category: string): (idx: seq<nat>)
    ensures forall k :: 0 <= k < |idx| ==> idx[k] < |tweets| && tweets[idx[k]].sentiment == Some(category)
    ensures forall k, l :: 0 <= k < l < |idx| ==> idx[k] < idx[l]
    ensures forall j :: 0 <= j < |tweets| && tweets[j].sentiment == Some(category) ==> j in idx
  {
    MatchingFrom(tweets, category, 0)
  }

  /** `r` lists the entries of `col` at the positions `idx`, in that order. */
  ghost predicate PicksRows<T>(r: seq<T>, col: seq<T>, idx: seq<nat>)
  {
    |r| == |idx| && forall k :: 0 <= k < |idx| ==> idx[k] < |col| && r[k] == col[idx[k]]
  }

  lemma PicksRowsCons<T>(tail: seq<T>, col: seq<T>, rest: seq<nat>, i: nat)
    requires PicksRows(tail, col, rest) && i < |col|
    ensures PicksRows([col[i]] + tail, col, [i] + rest)
  {
    forall k | 0 <= k < |rest| + 1
      ensures ([i] + rest)[k] < |col| && ([col[i]] + tail)[k] == col[([i] + rest)[k]]
    {
      if k > 0 {
        assert ([i] + rest)[k] == rest[k - 1] && ([col[i]] + tail)[k] == tail[k - 1];
      }
    }
  }

  /** From row `i` on, the selected entries are the entries of the matching rows. */
  lemma {:induction false} SelectedFrom<T>(tweets: seq<Tweet>, col: seq<T>, category: string, i: nat)
    requires |col| == |tweets| && i <= |tweets|
    ensures PicksRows(Selected(tweets[i..], col[i..], category), col, MatchingFrom(tweets, category, i))
    decreases |tweets| - i
  {
    if i < |tweets| {
      SelectedFrom(tweets, col, category, i + 1);
      assert tweets[i..][1..] == tweets[i + 1..] && col[i..][1..] == col[i + 1..];
      var tail := Selected(tweets[i + 1..], col[i + 1..], category);
      var rest := MatchingFrom(tweets, category, i + 1);
      if tweets[i].sentiment == Some(category) {
        assert Selected(tweets[i..], col[i..], category) == [col[i]] + tail;
        assert MatchingFrom(tweets, category, i) == [i] + rest;
        PicksRowsCons(tail, col, rest, i);
      } else {
        assert Selected(tweets[i..], col[i..], category) == tail;
        assert MatchingFrom(tweets, category, i) == rest;
      }
    }
  }

  /** The selected entries are exactly the entries of the matching rows, in
      table order: `Selected` holds `col[i]` for every row `i` with that
      sentiment and for no other row. */
  lemma SelectedPicksMatchingRows<T>(tweets: seq<Tweet>, col: seq<T>, category: string)
    requires |col| == |tweets|
    ensures var r, idx := Selected(tweets, col, category), MatchingRows(tweets, category);
      |r| == |idx| && forall k :: 0 <= k < |idx| ==> r[k] == col[idx[k]]
  {
    SelectedFrom(tweets, col, category, 0);
    assert tweets[0..] == tweets && col[0..] == col;
  }

  /** Without rows of the category, nothing is selected. */
  lemma {:induction false} NothingSelected<T>(tweets: seq<Tweet>, col: seq<T>, category: string)
    requires |col| == |tweets|
    requires forall i :: 0 <= i < |tweets| ==> tweets[i].sentiment != Some(category)
    ensures Selected(tweets, col, category) == []
  {
    if tweets != [] {
      assert forall i :: 1 <= i < |tweets| ==> tweets[1..][i - 1] == tweets[i];
      NothingSelected(tweets[1..], col[1..], category);
    }
  }

  /** Rows restricted to two different sentiments are disjoint, so every
      element occurs in the two restricted columns together at most as often
      as in the whole column. */
  lemma {:induction false} DisjointSelectionsCount<T>(tweets: seq<Tweet>, col: seq<seq<T>>, l1: string, l2: string, w: T)
    requires |col| == |tweets| && l1 != l2
    ensures multiset(Flatten(Selected(tweets, col, l1)))[w] + multiset(Flatten(Selected(tweets, col, l2)))[w]
         <= multiset(Flatten(col))[w]
  {
    if tweets != [] {
      var rows, tail := tweets[1..], col[1..];
      DisjointSelectionsCount(rows, tail, l1, l2, w);
      var m := multiset(col[0])[w];
      assert multiset(Flatten(col))[w] == m + multiset(Flatten(tail))[w] by {
        assert Flatten(col) == col[0] + Flatten(tail);
      }
      SelectedHead(tweets, col, l1, w);
      SelectedHead(tweets, col, l2, w);
    }
  }

  /** How often `w` occurs in the selected entries: its count in the first
      entry, when that row has the category, plus its count in the rest. */
  lemma SelectedHead<T>(tweets: seq<Tweet>, col: seq<seq<T>>, category: string, w: T)
    requires |col| == |tweets| && tweets != []
    ensures multiset(Flatten(Selected(tweets, col, category)))[w]
         == (if tweets[0].sentiment == Some(category) then multiset(col[0])[w] else 0)
          + multiset(Flatten(Selected(tweets[1..], col[1..], category)))[w]
  {
    var rest := Selected(tweets[1..], col[1..], category);
    if tweets[0].sentiment == Some(category) {
      assert Selected(tweets, col, category) == [col[0]] + rest;
      FlattenAppend([col[0]], rest);
    } else {
      assert Selected(tweets, col, category) == rest;
    }
  }

  /** `item.lower().strip()` applied within each row. */
  function NormalisedRows(x: seq<seq<string>>): (r: seq<seq<string>>)
    ensures |r| == |x| && forall i :: 0 <= i < |x| ==> r[i] == NormaliseAll(x[i])
  {
    MapSeq(NormaliseAll, x)
  }

  /** Normalising the flattened stream is flattening the normalised rows. */
  lemma {:induction false} NormalisedStreamByRows(x: seq<seq<string>>)
    ensures NormalisedStream(x) == Flatten(NormalisedRows(x))
  {
    if x != [] {
      NormalisedStreamByRows(x[1..]);
      NormaliseAllAppend(x[0], Flatten(x[1..]));
      assert NormalisedRows(x)[1..] == NormalisedRows(x[1..]);
    }
  }

  /** Selecting rows commutes with applying a function to every entry. */
  lemma {:induction false} SelectedMap<T, U>(tweets: seq<Tweet>, col: seq<T>, f: T -> U, category: string)
    requires |col| == |tweets|
    ensures MapSeq(f, Selected(tweets, col, category)) == Selected(tweets, MapSeq(f, col), category)
  {
    if tweets != [] {
      SelectedMap(tweets[1..], col[1..], f, category);
      var mapped := MapSeq(f, col);
      assert mapped[1..] == MapSeq(f, col[1..]);
      var rest := Selected(tweets[1..], col[1..], category);
      if tweets[0].sentiment == Some(category) {
        assert MapSeq(f, [col[0]] + rest) == [mapped[0]] + MapSeq(f, rest);
      }
    }
  }

  /** For every word, its count among the tweets of one sentiment plus its
      count among the tweets of another never exceeds its count among all
      tweets. */
  lemma DisjointSelectionsBounded(tweets: seq<Tweet>, temp: seq<seq<string>>, l1: string, l2: string, w: string)
    requires |temp| == |tweets| && l1 != l2
    ensures multiset(NormalisedStream(Selected(tweets, temp, l1)))[w]
          + multiset(NormalisedStream(Selected(tweets, temp, l2)))[w]
         <= multiset(NormalisedStream(temp))[w]
  {
    NormalisedStreamByRows(temp);
    NormalisedStreamByRows(Selected(tweets, temp, l1));
    NormalisedStreamByRows(Selected(tweets, temp, l2));
    SelectedMap(tweets, temp, NormaliseAll, l1);
    SelectedMap(tweets, temp, NormaliseAll, l2);
    DisjointSelectionsCount(tweets, NormalisedRows(temp), l1, l2, w);
  }

  /** Every word of the normalised stream of the filtered token column is the
      lower-case form of a token of some tweet that survived the filter, and
      is not a stop word. */
  lemma FilteredWordsAreLoweredTokens(tweets: seq<Tweet>, w: string)
    requires w in NormalisedStream(FilteredColumn(TokenColumn(tweets)))
    ensures !IsStopword(w)
    ensures exists i, t :: 0 <= i < |tweets| && t in PostTokens(tweets[i].postText)
                           && !IsStopword(t) && w == Lower(t)
  {
    var tokens := TokenColumn(tweets);
    var temp := FilteredColumn(tokens);
    NormalisedWordsComeFromTokens(temp, w);
    var i, t :| 0 <= i < |temp| && t in temp[i] && w == Normalise(t);
    assert t in tokens[i] && !IsStopword(t) by {
      assert temp[i] == RemoveStopwords(tokens[i]);
    }
    assert NoSpace(t) by {
      assert tokens[i] == PostTokens(tweets[i].postText);
    }
    NormaliseFilteredToken(t);
  }

  /** No word is left after the stop-word filter exactly when every token of
      every tweet is a stop word. */
  lemma NoWordsLeftIffAllStopwords(tweets: seq<Tweet>)
    ensures NormalisedStream(FilteredColumn(TokenColumn(tweets))) == []
        <==> forall i, t :: 0 <= i < |tweets| && t in PostTokens(tweets[i].postText) ==> IsStopword(t)
  {
    var tokens := TokenColumn(tweets);
    var temp := FilteredColumn(tokens);
    assert |NormalisedStream(temp)| == |Flatten(temp)|;
    FlattenEmpty(temp);
    forall i | 0 <= i < |tweets|
      ensures temp[i] == [] <==> forall t :: t in PostTokens(tweets[i].postText) ==> IsStopword(t)
    {
      RemoveEmptyIff(tokens[i], N);
    }
  }
}
