/** The dashboard's data pipeline, from the loaded table to every table the
    views display: the sentiment and date counts, the five most retweeted
    tweets, and the twenty most common words overall, after stop-word removal,
    and among positive and negative tweets. */
module Analytics {
  import opened Seqs
  import opened Text
  import opened Stopwords
  import opened Counting
  import opened Corpus
  import opened Grouping
  import opened Ranking

  /** Everything the pipeline computes, under the names the views use. */
  datatype Views = Views(
    sentiments: seq<Group>,
    dateCount: seq<Group>,
    orderedTweets: seq<Tweet>,
    counts: Counter,
    top20: seq<(string, nat)>,
    counts1: Counter,
    top20w: seq<(string, nat)>,
    counts2: Counter,
    top20p: seq<(string, nat)>,
    counts3: Counter,
    top20n: seq<(string, nat)>)

  /** What running the pipeline shows: every derived table, or the
      `ValueError` raised at a source line. `pd.DataFrame(c.most_common(20))`
      of an empty counter has no columns, so renaming its columns to
      'Common words' and 'Count' (lines 39, 62, 69 and 76) fails, and nothing
      after that line runs. */
  datatype Outcome = Shown(views: Views) | ValueError(line: nat)

  /** The stream `counts` counts (line 37): every token of every tweet. */
  function AllTokens(tweets: seq<Tweet>): seq<string>
  {
    Flatten(TokenColumn(tweets))
  }

  /** The stream `counts1` counts (line 60): the normalised filtered tokens. */
  function FilteredWords(tweets: seq<Tweet>): seq<string>
  {
    NormalisedStream(FilteredColumn(TokenColumn(tweets)))
  }

  /** The stream `counts2` or `counts3` counts (lines 67 and 74): the
      normalised filtered tokens of the tweets with sentiment `category`. */
  function SentimentWords(tweets: seq<Tweet>, category: string): seq<string>
  {
    NormalisedStream(Selected(tweets, FilteredColumn(TokenColumn(tweets)), category))
  }

  /** The sentiment categories with a table of their own. */
  const Positive: string := "Positive"
  const Negative: string := "Negative"

  /** What each table of `v` is for the table `tweets`. */
  ghost predicate Computed(v: Views, tweets: seq<Tweet>)
  {
    && IsGrouping(v.sentiments, tweets, OverallSentiment)
    && IsGrouping(v.dateCount, tweets, DatePosted)
    && IsTopRetweeted(v.orderedTweets, tweets, 5)
    && Tallies(v.counts, AllTokens(tweets))
    && IsMostCommon(v.top20, v.counts, 20)
    && Tallies(v.counts1, FilteredWords(tweets))
    && IsMostCommon(v.top20w, v.counts1, 20)
    && Tallies(v.counts2, SentimentWords(tweets, Positive))
    && IsMostCommon(v.top20p, v.counts2, 20)
    && Tallies(v.counts3, SentimentWords(tweets, Negative))
    && IsMostCommon(v.top20n, v.counts3, 20)
  }

  /** The pipeline, step by step: the 'temp' column is first the token lists
      and then, reassigned, the token lists without stop words. The first
      empty word table raises the `ValueError` of its line; when none is
      empty, every table is shown. */
  method Analyse(tweets: seq<Tweet>) returns (o: Outcome)
    ensures o == ValueError(39) <==> AllTokens(tweets) == []
    ensures o == ValueError(62) <==> AllTokens(tweets) != [] && FilteredWords(tweets) == []
    ensures o == ValueError(69) <==> AllTokens(tweets) != [] && FilteredWords(tweets) != []
                                     && SentimentWords(tweets, Positive) == []
    ensures o == ValueError(76) <==> AllTokens(tweets) != [] && FilteredWords(tweets) != []
                                     && SentimentWords(tweets, Positive) != [] && SentimentWords(tweets, Negative) == []
    ensures o.ValueError? ==> o.line == 39 || o.line == 62 || o.line == 69 || o.line == 76
    ensures o.Shown? ==> Computed(o.views, tweets)
    ensures o.Shown? ==> o.views.top20 != [] && o.views.top20w != [] && o.views.top20p != [] && o.views.top20n != []
  {
    var sentiments := GroupCount(tweets, OverallSentiment);
    var dateCount := GroupCount(tweets, DatePosted);
    var orderedTweets := TopRetweeted(tweets, 5);

    var temp := TokenColumn(tweets);
    var counts := Tally(Flatten(temp));
    TallyReadsOccurrences(counts, Flatten(temp), "");
    var top20 := MostCommon(counts, 20);
    MostCommonEmptyIffNothingCounted(top20, counts, Flatten(temp), 20);
    if top20 == [] {
      return ValueError(39);
    }

    temp := FilteredColumn(temp);
    var counts1 := Tally(NormalisedStream(temp));
    TallyReadsOccurrences(counts1, NormalisedStream(temp), "");
    var top20w := MostCommon(counts1, 20);
    MostCommonEmptyIffNothingCounted(top20w, counts1, NormalisedStream(temp), 20);
    if top20w == [] {
      return ValueError(62);
    }

    var positives := Selected(tweets, temp, Positive);
    var counts2 := Tally(NormalisedStream(positives));
    TallyReadsOccurrences(counts2, NormalisedStream(positives), "");
    var top20p := MostCommon(counts2, 20);
    MostCommonEmptyIffNothingCounted(top20p, counts2, NormalisedStream(positives), 20);
    if top20p == [] {
      return ValueError(69);
    }

    var negatives := Selected(tweets, temp, Negative);
    var counts3 := Tally(NormalisedStream(negatives));
    TallyReadsOccurrences(counts3, NormalisedStream(negatives), "");
    var top20n := MostCommon(counts3, 20);
    MostCommonEmptyIffNothingCounted(top20n, counts3, NormalisedStream(negatives), 20);
    if top20n == [] {
      return ValueError(76);
    }

    o := Shown(Views(sentiments, dateCount, orderedTweets, counts, top20,
                     counts1, top20w, counts2, top20p, counts3, top20n));
  }

  /** A table without Positive tweets has no Positive words, the condition
      under which `Analyse` stops at line 69 when earlier lines passed. */
  lemma NoPositiveTweetsNoPositiveWords(tweets: seq<Tweet>)
    requires forall i :: 0 <= i < |tweets| ==> tweets[i].sentiment != Some(Positive)
    ensures SentimentWords(tweets, Positive) == []
  {
    NothingSelected(tweets, FilteredColumn(TokenColumn(tweets)), Positive);
  }

  /** A word is never counted more often among positive and negative tweets
      together than among all tweets. */
  lemma PositivePlusNegativeAtMostAll(v: Views, tweets: seq<Tweet>, w: string)
    requires Computed(v, tweets)
    ensures v.counts2.Get(w) + v.counts3.Get(w) <= v.counts1.Get(w)
  {
    var temp := FilteredColumn(TokenColumn(tweets));
    TallyReadsOccurrences(v.counts1, FilteredWords(tweets), w);
    TallyReadsOccurrences(v.counts2, SentimentWords(tweets, Positive), w);
    TallyReadsOccurrences(v.counts3, SentimentWords(tweets, Negative), w);
    DisjointSelectionsBounded(tweets, temp, Positive, Negative, w);
  }

  /** Every word counted after stop-word removal (every key of `counts1` of
      `Analyse`) is the lower-case form of a token of some tweet that survived
      the filter, and is not a stop word. */
  lemma CountedWordsAreLoweredTokens(counts1: Counter, tweets: seq<Tweet>, w: string)
    requires Tallies(counts1, FilteredWords(tweets))
    requires w in counts1.counts
    ensures !IsStopword(w)
    ensures exists i, t :: 0 <= i < |tweets| && t in PostTokens(tweets[i].postText)
                           && !IsStopword(t) && w == Lower(t)
  {
    FilteredWordsAreLoweredTokens(tweets, w);
  }

  /** The counts of all words add up to the number of tokens of all tweets. */
  lemma WordCountsAddUpToTokens(v: Views, tweets: seq<Tweet>)
    requires Computed(v, tweets)
    ensures Total(v.counts) == TotalLength(TokenColumn(tweets))
  {
    TallyTotal(v.counts, AllTokens(tweets));
    FlattenLength(TokenColumn(tweets));
  }
}
