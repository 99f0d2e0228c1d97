# #QueensFuneral tweet analytics: the data pipeline

The dashboard loads a table of tweets about the Queen's funeral and derives from
it every table its views show. This project models that pipeline in Dafny and
proves properties of it. The pipeline runs at module scope in
`tweetanalysis/app.py`, lines 25-76. It computes:

- `sentiments` and `dateCount`: the number of rows per 'Overall Sentiment' and
  per 'Date Posted' (`groupby(...)['#'].count()`).
- `ordered_tweets`: the five most retweeted rows
  (`sort_values('Retweets', ascending=False).head(5)`).
- the 'temp' column: each 'Post Text' split at whitespace (`str(x).split()`),
  then reassigned with the stop words of the list `N` removed
  (`stopwords_remover`, which compares `word.lower()` with `N`).
- `counts`/`top20`: a `Counter` of the raw tokens and its `most_common(20)`.
- `counts1`/`top20w`, `counts2`/`top20p`, `counts3`/`top20n`: the same for the
  filtered tokens after `lower().strip()`, over all tweets, over the Positive
  tweets and over the Negative tweets.

A word table is built with `pd.DataFrame(c.most_common(20))` and then gets its
columns renamed to 'Common words' and 'Count'. For an empty counter that frame
has no columns, the rename raises `ValueError`, and the script stops there. This
happens at line 39, 62, 69 or 76: when no tweet has a token, when every token is
a stop word, or when no Positive or no Negative tweet has a word left.

Modules:

- `Seqs`: flattening, first-occurrence order and mapping over sequences.
- `Text`: `str.split()`, `str.lower()` and `str.strip()`.
- `Stopwords`: the list `N` and the filter.
- `StopwordLengths` and `FilterExample`: one tweet text tokenised and filtered.
- `Corpus`: the tweet row, the token columns and the sentiment selections.
- `Counting`: `Counter` and `most_common`.
- `Grouping`: the group counts.
- `Ranking`: the top five by retweets.
- `Analytics`: the whole pipeline as one method, `Analyse`. It returns either
  `Shown`, holding every derived table in a `Views`, or the `ValueError` the
  script raises when a word table is empty. The predicate `Computed` states
  what each table is for the input table.

The loops of the source become methods with loops and invariants: `Tally`
(building a `Counter`), `MostCommon`, `CountPerKey`/`SortedGroups` (the
groupby) and `TopRetweeted`. Each is proved against a predicate on its inputs.
Pure expressions (`split`, the filter, `lower`, `strip`, the comprehensions)
become functions.

## Model

| member | source | states |
|---|---|---|
| Text.Split | tweetanalysis/app.py:35 | `str.split()`: every token is non-empty and whitespace-free, and there are no tokens exactly when the text is empty or all whitespace |
| Text.SplitKeepsAllText | tweetanalysis/app.py:35 | concatenating the tokens gives exactly the non-whitespace characters of the text, in order: splitting drops only whitespace |
| Text.SplitJoin | tweetanalysis/app.py:35 | splitting undoes joining with single spaces, for any list of whitespace-free non-empty words |
| Text.SplitSkipsSpace | tweetanalysis/app.py:35 | any run of whitespace (spaces, tabs, newlines, of any length) before the text is skipped by `split()` |
| Text.SplitWordThenSpace | tweetanalysis/app.py:35 | a whitespace-free word followed by any non-empty run of whitespace becomes one token, and splitting carries on after the run |
| Text.WordLength | tweetanalysis/app.py:35 | the first token ends at the first whitespace character: the prefix before it is whitespace-free |
| Text.LowerChar | tweetanalysis/app.py:55 | `lower()` on one character maps each letter 'A'..'Z' to its lower-case letter (code point plus 32) and leaves every other character unchanged (ASCII folding only) |
| Text.Lower | tweetanalysis/app.py:55 | `lower()` keeps the length and maps each character by `LowerChar` |
| Text.LowerIdempotent | tweetanalysis/app.py:60 | lower-casing twice is lower-casing once, and it never creates whitespace |
| Text.LeadingSpaces | tweetanalysis/app.py:60 | the prefix `strip()` removes is all whitespace and is followed by a non-whitespace character |
| Text.TrailingSpaces | tweetanalysis/app.py:60 | the suffix `strip()` removes is all whitespace and is preceded by a non-whitespace character |
| Text.Strip | tweetanalysis/app.py:60 | `strip()` never lengthens, and its result neither starts nor ends with whitespace |
| Text.StripCutsOnlySpace | tweetanalysis/app.py:60 | `strip()` returns a slice of its input with only whitespace cut off before and after it |
| Text.StripOfWord | tweetanalysis/app.py:60 | `strip()` leaves a whitespace-free token unchanged |
| Stopwords.Remove | tweetanalysis/app.py:54-55 | the filter keeps only tokens from its input whose `lower()` is not in the list |
| Stopwords.RemoveStopwords | tweetanalysis/app.py:54-55 | `stopwords_remover` keeps only input tokens that are not stop words |
| Stopwords.RemoveKeepsExactly | tweetanalysis/app.py:54-55 | each token is kept exactly as many times as it occurs, unless its `lower()` is in the list, in which case it is dropped entirely |
| Stopwords.RemoveIsSubsequence | tweetanalysis/app.py:54-55 | the filter's result is a subsequence of its input: the kept tokens are in their original order |
| Stopwords.RemoveIdempotent | tweetanalysis/app.py:54-58 | filtering an already filtered list changes nothing |
| Stopwords.CaseVariantsAreStopwords | tweetanalysis/app.py:42-55 | matching ignores case: "RT", "Rt", "The" and "THE" are removed like "rt" and "the" |
| Stopwords.NotInN | tweetanalysis/app.py:42-52 | a word in none of the eleven chunks of the literal is not in `N` |
| Stopwords.RemoveEmptyIff | tweetanalysis/app.py:54-55 | the filter leaves nothing exactly when the `lower()` of every token is in the list |
| StopwordLengths.LongWordsNotInN | tweetanalysis/app.py:42-52 | no entry of `N` has more than ten characters |
| FilterExample.ContentWordsAreKept | tweetanalysis/app.py:42-55 | "remembrance" and "Westminster" are not stop words |
| FilterExample.ExampleStopwords | tweetanalysis/app.py:42-55 | "RT", "The" and "at" are stop words |
| FilterExample.ExampleTokens | tweetanalysis/app.py:35 | "RT The remembrance at Westminster" splits into its five words |
| FilterExample.FilterExampleTokens | tweetanalysis/app.py:54-55 | with any list matching "rt", "the" and "at" but neither content word, filtering the five words keeps "remembrance" and "Westminster" |
| FilterExample.WestminsterExample | tweetanalysis/app.py:35-58 | tokenising and filtering "RT The remembrance at Westminster" gives ["remembrance", "Westminster"], case preserved |
| Corpus.CellText | tweetanalysis/app.py:35 | `str(x)` of a text cell is that text; of an empty (NaN) cell it is a three-character whitespace-free word |
| Corpus.PostTokens | tweetanalysis/app.py:35 | every token of a cell is non-empty and whitespace-free |
| Corpus.PostTokensEdgeCases | tweetanalysis/app.py:35 | a missing text gives ["nan"]; an empty or all-whitespace text gives no tokens |
| Corpus.TokenColumn | tweetanalysis/app.py:35 | the 'temp' column has one token list per row, that row's `str(x).split()` |
| Corpus.FilteredColumn | tweetanalysis/app.py:58 | the reassigned 'temp' column is each row's token list with the stop words removed |
| Corpus.Normalise | tweetanalysis/app.py:60 | `item.lower().strip()` is never longer than the item, has no whitespace at either end, and is the item's `lower()` when the item has no whitespace |
| Corpus.NormalisedStream | tweetanalysis/app.py:60 | the generator yields one word per item of all rows together |
| Corpus.NormaliseAll | tweetanalysis/app.py:60 | `item.lower().strip()` is applied to each item, keeping the length and the order |
| Corpus.NormalisedWordsComeFromTokens | tweetanalysis/app.py:60 | every counted word is `lower().strip()` of an item of some row |
| Corpus.NormaliseFilteredToken | tweetanalysis/app.py:55-60 | for a whitespace-free token that survived the filter, `lower().strip()` is its `lower()`, and that is not a stop word either |
| Corpus.FilteredWordsAreLoweredTokens | tweetanalysis/app.py:35-60 | every word of the stream behind `counts1` is not a stop word, and is the lower-case form of a token of some tweet that survived the filter |
| Corpus.NormalisedRows | tweetanalysis/app.py:60 | normalising row by row gives one normalised row per row |
| Corpus.NormalisedStreamByRows | tweetanalysis/app.py:60 | normalising the flattened items equals flattening the row-wise normalised rows |
| Corpus.Selected | tweetanalysis/app.py:65-66 | the selection never has more entries than the column |
| Corpus.MatchingFrom | tweetanalysis/app.py:65 | from a row on, the positions of the rows with the sentiment: ascending, each matching, none missed |
| Corpus.MatchingRows | tweetanalysis/app.py:65 | the index of `tweets[tweets['Overall Sentiment'] == category]`: ascending positions of exactly the rows with that sentiment |
| Corpus.PicksRowsCons | tweetanalysis/app.py:65-66 | putting one row's entry in front of a picked list picks that row first |
| Corpus.SelectedFrom | tweetanalysis/app.py:65-66 | from a row on, the selected entries are the column's entries at the matching positions |
| Corpus.SelectedPicksMatchingRows | tweetanalysis/app.py:65-66 | the selected 'temp' entries are `col[i]` for exactly the rows `i` with the sentiment, in table order |
| Corpus.NothingSelected | tweetanalysis/app.py:65-66 | with no row of the category, the selection is empty |
| Corpus.NoWordsLeftIffAllStopwords | tweetanalysis/app.py:35-60 | the stream behind `counts1` is empty exactly when every token of every tweet is a stop word |
| Corpus.SelectedMap | tweetanalysis/app.py:65-74 | selecting the rows of a sentiment commutes with transforming every row |
| Corpus.SelectedHead | tweetanalysis/app.py:65-74 | a word's count in the selected rows is its count in the first row, if that row has the sentiment, plus its count in the remaining selected rows |
| Corpus.DisjointSelectionsCount | tweetanalysis/app.py:65-74 | rows of two different sentiments hold any item together at most as often as all rows do |
| Corpus.DisjointSelectionsBounded | tweetanalysis/app.py:60-74 | a word's count among Positive tweets plus its count among Negative tweets is at most its count among all tweets |
| Seqs.Flatten | tweetanalysis/app.py:36-37 | flattening a single row gives that row |
| Seqs.FlattenAppend | tweetanalysis/app.py:36-37 | flattening distributes over concatenation of row lists |
| Seqs.FlattenMembers | tweetanalysis/app.py:36-37 | an item is in the flattened stream exactly when it is in one of the rows |
| Seqs.FlattenEmpty | tweetanalysis/app.py:36-37 | the flattened stream is empty exactly when every row is |
| Seqs.FlattenLength | tweetanalysis/app.py:36-37 | the flattened stream is as long as all rows together |
| Seqs.MapSeq | tweetanalysis/app.py:60 | the comprehension applies the function to every element, keeping the length and the order |
| Seqs.IndexOf | tweetanalysis/app.py:37 | the first position of an element |
| Seqs.Distinct | tweetanalysis/app.py:37 | the key list of a dict built from a stream holds each element of the stream once, and nothing else |
| Seqs.DistinctFirstOccurrence | tweetanalysis/app.py:37 | dict keys come in the order of their first occurrence in the stream |
| Counting.Tally | tweetanalysis/app.py:37 | `Counter(stream)`: its keys are the distinct words in first-occurrence order, each with its number of occurrences |
| Counting.TallyBump | tweetanalysis/app.py:37 | adding one to a counted word's tally keeps the counter equal to `Counter` of the longer stream |
| Counting.TallyInsert | tweetanalysis/app.py:37 | inserting a new word with tally one keeps the counter equal to `Counter` of the longer stream |
| Counting.CountOneMore | tweetanalysis/app.py:37 | one more occurrence in the stream is one more in the tally, and no other tally changes |
| Counting.DistinctAppendNew | tweetanalysis/app.py:37 | a word not seen before is appended as the last key |
| Counting.TallyReadsOccurrences | tweetanalysis/app.py:37 | reading any word from the counter gives its number of occurrences (zero when absent), and the counter is well formed |
| Counting.TallyTotal | tweetanalysis/app.py:37 | the counts of a counter add up to the length of the stream it counted |
| Counting.AheadTotal | tweetanalysis/app.py:38 | of two different keys, one always comes before the other in `most_common` order |
| Counting.AheadTransitive | tweetanalysis/app.py:38 | `most_common` order is transitive |
| Counting.Words | tweetanalysis/app.py:38 | the words of a `most_common` list, position by position |
| Counting.Leader | tweetanalysis/app.py:38 | picks a remaining key that no other remaining key comes before |
| Counting.RemoveAt | tweetanalysis/app.py:38 | removing a key from the remaining list keeps every other key and no duplicate |
| Counting.SelectedSoFarStep | tweetanalysis/app.py:38 | appending the leader keeps the listed part a correct prefix of `most_common` |
| Counting.MostCommon | tweetanalysis/app.py:38 | `most_common(n)`: min(n, keys) entries with their counts, each ahead of the next (higher count, or equal count and inserted earlier), and each ahead of every key left out |
| Counting.MostCommonBounds | tweetanalysis/app.py:38-39 | the table has at most n rows and at most as many as there are keys, counts never increase down the table, and every key left out has a count at most the last listed count |
| Counting.MostCommonEmptyIffNothingCounted | tweetanalysis/app.py:37-38 | `most_common(20)` is empty exactly when the counted stream is empty |
| Counting.MostCommonTiesByFirstOccurrence | tweetanalysis/app.py:38 | entries with equal counts are listed in the order their words first occur in the counted stream |
| Grouping.StrLessIrreflexive | tweetanalysis/app.py:25-28 | no key sorts before itself |
| Grouping.StrLessTransitive | tweetanalysis/app.py:25-28 | the key order is transitive |
| Grouping.StrLessTotal | tweetanalysis/app.py:25-28 | of two different keys, one sorts before the other |
| Grouping.KeyList | tweetanalysis/app.py:25-28 | the keys of the grouped table, row by row |
| Grouping.Least | tweetanalysis/app.py:25-28 | picks the key of a non-empty set that sorts before every other key in it |
| Grouping.NoGroupOutsideKeys | tweetanalysis/app.py:25-28 | no row carries a key outside the set of keys that occur |
| Grouping.CountPerKey | tweetanalysis/app.py:25-28 | each non-null key that occurs gets a count, and only those keys. The count is the number of rows that have that key and a filled '#' |
| Grouping.SortedUpToStep | tweetanalysis/app.py:25-28 | appending the least remaining key keeps the table sorted and complete so far |
| Grouping.SortedGroups | tweetanalysis/app.py:25-28 | groups come out one per key, in ascending key order, each with its count |
| Grouping.GroupCount | tweetanalysis/app.py:25-29 | `groupby(col)['#'].count()`: each distinct non-null key once, ascending, with the number of rows that have that key and a filled '#' |
| Grouping.RowsWithKeyInSplit | tweetanalysis/app.py:25-28 | rows with a key in a set split into those with one key and those with the others |
| Grouping.RowsWithAllKeys | tweetanalysis/app.py:25-28 | the rows with any occurring key are all rows with a non-null key |
| Grouping.SumCountsOfDistinctKeys | tweetanalysis/app.py:25-28 | the counts of a grouping with distinct keys add up to the rows with those keys |
| Grouping.EmptyKeysNoRows | tweetanalysis/app.py:25-28 | with no key present, no row is counted |
| Grouping.GroupCountsSum | tweetanalysis/app.py:25-29 | the group counts add up to the number of rows that have both a key and a '#' |
| Ranking.MostRetweeted | tweetanalysis/app.py:31 | picks a row with the most retweets of the remaining rows |
| Ranking.TakenSoFarStep | tweetanalysis/app.py:31-32 | moving a most retweeted remaining row to the end of the result keeps it a correct prefix of the sorted table |
| Ranking.TakenAll | tweetanalysis/app.py:31-32 | once n rows are taken, or none remain, the result meets the specification |
| Ranking.RemoveRow | tweetanalysis/app.py:31-32 | removing a row keeps every other row |
| Ranking.TopRetweeted | tweetanalysis/app.py:31-32 | `sort_values(desc).head(n)`: min(n, rows) rows of the table, retweets non-increasing, and no left-out row with more retweets than a kept one; tie order open |
| Ranking.TopRetweetedBounds | tweetanalysis/app.py:31-32 | the first row has the most retweets of the table, every left-out row has no more retweets than the last row kept, and every kept row is from the table |
| Ranking.TopRetweetedAllRows | tweetanalysis/app.py:31-32 | when n covers the table, the result is the whole table reordered |
| Analytics.Analyse | tweetanalysis/app.py:25-76 | the script raises `ValueError` at line 39 exactly when no tweet has a token, at 62 when tokens exist but all are stop words, at 69 when no Positive tweet keeps a word, at 76 when no Negative tweet does; otherwise every derived table is what its line computes (both group counts, the top five, the four counters and their non-empty top-20 lists) |
| Analytics.NoPositiveTweetsNoPositiveWords | tweetanalysis/app.py:65-69 | a table without Positive tweets has no Positive words, so the script stops at line 69 when it gets there |
| Analytics.PositivePlusNegativeAtMostAll | tweetanalysis/app.py:58-74 | for every word, its Positive count plus its Negative count is at most its count over all tweets |
| Analytics.CountedWordsAreLoweredTokens | tweetanalysis/app.py:35-61 | every key of `counts1` (the counter of line 60, as `Analyse` builds it) is not a stop word, and is the lower-case form of a token of some tweet that survived the filter |
| Analytics.WordCountsAddUpToTokens | tweetanalysis/app.py:35-37 | the counts in `counts` add up to the number of tokens of all tweets |

## Left out

- Loading the table (`pd.read_excel`), the page layout, the CSS, the login, the charts and every Streamlit widget. These are I/O and rendering. The tweet table is a parameter of `Analytics.Analyse`.
- The `pd.DataFrame(...)` and `reset_index` calls around each result, and the column renames apart from the failure they cause on an empty word table. On non-empty tables they only relabel columns. Each result is kept as a sequence of rows.
- Cell types other than text or empty. A 'Post Text' cell is either text or NaN, and NaN gives "nan". Numeric text cells (whose `str()` would be their number) are not modelled.
- Ranking.TopRetweeted: 'Retweets' is an integer in every row. NaN or text values in that column, and how pandas places them in the sort, are not modelled.
- Ranking.TopRetweeted: the order among rows with equal retweet counts is left open rather than fixed. The source's default sort is not stable, so no particular tie order is promised.
- Text.LowerChar: maps only the ASCII letters A-Z and leaves every other character unchanged, while Python's `lower()` also maps non-ASCII letters; the consequences are those given for Text.Lower on the next line.
- Text.Lower: folds only the ASCII letters A-Z, while Python's `lower()` also folds non-ASCII letters. This cannot change which tokens are stop words. Every entry of `N` is ASCII and none contains 'k'. Under Unicode case mapping, only two non-ASCII characters lower to text containing an ASCII letter. The Kelvin sign lowers to 'k'. The capital I with dot above lowers to 'i' followed by a non-ASCII combining dot. It does change the text of non-ASCII keys of `counts1`, `counts2` and `counts3`, which the model does not capture.
- Grouping.GroupCount: keys are compared as text by code point. Dates are modelled as ISO date text, where text order and date order agree. Parsed datetime keys are not modelled.
- The mean retweets and the other floating-point figures the views compute outside lines 25-76.
