/** The literal stop-word list `N` and `stopwords_remover` of the dashboard. */
module Stopwords {
  import opened Text

  /** The list `N` in eleven consecutive chunks, one per line of the literal. */
  const Chunk1: seq<string> := ["ourselves", "hers", "between", "yourself", "but", "again", "there", "about", "once"]
  const Chunk2: seq<string> := ["during", "out", "very", "having", "with", "they", "own", "an", "be", "some", "for", "do"]
  const Chunk3: seq<string> := ["its", "yours", "such", "into", "of", "most", "itself", "other", "off", "is", "s", "am", "or"]
  const Chunk4: seq<string> := ["who", "ass", "from", "him", "each", "the", "themselves", "until", "below", "are", "we", "these"]
  const Chunk5: seq<string> := ["your", "his", "through", "don", "nor", "me", "were", "her", "more", "himself", "this", "down"]
  const Chunk6: seq<string> := ["should", "our", "their", "while", "above", "both", "up", "to", "ours", "had", "she", "all", "no"]
  const Chunk7: seq<string> := ["when", "at", "any", "before", "them", "same", "and", "been", "have", "in", "will", "on", "does"]
  const Chunk8: seq<string> := ["yourselves", "then", "that", "because", "what", "over", "why", "so", "can", "did", "not", "now"]
  const Chunk9: seq<string> := ["under", "he", "you", "herself", "has", "just", "where", "too", "only", "myself", "which", "those", "i"]
  const Chunk10: seq<string> := ["after", "few", "whom", "t", "being", "if", "theirs", "my", "against", "a", "by", "doing", "it", "how"]
  const Chunk11: seq<string> := ["further", "was", "here", "than", "the", "it's", "and", "it.", "rt"]

  /** The list `N` exactly as written, duplicates ("the", "and") and the
      punctuated entries ("it's", "it.") included; membership is all that is used. */
  const N: seq<string> := Chunk1 + Chunk2 + Chunk3 + Chunk4 + Chunk5 + Chunk6 + Chunk7 + Chunk8 + Chunk9 + Chunk10 + Chunk11

  /** `word.lower() in stop`; with `stop` = `N` this is the test of `stopwords_remover`. */
  predicate InList(word: string, stop: seq<string>)
  {
    Lower(word) in stop
  }

  predicate IsStopword(word: string)
  {
    InList(word, N)
  }

  /** `[word for word in x if word.lower() not in stop]` */
  function Remove(x: seq<string>, stop: seq<string>): (r: seq<string>)
    ensures |r| <= |x|
    ensures forall w :: w in r ==> w in x && !InList(w, stop)
  {
    if x == [] then []
    else (if InList(x[0], stop) then [] else [x[0]]) + Remove(x[1..], stop)
  }

  /** `stopwords_remover(x)` */
  function RemoveStopwords(x: seq<string>): (r: seq<string>)
    ensures forall w :: w in r ==> w in x && !IsStopword(w)
  {
    Remove(x, N)
  }

  /** `a` is `b` with some elements left out, the rest in their original order. */
  predicate IsSubsequence(a: seq<string>, b: seq<string>)
    decreases |b|
  {
    if a == [] then true
    else if b == [] then false
    else if a[0] == b[0] then IsSubsequence(a[1..], b[1..])
    else IsSubsequence(a, b[1..])
  }

  /** The filter keeps the surviving tokens in their original order. */
  lemma {:induction false} RemoveIsSubsequence(x: seq<string>, stop: seq<string>)
    ensures IsSubsequence(Remove(x, stop), x)
  {
    if x != [] {
      RemoveIsSubsequence(x[1..], stop);
      if InList(x[0], stop) {
        assert Remove(x, stop) == Remove(x[1..], stop);
        SubsequenceOfTail(Remove(x[1..], stop), x);
      } else {
        assert ([x[0]] + Remove(x[1..], stop))[1..] == Remove(x[1..], stop);
      }
    }
  }

  /** Dropping the head of the longer sequence keeps the subsequence relation. */
  lemma {:induction false} SubsequenceOfTail(a: seq<string>, b: seq<string>)
    requires b != [] && IsSubsequence(a, b[1..])
    ensures IsSubsequence(a, b)
    decreases |b|, |a|
  {
    if a != [] && a[0] == b[0] {
      SubsequenceDropHead(a, b[1..]);
    }
  }

  lemma {:induction false} SubsequenceDropHead(a: seq<string>, b: seq<string>)
    requires a != [] && IsSubsequence(a, b)
    ensures IsSubsequence(a[1..], b)
    decreases |b|, |a|
  {
    if b == [] {
    } else if a[0] == b[0] {
      if a[1..] != [] {
        SubsequenceOfTail(a[1..], b);
      }
    } else {
      SubsequenceDropHead(a, b[1..]);
      if a[1..] != [] {
        SubsequenceOfTail(a[1..], b);
      }
    }
  }

  /** Each token is kept exactly as often as it occurs, unless its lower-case form
      is in the list, in which case every occurrence is dropped. */
  lemma {:induction false} RemoveKeepsExactly(x: seq<string>, stop: seq<string>, w: string)
    ensures multiset(Remove(x, stop))[w] == if InList(w, stop) then 0 else multiset(x)[w]
  {
    if x != [] {
      RemoveKeepsExactly(x[1..], stop, w);
      var head := if InList(x[0], stop) then [] else [x[0]];
      assert Remove(x, stop) == head + Remove(x[1..], stop);
      assert multiset(Remove(x, stop)) == multiset(head) + multiset(Remove(x[1..], stop));
      assert x == [x[0]] + x[1..];
      assert multiset(x) == multiset{x[0]} + multiset(x[1..]);
    }
  }

  /** The filter leaves nothing exactly when every token is in the list. */
  lemma {:induction false} RemoveEmptyIff(x: seq<string>, stop: seq<string>)
    ensures Remove(x, stop) == [] <==> forall t :: t in x ==> InList(t, stop)
  {
    if x != [] {
      RemoveEmptyIff(x[1..], stop);
      assert forall t :: t in x <==> t == x[0] || t in x[1..];
    }
  }

  /** Filtering twice removes nothing more than filtering once. */
  lemma {:induction false} RemoveIdempotent(x: seq<string>, stop: seq<string>)
    ensures Remove(Remove(x, stop), stop) == Remove(x, stop)
  {
    if x != [] {
      RemoveIdempotent(x[1..], stop);
      var r := Remove(x[1..], stop);
      if InList(x[0], stop) {
        assert Remove(x, stop) == r;
      } else {
        var y := [x[0]] + r;
        assert Remove(x, stop) == y && y[0] == x[0] && y[1..] == r;
      }
    }
  }

  /** Matching is case-insensitive: "RT", "Rt", "The" and "THE" are stop words
      like "rt" and "the". */
  lemma CaseVariantsAreStopwords()
    ensures IsStopword("RT") && IsStopword("Rt") && IsStopword("rt")
    ensures IsStopword("The") && IsStopword("THE") && IsStopword("the")
  {
    assert Lower("RT") == "rt" && Lower("Rt") == "rt" && Lower("rt") == "rt";
    assert Lower("The") == "the" && Lower("THE") == "the" && Lower("the") == "the";
    assert "the" in N && "rt" in N;
  }

  /** A word in none of the chunks of `N` is not in `N`. */
  lemma NotInN(w: string)
    requires w !in Chunk1 && w !in Chunk2 && w !in Chunk3 && w !in Chunk4 && w !in Chunk5 && w !in Chunk6
    requires w !in Chunk7 && w !in Chunk8 && w !in Chunk9 && w !in Chunk10 && w !in Chunk11
    ensures w !in N
  {
  }
}
