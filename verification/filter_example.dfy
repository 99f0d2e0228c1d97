/** Facts about the length of the entries of `N`. */
module StopwordLengths {
  import opened Stopwords

  /** No entry of `N` has more than ten characters. */
  lemma LongWordsNotInChunks1To4(w: string)
    requires |w| > 10
    ensures w !in Chunk1 && w !in Chunk2 && w !in Chunk3 && w !in Chunk4
  {
  }

  lemma LongWordsNotInChunks5To8(w: string)
    requires |w| > 10
    ensures w !in Chunk5 && w !in Chunk6 && w !in Chunk7 && w !in Chunk8
  {
  }

  lemma LongWordsNotInChunks9To11(w: string)
    requires |w| > 10
    ensures w !in Chunk9 && w !in Chunk10 && w !in Chunk11
  {
  }

  /** A word of more than ten characters is not in `N`. */
  lemma LongWordsNotInN(w: string)
    requires |w| > 10
    ensures w !in N
  {
    LongWordsNotInChunks1To4(w);
    LongWordsNotInChunks5To8(w);
    LongWordsNotInChunks9To11(w);
    NotInN(w);
  }
}

/** A worked example of tokenising and filtering one tweet text. */
module FilterExample {
  import opened StopwordLengths
  import opened Text
  import opened Stopwords

  /** Neither "remembrance" nor "Westminster" is a stop word, in whatever case. */
  lemma ContentWordsAreKept()
    ensures !IsStopword("remembrance") && !IsStopword("Westminster")
  {
    LongWordsNotInN("remembrance");
    assert Lower("remembrance") == "remembrance";
    LongWordsNotInN("westminster");
    assert Lower("Westminster") == "westminster";
  }

  /** "RT", "The" and "at" are stop words. */
  lemma ExampleStopwords()
    ensures IsStopword("RT") && IsStopword("The") && IsStopword("at")
  {
    CaseVariantsAreStopwords();
    assert Lower("at") == "at" && "at" in N;
  }

  /** "RT The remembrance at Westminster", written word by word. */
  const ExampleText: string := "RT" + " " + ("The" + " " + ("remembrance" + " " + ("at" + " " + "Westminster")))
  const ExampleWords: seq<string> := ["RT", "The", "remembrance", "at", "Westminster"]

  /** The example text is its words joined by single spaces. */
  lemma ExampleJoin()
    ensures Join(ExampleWords) == ExampleText
  {
    var tokens := ExampleWords;
    assert Join(tokens[4..]) == "Westminster";
    assert Join(tokens[3..]) == "at" + " " + "Westminster";
    assert Join(tokens[2..]) == "remembrance" + " " + ("at" + " " + "Westminster");
    assert Join(tokens[1..]) == "The" + " " + ("remembrance" + " " + ("at" + " " + "Westminster"));
  }

  /** The example words are non-empty and hold no whitespace. */
  lemma ExampleWordsAreWords()
    ensures forall t :: t in ExampleWords ==> t != [] && NoSpace(t)
  {
    assert NoSpace("remembrance") && NoSpace("Westminster");
    assert NoSpace("RT") && NoSpace("The") && NoSpace("at");
  }

  /** The text splits at its single spaces. */
  lemma ExampleTokens()
    ensures Split(ExampleText) == ExampleWords
  {
    ExampleJoin();
    ExampleWordsAreWords();
    SplitJoin(ExampleWords);
  }

  /** Filtering the example's tokens with any list that holds "rt", "the" and
      "at" but neither "remembrance" nor "westminster". */
  lemma FilterExampleTokens(stop: seq<string>)
    requires InList("RT", stop) && InList("The", stop) && InList("at", stop)
    requires !InList("remembrance", stop) && !InList("Westminster", stop)
    ensures Remove(ExampleWords, stop) == ["remembrance", "Westminster"]
  {
    var tokens := ExampleWords;
    assert Remove(tokens[4..], stop) == ["Westminster"];
    assert Remove(tokens[3..], stop) == ["Westminster"];
    assert Remove(tokens[2..], stop) == ["remembrance", "Westminster"];
    assert Remove(tokens[1..], stop) == ["remembrance", "Westminster"];
  }

  /** Tokenising "RT The remembrance at Westminster" and filtering keeps
      "remembrance" and "Westminster", with their case preserved; "RT", "The"
      and "at" go. */
  lemma WestminsterExample()
    ensures RemoveStopwords(Split(ExampleText)) == ["remembrance", "Westminster"]
  {
    ExampleTokens();
    ExampleStopwords();
    ContentWordsAreKept();
    FilterExampleTokens(N);
  }
}
