/** Python's string primitives used by the pipeline: `str.split()` with no
    argument, `str.lower()` and `str.strip()` with no argument. */
module Text {
  import opened Seqs

  /** The code points for which Python's `str.isspace()` holds; `split()` and
      `strip()` without arguments break and trim at exactly these. */
  predicate IsSpace(c: char)
  {
    var n := c as int;
    n == 0x20 || 0x09 <= n <= 0x0D || 0x1C <= n <= 0x1F || n == 0x85 || n == 0xA0
    || n == 0x1680 || 0x2000 <= n <= 0x200A || n == 0x2028 || n == 0x2029
    || n == 0x202F || n == 0x205F || n == 0x3000
  }

  predicate NoSpace(s: string)
  {
    forall i :: 0 <= i < |s| ==> !IsSpace(s[i])
  }

  predicate AllSpace(s: string)
  {
    forall i :: 0 <= i < |s| ==> IsSpace(s[i])
  }

  /** The characters of `s` that are not whitespace, in order. */
  function NonSpace(s: string): (r: string)
  {
    if s == [] then []
    else (if IsSpace(s[0]) then [] else [s[0]]) + NonSpace(s[1..])
  }

  lemma {:induction false} NonSpaceAppend(a: string, b: string)
    ensures NonSpace(a + b) == NonSpace(a) + NonSpace(b)
  {
    if a != [] {
      assert (a + b)[1..] == a[1..] + b;
      NonSpaceAppend(a[1..], b);
    } else {
      assert a + b == b;
    }
  }

  lemma {:induction false} NonSpaceOfWord(w: string)
    requires NoSpace(w)
    ensures NonSpace(w) == w
  {
    if w != [] {
      NonSpaceOfWord(w[1..]);
    }
  }

  /** Length of the longest prefix of `s` free of whitespace. */
  function WordLength(s: string): (n: nat)
    ensures n <= |s|
    ensures NoSpace(s[..n])
    ensures n < |s| ==> IsSpace(s[n])
  {
    if s == [] || IsSpace(s[0]) then 0 else 1 + WordLength(s[1..])
  }

  /** `s.split()`: the maximal runs of non-whitespace characters of `s`, in order.
      Every token is non-empty and whitespace-free, and there are no tokens
      exactly when `s` is empty or all whitespace. */
  function Split(s: string): (tokens: seq<string>)
    ensures forall t :: t in tokens ==> t != [] && NoSpace(t)
    ensures tokens == [] <==> AllSpace(s)
    decreases |s|
  {
    if s == [] then []
    else if IsSpace(s[0]) then
      var rest := Split(s[1..]);
      assert AllSpace(s) <==> AllSpace(s[1..]);
      rest
    else
      var n := WordLength(s);
      [s[..n]] + Split(s[n..])
  }

  /** Splitting loses only whitespace: joining the tokens back together gives
      the non-whitespace characters of the text. */
  lemma {:induction false} SplitKeepsAllText(s: string)
    ensures Flatten(Split(s)) == NonSpace(s)
    decreases |s|
  {
    if s == [] {
    } else if IsSpace(s[0]) {
      SplitKeepsAllText(s[1..]);
    } else {
      var n := WordLength(s);
      SplitKeepsAllText(s[n..]);
      FlattenAppend([s[..n]], Split(s[n..]));
      assert s == s[..n] + s[n..];
      NonSpaceAppend(s[..n], s[n..]);
      NonSpaceOfWord(s[..n]);
    }
  }

  /** `" ".join(tokens)` */
  function Join(tokens: seq<string>): string
  {
    if tokens == [] then []
    else if |tokens| == 1 then tokens[0]
    else tokens[0] + " " + Join(tokens[1..])
  }

  lemma {:induction false} WordLengthOfWord(w: string, rest: string)
    requires NoSpace(w)
    requires rest == [] || IsSpace(rest[0])
    ensures WordLength(w + rest) == |w|
  {
    if w != [] {
      assert (w + rest)[1..] == w[1..] + rest;
      WordLengthOfWord(w[1..], rest);
    } else {
      assert w + rest == rest;
    }
  }

  /** Splitting undoes joining with single spaces, for tokens such as `split()`
      produces: so `Split` cuts exactly at whitespace and nowhere else. */
  lemma {:induction false} SplitJoin(tokens: seq<string>)
    requires forall t :: t in tokens ==> t != [] && NoSpace(t)
    ensures Split(Join(tokens)) == tokens
  {
    if tokens == [] {
    } else if |tokens| == 1 {
      var w := tokens[0];
      WordLengthOfWord(w, []);
      assert w + [] == w;
      assert w[|w|..] == [];
      assert w[..|w|] == w;
    } else {
      var w := tokens[0];
      var rest := " " + Join(tokens[1..]);
      var s := w + rest;
      assert Join(tokens) == s;
      WordLengthOfWord(w, rest);
      assert s[..|w|] == w;
      assert s[|w|..] == rest;
      assert rest[1..] == Join(tokens[1..]);
      assert forall t :: t in tokens[1..] ==> t in tokens;
      SplitJoin(tokens[1..]);
      assert tokens == [w] + tokens[1..];
    }
  }

  /** `split()` skips any run of whitespace, of any kind and length, before
      the first token. */
  lemma {:induction false} SplitSkipsSpace(ws: string, rest: string)
    requires AllSpace(ws)
    ensures Split(ws + rest) == Split(rest)
    decreases |ws|
  {
    if ws != [] {
      assert (ws + rest)[0] == ws[0];
      assert (ws + rest)[1..] == ws[1..] + rest;
      SplitSkipsSpace(ws[1..], rest);
    } else {
      assert ws + rest == rest;
    }
  }

  /** A whitespace-free word followed by any non-empty run of whitespace is
      one token, and splitting carries on after the run: tabs, newlines and
      repeated spaces all separate tokens like a single space. */
  lemma SplitWordThenSpace(w: string, ws: string, rest: string)
    requires w != [] && NoSpace(w)
    requires ws != [] && AllSpace(ws)
    ensures Split(w + ws + rest) == [w] + Split(rest)
  {
    var s := w + (ws + rest);
    assert w + ws + rest == s;
    WordLengthOfWord(w, ws + rest);
    assert s[..|w|] == w;
    assert s[|w|..] == ws + rest;
    assert s[0] == w[0];
    SplitSkipsSpace(ws, rest);
  }

  /** ASCII case folding of one character, as `str.lower()` does for ASCII. */
  function LowerChar(c: char): (r: char)
    ensures ('A' <= c <= 'Z') ==> 'a' <= r <= 'z' && r as int == c as int + 32
    ensures !('A' <= c <= 'Z') ==> r == c
  {
    if 'A' <= c <= 'Z' then (c as int - 'A' as int + 'a' as int) as char else c
  }

  /** `s.lower()` */
  function Lower(s: string): (r: string)
    ensures |r| == |s|
    ensures forall i :: 0 <= i < |s| ==> r[i] == LowerChar(s[i])
  {
    seq(|s|, i requires 0 <= i < |s| => LowerChar(s[i]))
  }

  /** Lower-casing twice is lower-casing once, and lower-casing a
      whitespace-free string gives a whitespace-free string. */
  lemma LowerIdempotent(s: string)
    ensures Lower(Lower(s)) == Lower(s)
    ensures NoSpace(s) ==> NoSpace(Lower(s))
  {
  }

  /** Number of whitespace characters at the start of `s`. */
  function LeadingSpaces(s: string): (n: nat)
    ensures n <= |s| && AllSpace(s[..n])
    ensures n < |s| ==> !IsSpace(s[n])
  {
    if s == [] || !IsSpace(s[0]) then 0 else 1 + LeadingSpaces(s[1..])
  }

  /** Number of whitespace characters at the end of `s`. */
  function TrailingSpaces(s: string): (n: nat)
    ensures n <= |s| && AllSpace(s[|s| - n..])
    ensures n < |s| ==> !IsSpace(s[|s| - n - 1])
  {
    if s == [] || !IsSpace(s[|s| - 1]) then 0
    else
      var init := s[..|s| - 1];
      var m := TrailingSpaces(init);
      assert s[|s| - (m + 1)..] == init[|init| - m..] + [s[|s| - 1]];
      assert m < |init| ==> s[|s| - (m + 1) - 1] == init[|init| - m - 1];
      m + 1
  }

  /** `s.strip()`: `s` without its leading and trailing whitespace. The result
      neither starts nor ends with whitespace. */
  function Strip(s: string): (r: string)
    ensures |r| <= |s|
    ensures r == [] || (!IsSpace(r[0]) && !IsSpace(r[|r| - 1]))
  {
    var i := LeadingSpaces(s);
    var t := s[i..];
    var r := t[..|t| - TrailingSpaces(t)];
    assert r != [] ==> r[0] == s[i];
    r
  }

  /** `Strip` cuts off whitespace only: its result is the slice of `s` that
      starts after the leading whitespace, with only whitespace after it. */
  lemma StripCutsOnlySpace(s: string)
    ensures var i, r := LeadingSpaces(s), Strip(s);
      i + |r| <= |s| && r == s[i..i + |r|] && AllSpace(s[..i]) && AllSpace(s[i + |r|..])
  {
    var i := LeadingSpaces(s);
    var t := s[i..];
    var k := TrailingSpaces(t);
    var r := Strip(s);
    assert r == t[..|t| - k];
    assert |r| == |t| - k && |t| == |s| - i;
    assert r == s[i..i + |r|];
    assert s[i + |r|..] == t[|t| - k..];
  }

  /** A whitespace-free string, such as every token of `Split`, is left alone by `Strip`. */
  lemma StripOfWord(w: string)
    requires NoSpace(w)
    ensures Strip(w) == w
  {
    assert w != [] ==> !IsSpace(w[0]) && !IsSpace(w[|w| - 1]);
    assert LeadingSpaces(w) == 0;
    assert w[0..] == w;
    assert TrailingSpaces(w) == 0;
    assert w[..|w|] == w;
  }
}
