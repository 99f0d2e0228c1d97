/** `tweets.groupby(column)['#'].count()`: the number of rows per distinct
    value of a column, keys in ascending order, rows whose key is missing
    left out, and only rows whose '#' cell is filled counted. */
module Grouping {
  import opened Corpus

  /** The two columns the dashboard groups by. */
  datatype KeyColumn = OverallSentiment | DatePosted

  function KeyOf(t: Tweet, column: KeyColumn): Option<string>
  {
    match column
    case OverallSentiment => t.sentiment
    case DatePosted => t.datePosted
  }

  /** Python's `<` on strings: lexicographic by code point, a proper prefix first. */
  predicate StrLess(a: string, b: string)
  {
    if a == [] then b != []
    else if b == [] then false
    else if a[0] != b[0] then a[0] < b[0]
    else StrLess(a[1..], b[1..])
  }

  lemma {:induction false} StrLessIrreflexive(a: string)
    ensures !StrLess(a, a)
  {
    if a != [] {
      StrLessIrreflexive(a[1..]);
    }
  }

  lemma {:induction false} StrLessTransitive(a: string, b: string, c: string)
    requires StrLess(a, b) && StrLess(b, c)
    ensures StrLess(a, c)
  {
    if a != [] && b != [] && c != [] && a[0] == b[0] && b[0] == c[0] {
      StrLessTransitive(a[1..], b[1..], c[1..]);
    }
  }

  lemma {:induction false} StrLessTotal(a: string, b: string)
    requires a != b
    ensures StrLess(a, b) || StrLess(b, a)
  {
    if a != [] && b != [] && a[0] == b[0] {
      assert a == [a[0]] + a[1..] && b == [b[0]] + b[1..];
      StrLessTotal(a[1..], b[1..]);
    }
  }

  /** The distinct non-missing keys of the column. */
  function KeySet(rows: seq<Tweet>, column: KeyColumn): set<string>
  {
    if rows == [] then {}
    else
      var last := KeyOf(rows[|rows| - 1], column);
      KeySet(rows[..|rows| - 1], column) + (if last.Some? then {last.value} else {})
  }

  /** The rows whose key is one of `keys` and whose '#' is filled. */
  function RowsWithKeyIn(rows: seq<Tweet>, column: KeyColumn, keys: set<string>): nat
  {
    if rows == [] then 0
    else
      var r := rows[|rows| - 1];
      var k := KeyOf(r, column);
      RowsWithKeyIn(rows[..|rows| - 1], column, keys) + (if k.Some? && k.value in keys && r.id.Some? then 1 else 0)
  }

  /** The size of the group of `key`, as `count()` reports it. */
  function GroupSize(rows: seq<Tweet>, column: KeyColumn, key: string): nat
  {
    RowsWithKeyIn(rows, column, {key})
  }

  /** The rows `count()` counts at all: those with a key and a '#'. */
  function CountedRows(rows: seq<Tweet>, column: KeyColumn): nat
  {
    if rows == [] then 0
    else
      var r := rows[|rows| - 1];
      CountedRows(rows[..|rows| - 1], column) + (if KeyOf(r, column).Some? && r.id.Some? then 1 else 0)
  }

  datatype Group = Group(key: string, count: nat)

  function KeyList(groups: seq<Group>): (ks: seq<string>)
    ensures |ks| == |groups| && forall i :: 0 <= i < |groups| ==> ks[i] == groups[i].key
  {
    seq(|groups|, i requires 0 <= i < |groups| => groups[i].key)
  }

  /** `groups` is the grouped count of the column: one entry per distinct
      non-missing key, keys strictly ascending, each with its group size. */
  ghost predicate IsGrouping(groups: seq<Group>, rows: seq<Tweet>, column: KeyColumn)
  {
    && (forall i, j :: 0 <= i < j < |groups| ==> StrLess(groups[i].key, groups[j].key))
    && (forall k :: k in KeySet(rows, column) <==> k in KeyList(groups))
    && (forall i :: 0 <= i < |groups| ==> groups[i].count == GroupSize(rows, column, groups[i].key))
  }

  /** The least key of a non-empty set. */
  method Least(keys: set<string>) returns (m: string)
    requires keys != {}
    ensures m in keys
    ensures forall k :: k in keys && k != m ==> StrLess(m, k)
  {
    m :| m in keys;
    var todo := keys - {m};
    while todo != {}
      invariant m in keys && todo <= keys
      invariant forall k :: k in keys - todo && k != m ==> StrLess(m, k)
      decreases |todo|
    {
      var k :| k in todo;
      if StrLess(k, m) {
        forall k' | k' in keys - todo && k' != k
          ensures StrLess(k, k')
        {
          if k' != m {
            StrLessTransitive(k, m, k');
          }
        }
        m := k;
      } else if k != m {
        StrLessTotal(k, m);
      }
      todo := todo - {k};
    }
  }

  lemma {:induction false} NoGroupOutsideKeys(rows: seq<Tweet>, column: KeyColumn, k: string)
    requires k !in KeySet(rows, column)
    ensures GroupSize(rows, column, k) == 0
  {
    if rows != [] {
      NoGroupOutsideKeys(rows[..|rows| - 1], column, k);
    }
  }

  /** Group sizes per key, in the map `counts`. */
  method CountPerKey(rows: seq<Tweet>, column: KeyColumn) returns (counts: map<string, nat>)
    ensures counts.Keys == KeySet(rows, column)
    ensures forall k :: k in counts ==> counts[k] == GroupSize(rows, column, k)
  {
    counts := map[];
    for i := 0 to |rows|
      invariant counts.Keys == KeySet(rows[..i], column)
      invariant forall k :: k in counts ==> counts[k] == GroupSize(rows[..i], column, k)
    {
      assert rows[..i + 1][..i] == rows[..i];
      var key := KeyOf(rows[i], column);
      forall k ensures GroupSize(rows[..i + 1], column, k)
        == GroupSize(rows[..i], column, k) + (if key == Some(k) && rows[i].id.Some? then 1 else 0)
      {
      }
      if key.Some? {
        if key.value !in counts {
          NoGroupOutsideKeys(rows[..i], column, key.value);
        }
        var c := if key.value in counts then counts[key.value] else 0;
        counts := counts[key.value := c + (if rows[i].id.Some? then 1 else 0)];
      }
    }
    assert rows[..|rows|] == rows;
  }

  /** `groups` lists, in ascending order, the entries of `counts` whose keys
      are not in `todo`, and every key still in `todo` is above all of them. */
  ghost predicate SortedUpTo(groups: seq<Group>, todo: set<string>, counts: map<string, nat>)
  {
    && todo <= counts.Keys
    && (forall i :: 0 <= i < |groups| ==> groups[i].key in counts && groups[i].key !in todo)
    && (forall i :: 0 <= i < |groups| ==> groups[i].count == counts[groups[i].key])
    && (forall k :: k in counts ==> k in todo || k in KeyList(groups))
    && (forall i, j :: 0 <= i < j < |groups| ==> StrLess(groups[i].key, groups[j].key))
    && (forall i, k :: 0 <= i < |groups| && k in todo ==> StrLess(groups[i].key, k))
  }

  lemma SortedUpToStep(groups: seq<Group>, todo: set<string>, counts: map<string, nat>, k: string)
    requires SortedUpTo(groups, todo, counts)
    requires k in todo && forall k' :: k' in todo && k' != k ==> StrLess(k, k')
    ensures SortedUpTo(groups + [Group(k, counts[k])], todo - {k}, counts)
  {
    var groups', todo' := groups + [Group(k, counts[k])], todo - {k};
    assert KeyList(groups') == KeyList(groups) + [k];
    forall i | 0 <= i < |groups'|
      ensures groups'[i].key in counts && groups'[i].key !in todo'
      ensures groups'[i].count == counts[groups'[i].key]
    {
      if i < |groups| {
        assert groups'[i] == groups[i];
      }
    }
    forall k' | k' in counts
      ensures k' in todo' || k' in KeyList(groups')
    {
      if k' !in todo && k' != k {
        assert k' in KeyList(groups);
      }
    }
    forall i, j | 0 <= i < j < |groups'|
      ensures StrLess(groups'[i].key, groups'[j].key)
    {
      if j == |groups| {
        assert groups'[j].key == k && k in todo;
      } else {
        assert groups'[i] == groups[i] && groups'[j] == groups[j];
      }
    }
    forall i, k' | 0 <= i < |groups'| && k' in todo'
      ensures StrLess(groups'[i].key, k')
    {
      if i == |groups| {
        assert groups'[i].key == k;
      } else {
        assert groups'[i] == groups[i] && k' in todo;
      }
    }
  }

  /** The entries of `counts` as groups, in ascending key order. */
  method SortedGroups(counts: map<string, nat>) returns (groups: seq<Group>)
    ensures forall i, j :: 0 <= i < j < |groups| ==> StrLess(groups[i].key, groups[j].key)
    ensures forall k :: k in counts <==> k in KeyList(groups)
    ensures forall i :: 0 <= i < |groups| ==> groups[i].key in counts && groups[i].count == counts[groups[i].key]
  {
    groups := [];
    var todo := counts.Keys;
    while todo != {}
      invariant SortedUpTo(groups, todo, counts)
      decreases |todo|
    {
      var k := Least(todo);
      SortedUpToStep(groups, todo, counts, k);
      groups := groups + [Group(k, counts[k])];
      todo := todo - {k};
    }
  }

  /** `tweets.groupby(column)['#'].count()` */
  method GroupCount(rows: seq<Tweet>, column: KeyColumn) returns (groups: seq<Group>)
    ensures IsGrouping(groups, rows, column)
  {
    var counts := CountPerKey(rows, column);
    groups := SortedGroups(counts);
  }

  lemma {:induction false} RowsWithKeyInSplit(rows: seq<Tweet>, column: KeyColumn, k: string, keys: set<string>)
    requires k !in keys
    ensures RowsWithKeyIn(rows, column, keys + {k}) == GroupSize(rows, column, k) + RowsWithKeyIn(rows, column, keys)
  {
    if rows != [] {
      RowsWithKeyInSplit(rows[..|rows| - 1], column, k, keys);
    }
  }

  lemma {:induction false} RowsWithAllKeys(rows: seq<Tweet>, column: KeyColumn, keys: set<string>)
    requires KeySet(rows, column) <= keys
    ensures RowsWithKeyIn(rows, column, keys) == CountedRows(rows, column)
  {
    if rows != [] {
      RowsWithAllKeys(rows[..|rows| - 1], column, keys);
    }
  }

  function SumCounts(groups: seq<Group>): nat
  {
    if groups == [] then 0 else groups[0].count + SumCounts(groups[1..])
  }

  function GroupKeys(groups: seq<Group>): set<string>
  {
    set i | 0 <= i < |groups| :: groups[i].key
  }

  lemma {:induction false} SumCountsOfDistinctKeys(groups: seq<Group>, rows: seq<Tweet>, column: KeyColumn)
    requires forall i, j :: 0 <= i < j < |groups| ==> groups[i].key != groups[j].key
    requires forall i :: 0 <= i < |groups| ==> groups[i].count == GroupSize(rows, column, groups[i].key)
    ensures SumCounts(groups) == RowsWithKeyIn(rows, column, GroupKeys(groups))
  {
    if groups == [] {
      assert GroupKeys(groups) == {};
      EmptyKeysNoRows(rows, column);
    } else {
      var tail := groups[1..];
      SumCountsOfDistinctKeys(tail, rows, column);
      assert GroupKeys(groups) == GroupKeys(tail) + {groups[0].key} by {
        forall i | 0 <= i < |groups| ensures groups[i].key in GroupKeys(tail) + {groups[0].key} {
          if i > 0 { assert groups[i].key == tail[i - 1].key; }
        }
        forall i | 0 <= i < |tail| ensures tail[i].key in GroupKeys(groups) {
          assert tail[i].key == groups[i + 1].key;
        }
      }
      assert groups[0].key !in GroupKeys(tail);
      RowsWithKeyInSplit(rows, column, groups[0].key, GroupKeys(tail));
    }
  }

  lemma {:induction false} EmptyKeysNoRows(rows: seq<Tweet>, column: KeyColumn)
    ensures RowsWithKeyIn(rows, column, {}) == 0
  {
    if rows != [] {
      EmptyKeysNoRows(rows[..|rows| - 1], column);
    }
  }

  /** The group counts add up to the number of rows that have both a key and
      a '#'; with '#' always filled, to the number of rows with a key. */
  lemma GroupCountsSum(groups: seq<Group>, rows: seq<Tweet>, column: KeyColumn)
    requires IsGrouping(groups, rows, column)
    ensures SumCounts(groups) == CountedRows(rows, column)
  {
    forall i, j | 0 <= i < j < |groups| ensures groups[i].key != groups[j].key {
      StrLessIrreflexive(groups[i].key);
    }
    SumCountsOfDistinctKeys(groups, rows, column);
    assert forall k :: k in KeyList(groups) ==> k in GroupKeys(groups);
    assert KeySet(rows, column) <= GroupKeys(groups);
    RowsWithAllKeys(rows, column, GroupKeys(groups));
  }
}
