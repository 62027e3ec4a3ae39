/**
 * The frequency table both lemmatisers build in `main`: the row lists flattened into one list, counted
 * with a `Counter` in first-occurrence order, and sorted by count, descending.
 */
module Frequency {
  import opened Base

  datatype Entry = Entry(word: string, count: nat)

  /** The row lists one after another. */
  function Concat(rows: seq<seq<string>>): seq<string> {
    if rows == [] then [] else Concat(rows[..|rows| - 1]) + rows[|rows| - 1]
  }

  /** `for lemmas in df["lemmas"]: all_lemmas.extend(lemmas)` */
  method Flatten(rows: seq<seq<string>>) returns (all: seq<string>)
    ensures all == Concat(rows)
  {
    all := [];
    var i := 0;
    while i < |rows|
      invariant 0 <= i <= |rows|
      invariant all == Concat(rows[..i])
    {
      assert rows[..i + 1][..i] == rows[..i];
      all := all + rows[i];
      i := i + 1;
    }
    assert rows[..i] == rows;
  }

  /** The state of a `Counter` that has seen `seen`: its keys in first-occurrence order and their counts. */
  ghost predicate CounterOf(seen: seq<string>, keys: seq<string>, counts: map<string, nat>) {
    keys == Distinct(seen) &&
    (forall x :: x in counts <==> x in seen) &&
    (forall x :: x in counts ==> counts[x] == Count(seen, x))
  }

  /** `Counter(all)`: the keys in first-occurrence order and the number of occurrences of each. */
  method CountAll(all: seq<string>) returns (keys: seq<string>, counts: map<string, nat>)
    ensures CounterOf(all, keys, counts)
  {
    keys, counts := [], map[];
    var i := 0;
    while i < |all|
      invariant 0 <= i <= |all|
      invariant CounterOf(all[..i], keys, counts)
    {
      var x := all[i];
      assert all[..i + 1] == all[..i] + [x];
      CounterStep(all[..i], x, keys, counts);
      if x in counts {
        counts := counts[x := counts[x] + 1];
      } else {
        keys := keys + [x];
        counts := counts[x := 1];
      }
      i := i + 1;
    }
    assert all[..i] == all;
  }

  /** Counting one more occurrence of `x`. */
  lemma CounterStep(seen: seq<string>, x: string, keys: seq<string>, counts: map<string, nat>)
    requires CounterOf(seen, keys, counts)
    ensures x in counts ==> CounterOf(seen + [x], keys, counts[x := counts[x] + 1])
    ensures x !in counts ==> CounterOf(seen + [x], keys + [x], counts[x := 1])
  {
    DistinctSnoc(seen, x);
    if x in counts {
      CounterCounts(seen, x, counts, counts[x := counts[x] + 1]);
    } else {
      CounterCounts(seen, x, counts, counts[x := 1]);
    }
  }

  lemma CounterCounts(seen: seq<string>, x: string, counts: map<string, nat>, counts': map<string, nat>)
    requires (forall y :: y in counts <==> y in seen) && (forall y :: y in counts ==> counts[y] == Count(seen, y))
    requires counts' == counts[x := if x in counts then counts[x] + 1 else 1]
    ensures forall y :: y in counts' <==> y in seen + [x]
    ensures forall y :: y in counts' ==> counts'[y] == Count(seen + [x], y)
  {
    CountSnoc(seen, x);
    forall y ensures y in seen + [x] <==> y in seen || y == x {
    }
  }

  /** One entry per distinct lemma, in first-occurrence order, with its number of occurrences. */
  function Entries(all: seq<string>): seq<Entry> {
    var d := Distinct(all);
    seq(|d|, k requires 0 <= k < |d| => Entry(d[k], Count(all, d[k])))
  }

  const ByCountDesc := (x: Entry, y: Entry) => x.count >= y.count

  lemma ByCountDescTotal()
    ensures TotalPreorder(ByCountDesc)
  {
  }

  /**
   * `sort_values(by="count", ascending=False)` on the Counter's items; the order among equal counts is
   * one of those the library may produce.
   */
  function FrequencyTable(all: seq<string>): seq<Entry> {
    ByCountDescTotal();
    SortBy(Entries(all), ByCountDesc)
  }

  /** The counting in `main`: the frequency table of all rows' lemmas, and the number of unique lemmas reported. */
  method Frequencies(rows: seq<seq<string>>) returns (table: seq<Entry>, unique: nat)
    ensures table == FrequencyTable(Concat(rows))
    ensures unique == |table|
  {
    var all := Flatten(rows);
    var keys, counts := CountAll(all);
    DistinctMembers(all);
    assert forall k :: 0 <= k < |keys| ==> keys[k] in counts;
    var items := seq(|keys|, k requires 0 <= k < |keys| => Entry(keys[k], counts[keys[k]]));
    assert items == Entries(all);
    ByCountDescTotal();
    table := SortBy(items, ByCountDesc);
    unique := |table|;
  }

  // ---------------------------------------------------------------------------
  // What the table promises

  /** Counts never increase down the table. */
  lemma FrequencySorted(all: seq<string>, i: nat, j: nat)
    requires i <= j < |FrequencyTable(all)|
    ensures FrequencyTable(all)[i].count >= FrequencyTable(all)[j].count
  {
    ByCountDescTotal();
  }

  /** Each entry is a lemma of the input with its exact number of occurrences, at least one. */
  lemma FrequencyCounts(all: seq<string>, k: nat)
    requires k < |FrequencyTable(all)|
    ensures FrequencyTable(all)[k].word in all
    ensures FrequencyTable(all)[k].count == Count(all, FrequencyTable(all)[k].word) >= 1
  {
    var e := FrequencyTable(all)[k];
    assert e in multiset(FrequencyTable(all));
    assert e in Entries(all);
  }

  /** Every lemma of the input has an entry, and the table has one entry per distinct lemma. */
  lemma FrequencyCoverage(all: seq<string>, x: string)
    requires x in all
    ensures exists k :: 0 <= k < |FrequencyTable(all)| && FrequencyTable(all)[k].word == x
    ensures |FrequencyTable(all)| == |Distinct(all)|
  {
    var d := Distinct(all);
    var m :| 0 <= m < |d| && d[m] == x;
    var e := Entries(all)[m];
    assert e in multiset(Entries(all));
    assert e in FrequencyTable(all);
  }

  /** No lemma has two entries. */
  lemma FrequencyUnique(all: seq<string>, i: nat, j: nat)
    requires i < j < |FrequencyTable(all)|
    ensures FrequencyTable(all)[i].word != FrequencyTable(all)[j].word
  {
    var t := FrequencyTable(all);
    var es := Entries(all);
    EntriesDistinct(all);
    if t[i].word == t[j].word {
      FrequencyCounts(all, i);
      FrequencyCounts(all, j);
      assert t[i] == t[j];
      RepeatedInMultiset(t, i, j);
      NoDuplicatesMultiset(es, t[i]);
    }
  }

  lemma EntriesDistinct(all: seq<string>)
    ensures NoDuplicates(Entries(all))
  {
    var d := Distinct(all);
    var es := Entries(all);
    forall i, j | 0 <= i < j < |es| ensures es[i] != es[j] {
      assert es[i].word == d[i] && es[j].word == d[j];
    }
  }

  lemma RepeatedInMultiset<T>(s: seq<T>, i: nat, j: nat)
    requires i < j < |s| && s[i] == s[j]
    ensures multiset(s)[s[i]] >= 2
  {
    assert s == s[..j] + [s[j]] + s[j + 1..];
    assert s[i] == s[..j][i];
    assert multiset(s) == multiset(s[..j]) + multiset{s[j]} + multiset(s[j + 1..]);
  }

  lemma {:induction false} NoDuplicatesMultiset<T>(s: seq<T>, x: T)
    requires NoDuplicates(s)
    ensures multiset(s)[x] <= 1
  {
    if s != [] {
      var s' := s[..|s| - 1];
      assert s == s' + [s[|s| - 1]];
      assert NoDuplicates(s') by {
        forall i, j | 0 <= i < j < |s'| ensures s'[i] != s'[j] { assert s'[i] == s[i] && s'[j] == s[j]; }
      }
      NoDuplicatesMultiset(s', x);
      if x == s[|s| - 1] {
        assert x !in s' by {
          forall i | 0 <= i < |s'| ensures s'[i] != x { assert s'[i] == s[i]; }
        }
      }
    }
  }

  // ---------------------------------------------------------------------------
  // Count conservation: the counts add up to the number of lemmas

  function EntrySum(es: seq<Entry>): nat {
    if es == [] then 0 else EntrySum(es[..|es| - 1]) + es[|es| - 1].count
  }

  /** The counts sum to the total number of lemmas of all rows. */
  lemma FrequencySum(rows: seq<seq<string>>)
    ensures EntrySum(FrequencyTable(Concat(rows))) == |Concat(rows)|
  {
    var all := Concat(rows);
    ByCountDescTotal();
    EntrySumSort(Entries(all), ByCountDesc);
    var d := Distinct(all);
    EntriesSum(d, all);
    assert Entries(all) == seq(|d|, k requires 0 <= k < |d| => Entry(d[k], Count(all, d[k])));
    CountSumAll(d, all);
  }

  lemma {:induction false} EntrySumAppend(a: seq<Entry>, b: seq<Entry>)
    ensures EntrySum(a + b) == EntrySum(a) + EntrySum(b)
    decreases |b|
  {
    if b != [] {
      var b' := b[..|b| - 1];
      assert (a + b)[..|a + b| - 1] == a + b';
      EntrySumAppend(a, b');
    } else {
      assert a + b == a;
    }
  }

  /** Inserting an entry adds its count to the sum. */
  lemma {:induction false} EntrySumInsert(s: seq<Entry>, x: Entry, le: (Entry, Entry) -> bool)
    ensures EntrySum(Insert(s, x, le)) == EntrySum(s) + x.count
  {
    if s == [] {
      assert EntrySum([x]) == EntrySum([]) + x.count by { assert [x][..0] == []; }
    } else {
      var head, tail := [s[0]], s[1..];
      assert s == head + tail;
      EntrySumAppend(head, tail);
      if le(s[0], x) {
        EntrySumInsert(tail, x, le);
        EntrySumAppend(head, Insert(tail, x, le));
      } else {
        EntrySumAppend([x], s);
      }
      assert EntrySum(head) == s[0].count by { assert head[..0] == []; }
      assert EntrySum([x]) == x.count by { assert [x][..0] == []; }
    }
  }

  /** Sorting the entries keeps their sum. */
  lemma {:induction false} EntrySumSort(s: seq<Entry>, le: (Entry, Entry) -> bool)
    requires TotalPreorder(le)
    ensures EntrySum(SortBy(s, le)) == EntrySum(s)
  {
    if s != [] {
      EntrySumSort(s[..|s| - 1], le);
      EntrySumInsert(SortBy(s[..|s| - 1], le), s[|s| - 1], le);
    }
  }

  /** The occurrences in `s` of every element of `d`, added up. */
  function CountSum(d: seq<string>, s: seq<string>): nat {
    if d == [] then 0 else CountSum(d[..|d| - 1], s) + Count(s, d[|d| - 1])
  }

  lemma {:induction false} EntriesSum(d: seq<string>, all: seq<string>)
    ensures EntrySum(seq(|d|, k requires 0 <= k < |d| => Entry(d[k], Count(all, d[k])))) == CountSum(d, all)
  {
    if d != [] {
      var d' := d[..|d| - 1];
      EntriesSum(d', all);
      var es := seq(|d|, k requires 0 <= k < |d| => Entry(d[k], Count(all, d[k])));
      assert es[..|es| - 1] == seq(|d'|, k requires 0 <= k < |d'| => Entry(d'[k], Count(all, d'[k])));
    }
  }

  lemma {:induction false} CountSumSnoc(d: seq<string>, s: seq<string>, x: string)
    ensures CountSum(d, s + [x]) == CountSum(d, s) + Count(d, x)
  {
    if d != [] {
      CountSumSnoc(d[..|d| - 1], s, x);
      assert (s + [x])[..|s|] == s;
    }
  }

  lemma {:induction false} CountOnce(d: seq<string>, x: string)
    requires NoDuplicates(d) && x in d
    ensures Count(d, x) == 1
  {
    var d' := d[..|d| - 1];
    assert NoDuplicates(d') by {
      forall i, j | 0 <= i < j < |d'| ensures d'[i] != d'[j] { assert d'[i] == d[i] && d'[j] == d[j]; }
    }
    if d[|d| - 1] == x {
      assert x !in d' by {
        forall i | 0 <= i < |d'| ensures d'[i] != x { assert d'[i] == d[i]; }
      }
    } else {
      assert x in d' by {
        var i :| 0 <= i < |d| && d[i] == x;
        assert d'[i] == x;
      }
      CountOnce(d', x);
    }
  }

  /** Summing the occurrences of each distinct element counts every element once. */
  lemma {:induction false} CountSumAll(d: seq<string>, s: seq<string>)
    requires NoDuplicates(d)
    requires forall i :: 0 <= i < |s| ==> s[i] in d
    ensures CountSum(d, s) == |s|
  {
    if s == [] {
      CountSumEmpty(d);
    } else {
      var s' := s[..|s| - 1];
      var x := s[|s| - 1];
      assert s == s' + [x];
      assert forall i :: 0 <= i < |s'| ==> s'[i] == s[i];
      CountSumAll(d, s');
      CountSumSnoc(d, s', x);
      CountOnce(d, x);
    }
  }

  lemma {:induction false} CountSumEmpty(d: seq<string>)
    ensures CountSum(d, []) == 0
  {
    if d != [] {
      CountSumEmpty(d[..|d| - 1]);
    }
  }
}
