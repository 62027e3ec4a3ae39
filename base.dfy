/** Small value types and sequence facts shared by the pipeline stages. */
module Base {

  datatype Option<+T> = None | Some(value: T)

  datatype Result<+T, +E> = Success(value: T) | Failure(error: E)

  /** Number of occurrences of `x` in `s`. */
  function Count<T(==)>(s: seq<T>, x: T): (n: nat)
    ensures n <= |s|
    ensures n == 0 <==> x !in s
  {
    if s == [] then 0 else Count(s[..|s| - 1], x) + (if s[|s| - 1] == x then 1 else 0)
  }

  lemma {:induction false} CountAppend<T>(s: seq<T>, t: seq<T>, x: T)
    ensures Count(s + t, x) == Count(s, x) + Count(t, x)
    decreases |t|
  {
    if t == [] {
      assert s + t == s;
    } else {
      var t' := t[..|t| - 1];
      assert (s + t)[..|s + t| - 1] == s + t';
      CountAppend(s, t', x);
    }
  }

  /** Count agrees with the multiset of `s`. */
  lemma {:induction false} CountMultiset<T>(s: seq<T>, x: T)
    ensures Count(s, x) == multiset(s)[x]
  {
    if s != [] {
      var s' := s[..|s| - 1];
      CountMultiset(s', x);
      assert s == s' + [s[|s| - 1]];
    }
  }

  /** Python truthiness of an optional string: present and not empty. */
  predicate Truthy(s: Option<string>) {
    s.Some? && s.value != ""
  }

  /** No element occurs twice. */
  predicate NoDuplicates<T(==)>(s: seq<T>) {
    forall i, j :: 0 <= i < j < |s| ==> s[i] != s[j]
  }

  /** `a` can be obtained from `s` by deleting elements: the order of `s` is kept. */
  predicate IsSubseq<T(==)>(a: seq<T>, s: seq<T>)
    decreases |s|
  {
    if a == [] then true
    else if s == [] then false
    else if a[|a| - 1] == s[|s| - 1] then IsSubseq(a[..|a| - 1], s[..|s| - 1])
    else IsSubseq(a, s[..|s| - 1])
  }

  /** Appending the same element to both keeps or extends a subsequence. */
  lemma SubseqExtend<T>(a: seq<T>, s: seq<T>, x: T, keep: bool)
    requires IsSubseq(a, s)
    ensures IsSubseq(if keep then a + [x] else a, s + [x])
  {
    var s' := s + [x];
    assert s'[..|s'| - 1] == s;
    if keep {
      var a' := a + [x];
      assert a'[..|a'| - 1] == a;
    } else {
      SubseqDropLast(a, s, x);
    }
  }

  lemma {:induction false} SubseqDropLast<T>(a: seq<T>, s: seq<T>, x: T)
    requires IsSubseq(a, s)
    ensures IsSubseq(a, s + [x])
    decreases |s|, 1
  {
    var s' := s + [x];
    assert s'[..|s'| - 1] == s;
    if a != [] && a[|a| - 1] == x {
      SubseqInit(a, s);
    }
  }

  /** Dropping the last element of a subsequence keeps it a subsequence. */
  lemma {:induction false} SubseqInit<T>(a: seq<T>, s: seq<T>)
    requires a != [] && IsSubseq(a, s)
    ensures IsSubseq(a[..|a| - 1], s)
    decreases |s|, 0
  {
    var s' := s[..|s| - 1];
    assert s' + [s[|s| - 1]] == s;
    if a[|a| - 1] == s[|s| - 1] {
      SubseqDropLast(a[..|a| - 1], s', s[|s| - 1]);
    } else {
      SubseqInit(a, s');
      SubseqDropLast(a[..|a| - 1], s', s[|s| - 1]);
    }
  }

  lemma {:induction false} SubseqLength<T>(a: seq<T>, s: seq<T>)
    requires IsSubseq(a, s)
    ensures |a| <= |s|
    decreases |s|
  {
    if a != [] {
      if a[|a| - 1] == s[|s| - 1] {
        SubseqLength(a[..|a| - 1], s[..|s| - 1]);
      } else {
        SubseqLength(a, s[..|s| - 1]);
      }
    }
  }

  /** Python's `" ".join(parts)`: empty exactly when there is no part, or one empty part. */
  function JoinSpace(parts: seq<string>): (r: string)
    ensures r == [] <==> (parts == [] || (|parts| == 1 && parts[0] == []))
  {
    if parts == [] then ""
    else if |parts| == 1 then parts[0]
    else JoinSpace(parts[..|parts| - 1]) + " " + parts[|parts| - 1]
  }

  /** The elements of `s` that satisfy `p`, in their order in `s`. */
  function Filter<T>(s: seq<T>, p: T -> bool): (r: seq<T>)
    ensures |r| <= |s|
    ensures forall k :: 0 <= k < |r| ==> p(r[k])
  {
    if s == [] then []
    else Filter(s[..|s| - 1], p) + (if p(s[|s| - 1]) then [s[|s| - 1]] else [])
  }

  lemma FilterSnoc<T>(s: seq<T>, x: T, p: T -> bool)
    ensures Filter(s + [x], p) == Filter(s, p) + (if p(x) then [x] else [])
  {
    assert (s + [x])[..|s|] == s;
  }

  /** A filter keeps the order of its input. */
  lemma {:induction false} FilterSubseq<T>(s: seq<T>, p: T -> bool)
    ensures IsSubseq(Filter(s, p), s)
  {
    if s != [] {
      var s' := s[..|s| - 1];
      FilterSubseq(s', p);
      var x := s[|s| - 1];
      SubseqExtend(Filter(s', p), s', x, p(x));
      assert s' + [x] == s;
      assert Filter(s, p) == if p(x) then Filter(s', p) + [x] else Filter(s', p);
    }
  }

  /** A filter keeps every occurrence of an element that satisfies `p` and none of one that does not. */
  lemma {:induction false} FilterCount<T>(s: seq<T>, p: T -> bool, x: T)
    ensures Count(Filter(s, p), x) == if p(x) then Count(s, x) else 0
  {
    if s != [] {
      var s' := s[..|s| - 1];
      FilterCount(s', p, x);
      CountAppend(Filter(s', p), if p(s[|s| - 1]) then [s[|s| - 1]] else [], x);
      assert Count([s[|s| - 1]], x) == if s[|s| - 1] == x then 1 else 0 by {
        assert [s[|s| - 1]][..0] == [];
      }
    }
  }

  /** Every element a filter keeps is an element of its input. */
  lemma FilterMember<T>(s: seq<T>, p: T -> bool, y: T)
    requires y in Filter(s, p)
    ensures y in s
  {
    FilterCount(s, p, y);
  }

  /** A filter of a sorted sequence is sorted. */
  lemma {:induction false} FilterSorted<T>(s: seq<T>, p: T -> bool, le: (T, T) -> bool)
    requires SortedBy(s, le)
    ensures SortedBy(Filter(s, p), le)
  {
    if s != [] {
      var s' := s[..|s| - 1];
      var x := s[|s| - 1];
      assert SortedBy(s', le) by {
        forall i, j | 0 <= i < j < |s'| ensures le(s'[i], s'[j]) { assert s'[i] == s[i] && s'[j] == s[j]; }
      }
      FilterSorted(s', p, le);
      if p(x) {
        var r := Filter(s', p) + [x];
        forall i, j | 0 <= i < j < |r| ensures le(r[i], r[j]) {
          if j == |r| - 1 {
            var y := r[i];
            assert y in Filter(s', p);
            FilterMember(s', p, y);
            var k :| 0 <= k < |s'| && s'[k] == y;
            assert s[k] == y;
          }
        }
      }
    }
  }

  /** The elements of `s` in order of first occurrence, each once. */
  function Distinct<T(==)>(s: seq<T>): (d: seq<T>)
    ensures NoDuplicates(d)
    ensures forall i :: 0 <= i < |s| ==> s[i] in d
    ensures forall k :: 0 <= k < |d| ==> d[k] in s
    ensures |d| <= |s|
  {
    if s == [] then []
    else
      var d' := Distinct(s[..|s| - 1]);
      assert forall i :: 0 <= i < |s| - 1 ==> s[i] == s[..|s| - 1][i];
      if s[|s| - 1] in d' then d' else d' + [s[|s| - 1]]
  }

  /** Appending `x` adds one occurrence of `x` and none of anything else. */
  lemma CountSnoc<T>(s: seq<T>, x: T)
    ensures forall y :: Count(s + [x], y) == Count(s, y) + (if x == y then 1 else 0)
  {
    assert (s + [x])[..|s|] == s;
  }

  lemma DistinctMembers<T>(s: seq<T>)
    ensures forall x :: x in Distinct(s) <==> x in s
  {
    forall x | x in Distinct(s) ensures x in s {
      var k :| 0 <= k < |Distinct(s)| && Distinct(s)[k] == x;
    }
  }

  /** Appending `x` to its input appends it to `Distinct`, unless it occurred already. */
  lemma DistinctSnoc<T>(s: seq<T>, x: T)
    ensures Distinct(s + [x]) == if x in s then Distinct(s) else Distinct(s) + [x]
  {
    assert (s + [x])[..|s|] == s;
    if x in Distinct(s) {
      var k :| 0 <= k < |Distinct(s)| && Distinct(s)[k] == x;
      assert x in s;
    }
  }

  // ---------------------------------------------------------------------------
  // Sorting, for the library sorts the pipeline calls (`sorted`, `sort_values`)

  ghost predicate TotalPreorder<T(!new)>(le: (T, T) -> bool) {
    (forall a, b :: le(a, b) || le(b, a)) &&
    (forall a, b, c :: le(a, b) && le(b, c) ==> le(a, c))
  }

  predicate SortedBy<T>(s: seq<T>, le: (T, T) -> bool) {
    forall i, j :: 0 <= i < j < |s| ==> le(s[i], s[j])
  }

  /** Inserts `x` after every element that is not ordered strictly after it. */
  function Insert<T>(s: seq<T>, x: T, le: (T, T) -> bool): (r: seq<T>)
    ensures multiset(r) == multiset(s) + multiset{x}
    ensures |r| == |s| + 1
  {
    if s == [] then [x]
    else if le(s[0], x) then
      var r' := Insert(s[1..], x, le);
      assert s == [s[0]] + s[1..];
      [s[0]] + r'
    else [x] + s
  }

  /** `a` is ordered before or with every element of `s`. */
  predicate LowerBound<T>(a: T, s: seq<T>, le: (T, T) -> bool) {
    forall k :: 0 <= k < |s| ==> le(a, s[k])
  }

  lemma ConsSorted<T>(a: T, s: seq<T>, le: (T, T) -> bool)
    requires LowerBound(a, s, le) && SortedBy(s, le)
    ensures SortedBy([a] + s, le)
  {
    var r := [a] + s;
    forall i, j | 0 <= i < j < |r| ensures le(r[i], r[j]) {
      assert r[j] == s[j - 1];
      if i > 0 { assert r[i] == s[i - 1]; }
    }
  }

  lemma {:induction false} InsertLowerBound<T>(a: T, s: seq<T>, x: T, le: (T, T) -> bool)
    requires LowerBound(a, s, le) && le(a, x)
    ensures LowerBound(a, Insert(s, x, le), le)
    decreases |s|
  {
    if s != [] && le(s[0], x) {
      assert LowerBound(a, s[1..], le) by {
        forall k | 0 <= k < |s[1..]| ensures le(a, s[1..][k]) { assert s[1..][k] == s[k + 1]; }
      }
      InsertLowerBound(a, s[1..], x, le);
      var r := [s[0]] + Insert(s[1..], x, le);
      forall k | 0 <= k < |r| ensures le(a, r[k]) {
        if k > 0 { assert r[k] == Insert(s[1..], x, le)[k - 1]; }
      }
    } else if s != [] {
      var r := [x] + s;
      forall k | 0 <= k < |r| ensures le(a, r[k]) {
        if k > 0 { assert r[k] == s[k - 1]; }
      }
    }
  }

  lemma {:induction false} InsertSorted<T(!new)>(s: seq<T>, x: T, le: (T, T) -> bool)
    requires TotalPreorder(le)
    requires SortedBy(s, le)
    ensures SortedBy(Insert(s, x, le), le)
    decreases |s|
  {
    if s != [] && le(s[0], x) {
      var t := s[1..];
      assert SortedBy(t, le) by {
        forall i, j | 0 <= i < j < |t| ensures le(t[i], t[j]) { assert t[i] == s[i + 1] && t[j] == s[j + 1]; }
      }
      assert LowerBound(s[0], t, le) by {
        forall k | 0 <= k < |t| ensures le(s[0], t[k]) { assert t[k] == s[k + 1]; }
      }
      InsertSorted(t, x, le);
      InsertLowerBound(s[0], t, x, le);
      ConsSorted(s[0], Insert(t, x, le), le);
    } else if s != [] {
      assert le(x, s[0]);
      assert LowerBound(x, s, le) by {
        forall k | 0 <= k < |s| ensures le(x, s[k]) {
          if k > 0 { assert le(s[0], s[k]); }
        }
      }
      ConsSorted(x, s, le);
    }
  }

  /** Insertion sort: stable, so it is one of the orders an unstable sort may also produce. */
  function SortBy<T(!new)>(s: seq<T>, le: (T, T) -> bool): (r: seq<T>)
    requires TotalPreorder(le)
    ensures SortedBy(r, le)
    ensures multiset(r) == multiset(s)
    ensures |r| == |s|
  {
    if s == [] then []
    else
      var r' := SortBy(s[..|s| - 1], le);
      InsertSorted(r', s[|s| - 1], le);
      assert s == s[..|s| - 1] + [s[|s| - 1]];
      Insert(r', s[|s| - 1], le)
  }
}
