/** Orderings used by the sorts of the analysis (`sort_values`, `sort_index`), and a
    stable insertion sort that realises them.

    pandas sorts a Series with its default unstable quicksort, so the order among
    ties is not fixed by the source; what the model states about every sort is that
    its result is a permutation of its input and is ordered, never how ties fall. */
module Order {
  import opened Basics

  /** Every two elements compare, and comparison chains. */
  ghost predicate TotalPreorder<T(!new)>(le: (T, T) -> bool)
  {
    && (forall x, y :: le(x, y) || le(y, x))
    && (forall x, y, z :: le(x, y) && le(y, z) ==> le(x, z))
  }

  ghost predicate Sorted<T>(s: seq<T>, le: (T, T) -> bool)
  {
    forall i, j :: 0 <= i < j < |s| ==> le(s[i], s[j])
  }

  /** `x` may stand before `y` in `sort_values(ascending=False)`: larger values
      first, NaN last (pandas' default `na_position="last"`). */
  predicate DescNaNLast(x: Option<real>, y: Option<real>)
  {
    y.None? || (x.Some? && x.value >= y.value)
  }

  /** `x` may stand before `y` in `sort_values()`: smaller values first, NaN last. */
  predicate AscNaNLast(x: Option<real>, y: Option<real>)
  {
    y.None? || (x.Some? && x.value <= y.value)
  }

  /** Python's ordering of `str` values: code point by code point, a proper
      prefix first. */
  predicate LexLe(a: string, b: string)
  {
    |a| == 0 || (|b| > 0 && (a[0] < b[0] || (a[0] == b[0] && LexLe(a[1..], b[1..]))))
  }

  lemma {:induction false} LexLeTotal(a: string, b: string)
    ensures LexLe(a, b) || LexLe(b, a)
    decreases |a|
  {
    if |a| > 0 && |b| > 0 && a[0] == b[0] {
      LexLeTotal(a[1..], b[1..]);
    }
  }

  lemma {:induction false} LexLeTransitive(a: string, b: string, c: string)
    requires LexLe(a, b) && LexLe(b, c)
    ensures LexLe(a, c)
    decreases |a|
  {
    if |a| > 0 && a[0] == b[0] && b[0] == c[0] {
      LexLeTransitive(a[1..], b[1..], c[1..]);
    }
  }

  lemma LexLeTotalPreorder()
    ensures TotalPreorder(LexLe)
  {
    forall x, y ensures LexLe(x, y) || LexLe(y, x) {
      LexLeTotal(x, y);
    }
    forall x, y, z | LexLe(x, y) && LexLe(y, z) ensures LexLe(x, z) {
      LexLeTransitive(x, y, z);
    }
  }

  /** Inserts `e` in front of the first element it may precede. */
  function Insert<T>(e: T, s: seq<T>, le: (T, T) -> bool): (r: seq<T>)
    ensures multiset(r) == multiset(s) + multiset{e}
    ensures |r| == |s| + 1
  {
    if |s| == 0 then [e]
    else if le(e, s[0]) then [e] + s
    else
      assert s == [s[0]] + s[1..];
      [s[0]] + Insert(e, s[1..], le)
  }

  /** Insertion sort under `le`. */
  function SortBy<T>(s: seq<T>, le: (T, T) -> bool): (r: seq<T>)
    ensures multiset(r) == multiset(s)
    ensures |r| == |s|
  {
    if |s| == 0 then []
    else
      assert s == [s[0]] + s[1..];
      Insert(s[0], SortBy(s[1..], le), le)
  }

  lemma SortByMembers<T>(s: seq<T>, le: (T, T) -> bool, e: T)
    ensures e in SortBy(s, le) <==> e in s
  {
    assert e in SortBy(s, le) <==> e in multiset(SortBy(s, le));
    assert e in s <==> e in multiset(s);
  }

  lemma {:induction false} InsertSorted<T(!new)>(e: T, s: seq<T>, le: (T, T) -> bool)
    requires TotalPreorder(le) && Sorted(s, le)
    ensures Sorted(Insert(e, s, le), le)
  {
    if |s| == 0 {
    } else if le(e, s[0]) {
      var r := [e] + s;
      forall i, j | 0 <= i < j < |r| ensures le(r[i], r[j]) {
        if i == 0 && j > 1 {
          assert le(s[0], s[j - 1]);
        }
      }
    } else {
      InsertSorted(e, s[1..], le);
      var rest := Insert(e, s[1..], le);
      assert le(s[0], e);
      forall x | x in rest ensures le(s[0], x) {
        assert x in multiset(rest);
        if x != e {
          assert x in multiset(s[1..]);
          var k :| 0 <= k < |s[1..]| && s[1..][k] == x;
          assert s[k + 1] == x;
        }
      }
      var r := [s[0]] + rest;
      forall i, j | 0 <= i < j < |r| ensures le(r[i], r[j]) {
        if i == 0 {
          assert r[j] == rest[j - 1] && rest[j - 1] in rest;
        } else {
          assert r[i] == rest[i - 1] && r[j] == rest[j - 1];
        }
      }
    }
  }

  /** The insertion sort orders its result whenever `le` is a total preorder. */
  lemma {:induction false} SortBySorted<T(!new)>(s: seq<T>, le: (T, T) -> bool)
    requires TotalPreorder(le)
    ensures Sorted(SortBy(s, le), le)
  {
    if |s| > 0 {
      SortBySorted(s[1..], le);
      InsertSorted(s[0], SortBy(s[1..], le), le);
    }
  }

  /** Sorting commutes with a projection that preserves the comparison. */
  lemma {:induction false} SortByMap<T(!new), U(!new)>(s: seq<T>, f: T -> U, le: (T, T) -> bool, leU: (U, U) -> bool)
    requires forall x, y :: le(x, y) == leU(f(x), f(y))
    ensures SortBy(MapSeq(f, s), leU) == MapSeq(f, SortBy(s, le))
  {
    if |s| > 0 {
      SortByMap(s[1..], f, le, leU);
      assert MapSeq(f, s)[1..] == MapSeq(f, s[1..]);
      InsertMap(s[0], SortBy(s[1..], le), f, le, leU);
    }
  }

  lemma {:induction false} InsertMap<T(!new), U(!new)>(e: T, s: seq<T>, f: T -> U, le: (T, T) -> bool, leU: (U, U) -> bool)
    requires forall x, y :: le(x, y) == leU(f(x), f(y))
    ensures Insert(f(e), MapSeq(f, s), leU) == MapSeq(f, Insert(e, s, le))
  {
    if |s| > 0 {
      assert MapSeq(f, s)[1..] == MapSeq(f, s[1..]);
      if !le(e, s[0]) {
        InsertMap(e, s[1..], f, le, leU);
      }
    }
  }

  /** Sorting keeps the multiset of any projection. */
  lemma {:induction false} SortByMapMultiset<T, U>(s: seq<T>, le: (T, T) -> bool, f: T -> U)
    ensures multiset(MapSeq(f, SortBy(s, le))) == multiset(MapSeq(f, s))
  {
    if |s| > 0 {
      SortByMapMultiset(s[1..], le, f);
      InsertMapMultiset(s[0], SortBy(s[1..], le), le, f);
      assert MapSeq(f, s) == [f(s[0])] + MapSeq(f, s[1..]);
    }
  }

  lemma {:induction false} InsertMapMultiset<T, U>(e: T, s: seq<T>, le: (T, T) -> bool, f: T -> U)
    ensures multiset(MapSeq(f, Insert(e, s, le))) == multiset(MapSeq(f, s)) + multiset{f(e)}
  {
    if |s| == 0 {
      assert MapSeq(f, [e]) == [f(e)];
    } else {
      var m := MapSeq(f, s);
      assert m == [f(s[0])] + MapSeq(f, s[1..]);
      if le(e, s[0]) {
        assert MapSeq(f, [e] + s) == [f(e)] + m;
      } else {
        var rest := Insert(e, s[1..], le);
        InsertMapMultiset(e, s[1..], le, f);
        assert MapSeq(f, [s[0]] + rest) == [f(s[0])] + MapSeq(f, rest);
      }
    }
  }

  /** Total weight of a sequence. */
  function SumBy<T>(s: seq<T>, w: T -> int): int
  {
    if |s| == 0 then 0 else w(s[0]) + SumBy(s[1..], w)
  }

  /** Sorting keeps any total. */
  lemma {:induction false} SortBySum<T>(s: seq<T>, le: (T, T) -> bool, w: T -> int)
    ensures SumBy(SortBy(s, le), w) == SumBy(s, w)
  {
    if |s| > 0 {
      SortBySum(s[1..], le, w);
      InsertSum(s[0], SortBy(s[1..], le), le, w);
    }
  }

  lemma {:induction false} InsertSum<T>(e: T, s: seq<T>, le: (T, T) -> bool, w: T -> int)
    ensures SumBy(Insert(e, s, le), w) == w(e) + SumBy(s, w)
  {
    if |s| > 0 && !le(e, s[0]) {
      InsertSum(e, s[1..], le, w);
      assert ([s[0]] + Insert(e, s[1..], le))[1..] == Insert(e, s[1..], le);
    } else if |s| > 0 {
      assert ([e] + s)[1..] == s;
    }
  }
}
