/** Option and result values shared by the analysis modules.
    `None` stands for pandas' NaN / NA wherever a statistic or a cell is missing. */
module Basics {

  datatype Option<+T> = None | Some(value: T)

  /** Why an analysis step raises instead of returning a value. */
  datatype Failure =
    | KeyNotFound(missing: string)   // a column label that is not where pandas looks it up
    | NoSelection                  // a selectbox over an empty list returned None

  datatype Result<+T> = Ok(value: T) | Err(error: Failure)

  /** Applies `f` to every element, keeping the order. */
  function MapSeq<T, U>(f: T -> U, s: seq<T>): (r: seq<U>)
    ensures |r| == |s|
    ensures forall i :: 0 <= i < |s| ==> r[i] == f(s[i])
  {
    if |s| == 0 then [] else [f(s[0])] + MapSeq(f, s[1..])
  }

  /** Sum of a sequence of reals. */
  function SumReal(s: seq<real>): real
  {
    if |s| == 0 then 0.0 else s[0] + SumReal(s[1..])
  }

  /** Each element occurs exactly once. */
  ghost predicate NoDup<T>(s: seq<T>)
  {
    forall x | x in s :: multiset(s)[x] == 1
  }

  lemma NoDupTail<T>(s: seq<T>)
    requires |s| > 0 && NoDup(s)
    ensures s[0] !in s[1..] && NoDup(s[1..])
  {
    assert s == [s[0]] + s[1..];
    assert multiset(s) == multiset{s[0]} + multiset(s[1..]);
    assert s[0] in s;
    assert multiset(s[1..])[s[0]] == 0;
    forall x | x in s[1..] ensures multiset(s[1..])[x] == 1 {
      assert x in s;
      assert x in multiset(s[1..]);
    }
  }

  lemma NoDupAt<T>(s: seq<T>, i: int, j: int)
    requires NoDup(s) && 0 <= i < j < |s|
    ensures s[i] != s[j]
  {
    var x := s[j];
    assert s == s[..j] + s[j..];
    assert s[j..][0] == x;
    assert multiset(s)[x] == multiset(s[..j])[x] + multiset(s[j..])[x];
    assert x in s;
    assert s[..j][i] == s[i];
  }

  lemma NoDupPrefix<T>(s: seq<T>, k: int)
    requires NoDup(s) && 0 <= k <= |s|
    ensures NoDup(s[..k])
  {
    assert s == s[..k] + s[k..];
    assert multiset(s) == multiset(s[..k]) + multiset(s[k..]);
    forall x | x in s[..k] ensures multiset(s[..k])[x] == 1 {
      assert x in multiset(s[..k]);
      assert x in s;
    }
  }

  /** Two duplicate-free sequences with no element in common concatenate to one. */
  lemma NoDupAppend<T>(a: seq<T>, b: seq<T>)
    requires NoDup(a) && NoDup(b)
    requires forall x :: x in a ==> x !in b
    ensures NoDup(a + b)
  {
    assert multiset(a + b) == multiset(a) + multiset(b);
    forall x | x in a + b ensures multiset(a + b)[x] == 1 {
      if x in a {
        assert x !in multiset(b);
      } else {
        assert x !in multiset(a);
      }
    }
  }

  lemma NoDupPermutation<T>(s: seq<T>, r: seq<T>)
    requires NoDup(s) && multiset(s) == multiset(r)
    ensures NoDup(r)
  {
    forall x | x in r ensures multiset(r)[x] == 1 {
      assert x in multiset(r);
      assert x in s;
    }
  }
}
