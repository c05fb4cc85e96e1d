/**
 * Sequence helpers shared by the store, the filters and the shopping-list
 * export: the rows of a table that satisfy a condition (a `WHERE`), and the
 * first-occurrence de-duplication used for `DISTINCT` and for the key order
 * of a Python dict.
 */
module Collections {

  /** No element occurs twice. */
  predicate Distinct<T(==)>(s: seq<T>) {
    forall i, j :: 0 <= i < j < |s| ==> s[i] != s[j]
  }

  /** The elements of `s` that satisfy `keep`, in their original order. */
  function Where<T(!new)>(s: seq<T>, keep: T -> bool): (r: seq<T>)
    ensures |r| <= |s|
    ensures forall x :: x in r <==> x in s && keep(x)
  {
    if s == [] then []
    else
      var rest := Where(s[1..], keep);
      assert s == [s[0]] + s[1..];
      if keep(s[0]) then [s[0]] + rest else rest
  }

  /** A kept element keeps all its copies; a dropped one keeps none. */
  lemma {:induction false} WhereCount<T(!new)>(s: seq<T>, keep: T -> bool)
    ensures forall x :: multiset(Where(s, keep))[x] == if keep(x) then multiset(s)[x] else 0
    decreases |s|
  {
    if s != [] {
      WhereCount(s[1..], keep);
      assert s == [s[0]] + s[1..];
    }
  }

  /** Keeping some rows of a table without repetitions leaves none. */
  lemma {:induction false} WhereKeepsDistinct<T(!new)>(s: seq<T>, keep: T -> bool)
    requires Distinct(s)
    ensures Distinct(Where(s, keep))
    decreases |s|
  {
    if s != [] {
      WhereKeepsDistinct(s[1..], keep);
      var rest := Where(s[1..], keep);
      assert s[0] !in s[1..];
      assert s[0] !in rest;
      if keep(s[0]) {
        var r := [s[0]] + rest;
        forall i, j | 0 <= i < j < |r| ensures r[i] != r[j] {
          if i == 0 {
            assert r[j] == rest[j - 1];
          } else {
            assert r[i] == rest[i - 1] && r[j] == rest[j - 1];
          }
        }
      }
    }
  }

  /** `n` copies of `x`. */
  function Repeat<T>(x: T, n: nat): (r: seq<T>)
    ensures |r| == n
    ensures forall i :: 0 <= i < n ==> r[i] == x
  {
    if n == 0 then [] else [x] + Repeat(x, n - 1)
  }

  lemma RepeatCount<T>(x: T, n: nat)
    ensures multiset(Repeat(x, n))[x] == n
    ensures forall y :: y != x ==> multiset(Repeat(x, n))[y] == 0
  {
    if n > 0 {
      RepeatCount(x, n - 1);
      assert Repeat(x, n) == [x] + Repeat(x, n - 1);
    }
  }

  /** The first occurrence of every element, in order of first occurrence. */
  function Dedup<T(==)>(s: seq<T>): (r: seq<T>)
    decreases |s|
  {
    if s == [] then []
    else
      var prefix := Dedup(s[..|s| - 1]);
      if s[|s| - 1] in prefix then prefix else prefix + [s[|s| - 1]]
  }

  /** `Dedup` keeps exactly the elements of `s`, each once. */
  lemma {:induction false} DedupMeaning<T>(s: seq<T>)
    ensures forall x :: x in Dedup(s) <==> x in s
    ensures Distinct(Dedup(s))
    ensures |Dedup(s)| <= |s|
    decreases |s|
  {
    if s != [] {
      var init := s[..|s| - 1];
      DedupMeaning(init);
      assert s == init + [s[|s| - 1]];
    }
  }

  /** Appending an element: it joins the de-duplicated list only when it is new. */
  lemma DedupSnoc<T>(s: seq<T>, x: T)
    ensures Dedup(s + [x]) == if x in Dedup(s) then Dedup(s) else Dedup(s) + [x]
  {
    assert (s + [x])[..|s + [x]| - 1] == s;
  }
}
