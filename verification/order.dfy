/**
 Orderings used by the model: Rust's derived `Ord` on strings and vectors
 (lexicographic, a proper prefix sorts first) and the sorted iteration order
 of a `BTreeMap`/`BTreeSet`, which the model obtains from a plain `map`/`set`
 through `SortedKeys`.
 */
module Order {

  /** `lt` is a strict total order on all of `T`. */
  ghost predicate StrictTotalOrder<T(!new)>(lt: (T, T) -> bool) {
    && (forall x :: !lt(x, x))
    && (forall x, y, z :: lt(x, y) && lt(y, z) ==> lt(x, z))
    && (forall x, y :: x != y ==> lt(x, y) || lt(y, x))
  }

  /** Lexicographic order on sequences: a proper prefix sorts first. */
  function SeqLt<T(==)>(lt: (T, T) -> bool, a: seq<T>, b: seq<T>): bool
    decreases |a|
  {
    if |a| == 0 then |b| > 0
    else if |b| == 0 then false
    else if lt(a[0], b[0]) then true
    else if a[0] == b[0] then SeqLt(lt, a[1..], b[1..])
    else false
  }

  function CharLt(a: char, b: char): bool { a < b }

  /** Ordering of Rust `str`/`Ident`: code-point lexicographic order. */
  function StrLt(a: string, b: string): bool {
    SeqLt(CharLt, a, b)
  }

  lemma {:induction false} SeqLtIrreflexive<T(!new)>(lt: (T, T) -> bool, a: seq<T>)
    requires StrictTotalOrder(lt)
    ensures !SeqLt(lt, a, a)
    decreases |a|
  {
    if |a| > 0 {
      SeqLtIrreflexive(lt, a[1..]);
    }
  }

  lemma {:induction false} SeqLtTransitive<T(!new)>(lt: (T, T) -> bool, a: seq<T>, b: seq<T>, c: seq<T>)
    requires StrictTotalOrder(lt)
    requires SeqLt(lt, a, b) && SeqLt(lt, b, c)
    ensures SeqLt(lt, a, c)
    decreases |a|
  {
    if |a| > 0 && |b| > 0 && |c| > 0 && a[0] == b[0] && b[0] == c[0] {
      SeqLtTransitive(lt, a[1..], b[1..], c[1..]);
    }
  }

  lemma {:induction false} SeqLtTotal<T(!new)>(lt: (T, T) -> bool, a: seq<T>, b: seq<T>)
    requires StrictTotalOrder(lt)
    requires a != b
    ensures SeqLt(lt, a, b) || SeqLt(lt, b, a)
    decreases |a|
  {
    if |a| > 0 && |b| > 0 && a[0] == b[0] {
      assert a == [a[0]] + a[1..] && b == [b[0]] + b[1..];
      SeqLtTotal(lt, a[1..], b[1..]);
    }
  }

  /** The lexicographic extension of a strict total order is a strict total order. */
  lemma SeqLtStrictTotal<T(!new)>(lt: (T, T) -> bool)
    requires StrictTotalOrder(lt)
    ensures StrictTotalOrder((a: seq<T>, b: seq<T>) => SeqLt(lt, a, b))
  {
    forall a: seq<T> ensures !SeqLt(lt, a, a) {
      SeqLtIrreflexive(lt, a);
    }
    forall a: seq<T>, b: seq<T>, c: seq<T> | SeqLt(lt, a, b) && SeqLt(lt, b, c)
      ensures SeqLt(lt, a, c)
    {
      SeqLtTransitive(lt, a, b, c);
    }
    forall a: seq<T>, b: seq<T> | a != b ensures SeqLt(lt, a, b) || SeqLt(lt, b, a) {
      SeqLtTotal(lt, a, b);
    }
  }

  lemma StrLtStrictTotal()
    ensures StrictTotalOrder(StrLt)
  {
    assert StrictTotalOrder(CharLt);
    SeqLtStrictTotal(CharLt);
    var lex := (a: string, b: string) => SeqLt(CharLt, a, b);
    assert forall a, b :: StrLt(a, b) == lex(a, b);
  }

  /** `s` is strictly increasing under `lt`. */
  ghost predicate StrictlySorted<T>(lt: (T, T) -> bool, s: seq<T>) {
    forall i, j :: 0 <= i < j < |s| ==> lt(s[i], s[j])
  }

  /** `m` is an `lt`-least element of `s`. */
  predicate IsLeast<T(==)>(lt: (T, T) -> bool, s: set<T>, m: T) {
    m in s && forall y :: y in s && y != m ==> lt(m, y)
  }

  lemma {:induction false} LeastExists<T(!new)>(lt: (T, T) -> bool, s: set<T>)
    requires StrictTotalOrder(lt)
    requires s != {}
    ensures exists m :: IsLeast(lt, s, m)
    decreases |s|
  {
    var x :| x in s;
    if s - {x} == {} {
      assert s == {x};
      assert IsLeast(lt, s, x);
    } else {
      LeastExists(lt, s - {x});
      var m :| IsLeast(lt, s - {x}, m);
      if lt(x, m) {
        forall y | y in s && y != x ensures lt(x, y) {
          if y != m {
            assert lt(m, y);
          }
        }
        assert IsLeast(lt, s, x);
      } else {
        assert IsLeast(lt, s, m);
      }
    }
  }

  /**
   The elements of `s` in increasing order: the iteration order of a
   `BTreeSet`, or of a `BTreeMap` whose key set is `s`.
   */
  function SortedKeys<T(==,!new)>(s: set<T>, lt: (T, T) -> bool): (r: seq<T>)
    requires StrictTotalOrder(lt)
    ensures |r| == |s|
    ensures forall x :: x in s <==> x in r
    ensures StrictlySorted(lt, r)
    decreases |s|
  {
    if s == {} then []
    else
      LeastExists(lt, s);
      var m :| IsLeast(lt, s, m);
      var rest := SortedKeys(s - {m}, lt);
      LeastFirst(lt, s, m, rest);
      [m] + rest
  }

  /** The least element, followed by the others in order, is all of the set in order. */
  lemma LeastFirst<T(!new)>(lt: (T, T) -> bool, s: set<T>, m: T, rest: seq<T>)
    requires IsLeast(lt, s, m)
    requires |rest| == |s - {m}|
    requires forall x :: x in s - {m} <==> x in rest
    requires StrictlySorted(lt, rest)
    ensures |[m] + rest| == |s|
    ensures forall x :: x in s <==> x in [m] + rest
    ensures StrictlySorted(lt, [m] + rest)
  {
    var r := [m] + rest;
    forall i, j | 0 <= i < j < |r| ensures lt(r[i], r[j]) {
      assert r[j] == rest[j - 1];
      if i > 0 {
        assert r[i] == rest[i - 1];
      } else {
        assert rest[j - 1] in s - {m};
      }
    }
  }

  /** A strictly sorted sequence has no duplicates. */
  lemma StrictlySortedDistinct<T(!new)>(lt: (T, T) -> bool, s: seq<T>, i: int, j: int)
    requires StrictTotalOrder(lt)
    requires StrictlySorted(lt, s)
    requires 0 <= i < |s| && 0 <= j < |s| && i != j
    ensures s[i] != s[j]
  {
  }

  /** All elements of a strictly sorted sequence are distinct. */
  lemma StrictlySortedAllDistinct<T(!new)>(lt: (T, T) -> bool, s: seq<T>)
    requires StrictTotalOrder(lt)
    requires StrictlySorted(lt, s)
    ensures forall i, j :: 0 <= i < j < |s| ==> s[i] != s[j]
  {
    forall i, j | 0 <= i < j < |s| ensures s[i] != s[j] {
      StrictlySortedDistinct(lt, s, i, j);
    }
  }

  lemma SameElementsBothEmpty<T>(a: seq<T>, b: seq<T>)
    requires forall x :: x in a <==> x in b
    ensures |a| == 0 <==> |b| == 0
  {
    if |b| > 0 { assert b[0] in a; }
    if |a| > 0 { assert a[0] in b; }
  }

  /** Two strictly sorted sequences with the same elements are equal: sorted iteration is canonical. */
  lemma {:induction false} SortedUnique<T(!new)>(lt: (T, T) -> bool, a: seq<T>, b: seq<T>)
    requires StrictTotalOrder(lt)
    requires StrictlySorted(lt, a) && StrictlySorted(lt, b)
    requires forall x :: x in a <==> x in b
    ensures a == b
    decreases |a|
  {
    SameElementsBothEmpty(a, b);
    if |a| == 0 || |b| == 0 {
    } else {
      assert a[0] in b && b[0] in a;
      assert a[0] == b[0];
      forall x ensures x in a[1..] <==> x in b[1..] {
        if x in a[1..] {
          var k :| 1 <= k < |a| && a[k] == x;
          assert x != a[0];
          assert x in b;
        }
        if x in b[1..] {
          var k :| 1 <= k < |b| && b[k] == x;
          assert x != b[0];
          assert x in a;
        }
      }
      SortedUnique(lt, a[1..], b[1..]);
      assert a == [a[0]] + a[1..] && b == [b[0]] + b[1..];
    }
  }

  /** Appending an element above every element keeps a sequence strictly sorted. */
  lemma SortedSnoc<T(!new)>(lt: (T, T) -> bool, s: seq<T>, x: T)
    requires StrictlySorted(lt, s)
    requires forall y :: y in s ==> lt(y, x)
    ensures StrictlySorted(lt, s + [x])
  {
    var r := s + [x];
    forall i, j | 0 <= i < j < |r| ensures lt(r[i], r[j]) {
      if j == |s| {
        assert r[i] == s[i] && s[i] in s;
      } else {
        assert r[i] == s[i] && r[j] == s[j];
      }
    }
  }

  /** Sorting a set whose greatest element is `x` lists the rest, then `x`. */
  lemma SortedKeysTop<T(!new)>(lt: (T, T) -> bool, s: set<T>, x: T)
    requires StrictTotalOrder(lt)
    requires x in s && forall y :: y in s && y != x ==> lt(y, x)
    ensures SortedKeys(s, lt) == SortedKeys(s - {x}, lt) + [x]
  {
    var ks := SortedKeys(s - {x}, lt);
    SortedSnoc(lt, ks, x);
    forall y ensures y in s <==> y in ks + [x] {
      assert y in ks + [x] <==> y in ks || y == x;
    }
    SortedUnique(lt, SortedKeys(s, lt), ks + [x]);
  }

  /** With `last` the greatest element and `prev` the next, sorting lists the rest, then `prev`, then `last`. */
  lemma SortedKeysTopTwo<T(!new)>(lt: (T, T) -> bool, s: set<T>, prev: T, last: T)
    requires StrictTotalOrder(lt)
    requires prev in s && last in s && lt(prev, last)
    requires forall y :: y in s ==> y == last || y == prev || lt(y, prev)
    ensures |SortedKeys(s, lt)| >= 2
    ensures SortedKeys(s, lt)[..|SortedKeys(s, lt)| - 1] == SortedKeys(s - {last}, lt)
    ensures SortedKeys(s, lt)[|SortedKeys(s, lt)| - 1] == last
    ensures SortedKeys(s, lt)[|SortedKeys(s, lt)| - 2] == prev
    ensures last !in SortedKeys(s - {last}, lt)
    ensures forall y :: y in SortedKeys(s, lt) ==> y in s
  {
    SortedKeysTop(lt, s, last);
    SortedKeysTop(lt, s - {last}, prev);
    var init := SortedKeys(s - {last}, lt);
    assert SortedKeys(s, lt) == init + [last];
    assert init == SortedKeys(s - {last} - {prev}, lt) + [prev];
  }
}
