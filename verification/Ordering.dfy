/** The order of strings and the stable sort that several of the models share. */
module Ordering {
  /** `str` order: the first character that differs decides. */
  predicate Before(a: string, b: string) {
    b != [] && (a == [] || a[0] < b[0] || (a[0] == b[0] && Before(a[1..], b[1..])))
  }

  lemma {:induction false} BeforeIsTotal(a: string, b: string)
    ensures Before(a, b) || a == b || Before(b, a)
    decreases |a|
  {
    if a != [] && b != [] && a[0] == b[0] {
      BeforeIsTotal(a[1..], b[1..]);
      assert a == [a[0]] + a[1..] && b == [b[0]] + b[1..];
    }
  }

  lemma {:induction false} BeforeIsTransitive(a: string, b: string, c: string)
    requires Before(a, b) && Before(b, c)
    ensures Before(a, c)
    decreases |a|
  {
    if a != [] && a[0] == b[0] == c[0] {
      BeforeIsTransitive(a[1..], b[1..], c[1..]);
    }
  }

  lemma {:induction false} BeforeIsIrreflexive(a: string)
    ensures !Before(a, a)
  {
    if a != [] {
      BeforeIsIrreflexive(a[1..]);
    }
  }

  ghost predicate IsOrder<T(!new)>(inOrder: (T, T) -> bool) {
    && (forall a, b :: inOrder(a, b) || inOrder(b, a))
    && (forall a, b, c :: inOrder(a, b) && inOrder(b, c) ==> inOrder(a, c))
  }

  ghost predicate Sorted<T>(list: seq<T>, inOrder: (T, T) -> bool) {
    forall i, j | 0 <= i < j < |list| :: inOrder(list[i], list[j])
  }

  /** `sort_by`. */
  function SortBy<T>(list: seq<T>, inOrder: (T, T) -> bool): (r: seq<T>)
    ensures multiset(r) == multiset(list)
  {
    if list == [] then []
    else
      assert list == [list[0]] + list[1..];
      Insert(list[0], SortBy(list[1..], inOrder), inOrder)
  }

  function Insert<T>(x: T, list: seq<T>, inOrder: (T, T) -> bool): (r: seq<T>)
    ensures multiset(r) == multiset([x]) + multiset(list)
  {
    if list == [] then [x]
    else if inOrder(x, list[0]) then [x] + list
    else
      assert list == [list[0]] + list[1..];
      [list[0]] + Insert(x, list[1..], inOrder)
  }

  lemma {:induction false} SortBySorts<T(!new)>(list: seq<T>, inOrder: (T, T) -> bool)
    requires IsOrder(inOrder)
    ensures Sorted(SortBy(list, inOrder), inOrder)
  {
    if list != [] {
      SortBySorts(list[1..], inOrder);
      InsertSorts(list[0], SortBy(list[1..], inOrder), inOrder);
    }
  }

  lemma {:induction false} InsertSorts<T(!new)>(x: T, list: seq<T>, inOrder: (T, T) -> bool)
    requires IsOrder(inOrder) && Sorted(list, inOrder)
    ensures Sorted(Insert(x, list, inOrder), inOrder)
  {
    if list != [] {
      if inOrder(x, list[0]) {
        FirstBeforeAll(x, list, inOrder);
      } else {
        InsertSorts(x, list[1..], inOrder);
        var tail := Insert(x, list[1..], inOrder);
        forall i | 0 <= i < |tail| ensures inOrder(list[0], tail[i]) {
          assert tail[i] in multiset(tail);
          assert tail[i] == x || tail[i] in list[1..];
        }
      }
    }
  }

  lemma {:induction false} FirstBeforeAll<T(!new)>(x: T, list: seq<T>, inOrder: (T, T) -> bool)
    requires IsOrder(inOrder) && Sorted(list, inOrder) && list != [] && inOrder(x, list[0])
    ensures Sorted([x] + list, inOrder)
  {
    forall i | 0 <= i < |list| ensures inOrder(x, list[i]) {
      if i > 0 {
        assert inOrder(list[0], list[i]);
      }
    }
  }

  /** A permutation has the same elements, and each once where each was there once. */
  lemma {:induction false} PermutedKeepsDistinct<T>(list: seq<T>, permuted: seq<T>)
    requires multiset(list) == multiset(permuted)
    requires forall i, j | 0 <= i < j < |list| :: list[i] != list[j]
    ensures forall x :: x in list <==> x in permuted
    ensures forall i, j | 0 <= i < j < |permuted| :: permuted[i] != permuted[j]
  {
    forall x ensures x in list <==> x in permuted {
      assert x in list <==> x in multiset(list);
      assert x in permuted <==> x in multiset(permuted);
    }
    forall i, j | 0 <= i < j < |permuted| ensures permuted[i] != permuted[j] {
      OnceInMultiset(list, permuted[i]);
      if permuted[i] == permuted[j] {
        TwiceInMultiset(permuted, i, j);
      }
    }
  }

  lemma {:induction false} TwiceInMultiset<T>(s: seq<T>, i: nat, j: nat)
    requires i < j < |s| && s[i] == s[j]
    ensures multiset(s)[s[i]] >= 2
  {
    assert s == s[..j] + [s[j]] + s[j + 1..];
    assert s[i] in s[..j];
  }

  lemma {:induction false} OnceInMultiset<T>(list: seq<T>, x: T)
    requires forall i, j | 0 <= i < j < |list| :: list[i] != list[j]
    ensures multiset(list)[x] <= 1
    decreases |list|
  {
    if list != [] {
      assert list == [list[0]] + list[1..];
      OnceInMultiset(list[1..], x);
      if list[0] == x {
        assert x !in list[1..];
      }
    }
  }
}
