/** Sorting by a strict weak order. */
module Sorting {
  function InsertBy<T>(x: T, s: seq<T>, less: (T, T) -> bool): seq<T> {
    if s == [] || less(x, s[0]) then [x] + s else [s[0]] + InsertBy(x, s[1..], less)
  }

  function SortBy<T>(s: seq<T>, less: (T, T) -> bool): seq<T> {
    if s == [] then [] else InsertBy(s[0], SortBy(s[1..], less), less)
  }

  /** Nothing later is less than anything earlier. */
  ghost predicate SortedBy<T(!new)>(s: seq<T>, less: (T, T) -> bool) {
    forall i, j :: 0 <= i < j < |s| ==> !less(s[j], s[i])
  }

  ghost predicate Ordering<T(!new)>(less: (T, T) -> bool) {
    && (forall a, b :: less(a, b) ==> !less(b, a))
    && (forall a, b, c :: less(a, b) && !less(c, b) ==> less(a, c))
  }

  lemma {:induction false} InsertSorts<T(!new)>(x: T, s: seq<T>, less: (T, T) -> bool)
    requires Ordering(less) && SortedBy(s, less)
    ensures SortedBy(InsertBy(x, s, less), less) && multiset(InsertBy(x, s, less)) == multiset(s) + multiset{x}
  {
    if s == [] {
    } else if less(x, s[0]) {
      FirstSorts(x, s, less);
      assert multiset([x] + s) == multiset(s) + multiset{x};
    } else {
      var rest := InsertBy(x, s[1..], less);
      TailSorts(s, less);
      InsertSorts(x, s[1..], less);
      assert s == [s[0]] + s[1..];
      forall y | y in rest ensures !less(y, s[0]) {
        assert y in multiset(rest);
        assert y == x || y in s[1..];
      }
      HeadSorts(s[0], rest, less);
      assert multiset([s[0]] + rest) == multiset{s[0]} + multiset(rest);
    }
  }

  lemma TailSorts<T(!new)>(s: seq<T>, less: (T, T) -> bool)
    requires s != [] && SortedBy(s, less)
    ensures SortedBy(s[1..], less) && forall y :: y in s[1..] ==> !less(y, s[0])
  {
    forall y | y in s[1..] ensures !less(y, s[0]) {
      var j :| 0 <= j < |s[1..]| && s[1..][j] == y;
      assert !less(s[j + 1], s[0]);
    }
  }

  lemma HeadSorts<T(!new)>(x: T, s: seq<T>, less: (T, T) -> bool)
    requires SortedBy(s, less) && forall y :: y in s ==> !less(y, x)
    ensures SortedBy([x] + s, less)
  {
  }

  lemma FirstSorts<T(!new)>(x: T, s: seq<T>, less: (T, T) -> bool)
    requires Ordering(less) && SortedBy(s, less) && s != [] && less(x, s[0])
    ensures SortedBy([x] + s, less)
  {
    TailSorts(s, less);
    forall y | y in s ensures !less(y, x) {
      assert y == s[0] || y in s[1..];
      assert less(x, y);
    }
    HeadSorts(x, s, less);
  }

  lemma {:induction false} SortSorts<T(!new)>(s: seq<T>, less: (T, T) -> bool)
    requires Ordering(less)
    ensures SortedBy(SortBy(s, less), less) && multiset(SortBy(s, less)) == multiset(s)
  {
    if s != [] {
      SortSorts(s[1..], less);
      InsertSorts(s[0], SortBy(s[1..], less), less);
      assert s == [s[0]] + s[1..];
    }
  }
}

/** Sets of names as the lists they are reported in. */
module NameLists {
  import opened Common
  import opened Sorting

  ghost predicate Ascending(ls: seq<string>) {
    forall i, j :: 0 <= i < j < |ls| ==> StrLess(ls[i], ls[j])
  }

  /** Exactly these names, each once, in order. */
  ghost predicate Lists(ls: seq<string>, names: set<string>) {
    Ascending(ls) && Elems(ls) == names
  }

  lemma {:induction false} InsertLists(x: string, ls: seq<string>)
    requires Ascending(ls) && x !in ls
    ensures Lists(InsertBy(x, ls, StrLess), Elems(ls) + {x})
  {
    hide StrLess;
    if ls != [] {
      StrLessTrichotomy(x, ls[0]);
      HeadIsLeast(ls);
      assert ls == [ls[0]] + ls[1..];
      if StrLess(x, ls[0]) {
        forall y | y in ls ensures StrLess(x, y) {
          if y != ls[0] {
            StrLessTransitive(x, ls[0], y);
          }
        }
        LeastFirst(x, ls);
      } else {
        InsertLists(x, ls[1..]);
        var rest := InsertBy(x, ls[1..], StrLess);
        forall y | y in rest ensures StrLess(ls[0], y) {
          assert y in Elems(rest);
        }
        LeastFirst(ls[0], rest);
        assert Elems(ls) == {ls[0]} + Elems(ls[1..]);
      }
    }
  }

  lemma HeadIsLeast(ls: seq<string>)
    requires Ascending(ls) && ls != []
    ensures Ascending(ls[1..]) && forall y :: y in ls && y != ls[0] ==> y in ls[1..] && StrLess(ls[0], y)
    ensures forall y :: y in ls[1..] ==> StrLess(ls[0], y)
  {
    hide StrLess;
    forall y | y in ls[1..] ensures StrLess(ls[0], y) {
      var k :| 0 <= k < |ls[1..]| && ls[1..][k] == y;
      assert StrLess(ls[0], ls[k + 1]);
    }
    assert ls == [ls[0]] + ls[1..];
  }

  lemma LeastFirst(x: string, ls: seq<string>)
    requires Ascending(ls) && forall y :: y in ls ==> StrLess(x, y)
    ensures Lists([x] + ls, Elems(ls) + {x})
  {
    hide StrLess;
    assert Elems([x] + ls) == Elems(ls) + {x};
  }

  /** ReadDir's order, and sort.Strings'. */
  method InOrder(names: set<string>) returns (ls: seq<string>)
    ensures Lists(ls, names)
  {
    ls := [];
    var left := names;
    while left != {}
      invariant left <= names && Lists(ls, names - left)
      decreases |left|
    {
      hide StrLess, InsertBy;
      var x :| x in left;
      assert x in ls ==> x in Elems(ls);
      InsertLists(x, ls);
      assert names - left + {x} == names - (left - {x});
      ls, left := InsertBy(x, ls, StrLess), left - {x};
    }
    assert names - left == names;
  }

  /** part lists some of the first i of all, in order. */
  ghost predicate PartOf(part: seq<string>, names: set<string>, all: seq<string>, i: nat)
    requires i <= |all|
  {
    Lists(part, names) && names <= Elems(all[..i])
  }

  lemma PartGrows(part: seq<string>, names: set<string>, all: seq<string>, i: nat)
    requires i < |all| && Ascending(all) && PartOf(part, names, all, i)
    ensures PartOf(part, names, all, i + 1) && PartOf(part + [all[i]], names + {all[i]}, all, i + 1)
  {
    hide StrLess;
    assert all[..i + 1] == all[..i] + [all[i]];
    forall j | 0 <= j < |part| ensures StrLess(part[j], all[i]) {
      assert part[j] in Elems(part);
      var k :| 0 <= k < i && all[..i][k] == part[j];
      assert StrLess(all[k], all[i]);
    }
    assert Elems(part + [all[i]]) == Elems(part) + {all[i]};
  }

  /** What is left of a list after its first name. */
  lemma Drops(all: seq<string>, i: nat)
    requires i < |all| && Ascending(all)
    ensures all[i] in Elems(all[i..]) && Elems(all[i + 1..]) == Elems(all[i..]) - {all[i]}
  {
    var rest := all[i + 1..];
    assert all[i..] == [all[i]] + rest;
    forall j | 0 <= j < |rest| ensures rest[j] != all[i] {
      assert StrLess(all[i], all[i + 1 + j]);
      StrLessTrichotomy(all[i], all[i]);
    }
    hide StrLess;
    assert all[i] !in rest;
  }
}
