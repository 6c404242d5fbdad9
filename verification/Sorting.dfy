/**
  The built-in stable sort, as the program uses it: `sorted(key=...)` and `list.sort`.

  A sorted order is given by its "at most" relation, so a descending sort (which keeps equal
  elements in their original order too) is the same function under the reversed relation.
 */
module Sorting {

  ghost predicate TotalPreorder<T(!new)>(le: (T, T) -> bool) {
    && (forall x, y :: le(x, y) || le(y, x))
    && (forall x, y, z :: le(x, y) && le(y, z) ==> le(x, z))
  }

  ghost predicate SortedBy<T>(xs: seq<T>, le: (T, T) -> bool) {
    forall i, j | 0 <= i < j < |xs| :: le(xs[i], xs[j])
  }

  function Insert<T>(x: T, xs: seq<T>, le: (T, T) -> bool): seq<T> {
    if xs == [] || le(x, xs[0]) then [x] + xs else [xs[0]] + Insert(x, xs[1..], le)
  }

  function StableSort<T>(xs: seq<T>, le: (T, T) -> bool): seq<T> {
    if xs == [] then [] else Insert(xs[0], StableSort(xs[1..], le), le)
  }

  function Filter<T>(xs: seq<T>, keep: T -> bool): seq<T> {
    if xs == [] then []
    else (if keep(xs[0]) then [xs[0]] else []) + Filter(xs[1..], keep)
  }

  /** The elements that `le` cannot tell apart from `x`. */
  function TiesWith<T>(x: T, le: (T, T) -> bool): T -> bool {
    y => le(x, y) && le(y, x)
  }

  /** Same elements, with the order inside every group of ties kept. */
  ghost predicate KeepsTies<T(!new)>(xs: seq<T>, ys: seq<T>, le: (T, T) -> bool) {
    forall z {:trigger TiesWith(z, le)} :: Filter(xs, TiesWith(z, le)) == Filter(ys, TiesWith(z, le))
  }

  /** First by `major`, then by `minor` where `major` cannot tell two elements apart. */
  function Lexicographic<T>(major: (T, T) -> bool, minor: (T, T) -> bool): (T, T) -> bool {
    (x, y) => major(x, y) && (major(y, x) ==> minor(x, y))
  }

  // ----- Filtering -----

  lemma FilterMembers<T>(xs: seq<T>, keep: T -> bool)
    ensures forall x :: x in Filter(xs, keep) <==> x in xs && keep(x)
    ensures forall k | 0 <= k < |Filter(xs, keep)| :: Filter(xs, keep)[k] in xs && keep(Filter(xs, keep)[k])
    ensures |Filter(xs, keep)| <= |xs|
  {
  }

  lemma ConcatAssociates<T>(a: seq<T>, b: seq<T>, c: seq<T>)
    ensures (a + b) + c == a + (b + c)
  {
  }

  lemma HeadAndTail<T>(xs: seq<T>, ys: seq<T>)
    requires xs != []
    ensures (xs + ys)[0] == xs[0] && (xs + ys)[1..] == xs[1..] + ys
  {
  }

  lemma FilterUnfold<T>(xs: seq<T>, keep: T -> bool)
    requires xs != []
    ensures Filter(xs, keep) == (if keep(xs[0]) then [xs[0]] else []) + Filter(xs[1..], keep)
  {
  }

  lemma {:induction false} FilterConcat<T>(xs: seq<T>, ys: seq<T>, keep: T -> bool)
    ensures Filter(xs + ys, keep) == Filter(xs, keep) + Filter(ys, keep)
  {
    if xs == [] {
      assert xs + ys == ys;
    } else {
      hide Filter;
      var head := if keep(xs[0]) then [xs[0]] else [];
      FilterConcat(xs[1..], ys, keep);
      HeadAndTail(xs, ys);
      FilterUnfold(xs + ys, keep);
      FilterUnfold(xs, keep);
      ConcatAssociates(head, Filter(xs[1..], keep), Filter(ys, keep));
    }
  }

  lemma FilterSnoc<T>(xs: seq<T>, x: T, keep: T -> bool)
    ensures Filter(xs + [x], keep) == Filter(xs, keep) + (if keep(x) then [x] else [])
  {
    FilterConcat(xs, [x], keep);
  }

  /** Filtering one element further into a sequence. */
  lemma FilterNext<T>(xs: seq<T>, from: nat, k: nat, keep: T -> bool)
    requires from <= k < |xs|
    ensures Filter(xs[from..k + 1], keep) == Filter(xs[from..k], keep) + (if keep(xs[k]) then [xs[k]] else [])
  {
    FilterSnoc(xs[from..k], xs[k], keep);
    assert xs[from..k + 1] == xs[from..k] + [xs[k]];
  }

  lemma {:induction false} FilterFilter<T>(xs: seq<T>, p: T -> bool, q: T -> bool, both: T -> bool)
    requires forall x :: both(x) <==> p(x) && q(x)
    ensures Filter(Filter(xs, p), q) == Filter(xs, both)
  {
    if xs != [] {
      FilterFilter(xs[1..], p, q, both);
      FilterConcat(if p(xs[0]) then [xs[0]] else [], Filter(xs[1..], p), q);
    }
  }

  /** A filtered sequence that is in order has its elements in that order in the whole sequence. */
  lemma {:induction false} FilteredOrder<T>(xs: seq<T>, keep: T -> bool, le: (T, T) -> bool, i: nat, j: nat)
    requires SortedBy(Filter(xs, keep), le)
    requires i < j < |xs| && keep(xs[i]) && keep(xs[j])
    ensures le(xs[i], xs[j])
  {
    var rest := Filter(xs[1..], keep);
    FilterMembers(xs[1..], keep);
    if i == 0 {
      assert xs[1..][j - 1] == xs[j];
      assert xs[j] in rest;
      assert Filter(xs, keep) == [xs[0]] + rest;
      var k :| 0 <= k < |rest| && rest[k] == xs[j];
      assert Filter(xs, keep)[0] == xs[i] && Filter(xs, keep)[k + 1] == xs[j];
    } else {
      assert SortedBy(rest, le) by {
        var head := if keep(xs[0]) then [xs[0]] else [];
        assert Filter(xs, keep) == head + rest;
        forall a, b | 0 <= a < b < |rest| ensures le(rest[a], rest[b]) {
          assert Filter(xs, keep)[a + |head|] == rest[a] && Filter(xs, keep)[b + |head|] == rest[b];
        }
      }
      FilteredOrder(xs[1..], keep, le, i - 1, j - 1);
    }
  }

  lemma {:induction false} FilterKeepsOrder<T>(xs: seq<T>, keep: T -> bool, le: (T, T) -> bool)
    requires SortedBy(xs, le)
    ensures SortedBy(Filter(xs, keep), le)
  {
    if xs != [] {
      FilterKeepsOrder(xs[1..], keep, le);
      FilterMembers(xs[1..], keep);
      var rest := Filter(xs[1..], keep);
      forall k | 0 <= k < |rest| ensures le(xs[0], rest[k]) {
        assert rest[k] in xs[1..];
        var m :| 0 <= m < |xs| - 1 && xs[1..][m] == rest[k];
        assert le(xs[0], xs[m + 1]);
      }
    }
  }

  // ----- What the sort promises -----

  lemma InsertPermutes<T>(x: T, xs: seq<T>, le: (T, T) -> bool)
    ensures multiset(Insert(x, xs, le)) == multiset([x]) + multiset(xs)
  {
    if xs != [] {
      assert xs == [xs[0]] + xs[1..];
    }
  }

  lemma {:induction false} SortPermutes<T>(xs: seq<T>, le: (T, T) -> bool)
    ensures multiset(StableSort(xs, le)) == multiset(xs)
    ensures |StableSort(xs, le)| == |xs|
    ensures forall x :: x in StableSort(xs, le) <==> x in xs
  {
    if xs != [] {
      SortPermutes(xs[1..], le);
      InsertPermutes(xs[0], StableSort(xs[1..], le), le);
      assert xs == [xs[0]] + xs[1..];
    }
    assert |multiset(StableSort(xs, le))| == |multiset(xs)|;
    forall x ensures x in StableSort(xs, le) <==> x in xs {
      assert x in multiset(StableSort(xs, le)) <==> x in multiset(xs);
    }
  }

  lemma {:induction false} InsertSorts<T(!new)>(x: T, xs: seq<T>, le: (T, T) -> bool)
    requires TotalPreorder(le) && SortedBy(xs, le)
    ensures SortedBy(Insert(x, xs, le), le)
  {
    if xs == [] {
    } else if le(x, xs[0]) {
      forall j | 0 <= j < |xs| ensures le(x, xs[j]) {
        assert le(xs[0], xs[j]);
      }
    } else {
      InsertSorts(x, xs[1..], le);
      var rest := Insert(x, xs[1..], le);
      InsertPermutes(x, xs[1..], le);
      forall j | 0 <= j < |rest| ensures le(xs[0], rest[j]) {
        assert rest[j] in multiset(rest);
        assert rest[j] == x || rest[j] in xs[1..];
      }
    }
  }

  lemma {:induction false} SortSorts<T(!new)>(xs: seq<T>, le: (T, T) -> bool)
    requires TotalPreorder(le)
    ensures SortedBy(StableSort(xs, le), le)
  {
    if xs != [] {
      SortSorts(xs[1..], le);
      InsertSorts(xs[0], StableSort(xs[1..], le), le);
    }
  }

  lemma {:induction false} InsertStable<T(!new)>(x: T, xs: seq<T>, le: (T, T) -> bool, z: T)
    requires TotalPreorder(le)
    ensures Filter(Insert(x, xs, le), TiesWith(z, le)) == Filter([x] + xs, TiesWith(z, le))
  {
    if xs != [] && !le(x, xs[0]) {
      InsertStable(x, xs[1..], le, z);
      var p := TiesWith(z, le);
      assert !(p(x) && p(xs[0]));
      var rest := Insert(x, xs[1..], le);
      assert ([xs[0]] + rest)[1..] == rest;
      assert ([x] + xs)[1..] == xs && ([x] + xs[1..])[1..] == xs[1..];
    }
  }

  lemma {:induction false} SortIsStable<T(!new)>(xs: seq<T>, le: (T, T) -> bool)
    requires TotalPreorder(le)
    ensures KeepsTies(xs, StableSort(xs, le), le)
  {
    if xs != [] {
      SortIsStable(xs[1..], le);
      var sorted := StableSort(xs[1..], le);
      forall z ensures Filter(xs, TiesWith(z, le)) == Filter(StableSort(xs, le), TiesWith(z, le)) {
        InsertStable(xs[0], sorted, le, z);
        assert Filter(xs[1..], TiesWith(z, le)) == Filter(sorted, TiesWith(z, le));
        assert ([xs[0]] + sorted)[1..] == sorted;
      }
    }
  }

  lemma SortedHeads<T(!new)>(xs: seq<T>, ys: seq<T>, le: (T, T) -> bool)
    requires TotalPreorder(le) && SortedBy(xs, le) && SortedBy(ys, le) && KeepsTies(xs, ys, le)
    requires |xs| == |ys| && xs != []
    ensures xs[0] == ys[0] && KeepsTies(xs[1..], ys[1..], le)
  {
    var p := TiesWith(xs[0], le);
    assert le(xs[0], xs[0]);
    FilterMembers(xs, p);
    FilterMembers(ys, p);
    assert Filter(xs, p) == Filter(ys, p);
    assert xs[0] in Filter(xs, p);
    assert xs[0] in ys;
    var q := TiesWith(ys[0], le);
    FilterMembers(xs, q);
    FilterMembers(ys, q);
    assert le(ys[0], ys[0]);
    assert Filter(xs, q) == Filter(ys, q);
    assert ys[0] in Filter(ys, q);
    assert ys[0] in xs;
    assert le(xs[0], ys[0]) && le(ys[0], xs[0]);
    assert Filter(xs, p)[0] == xs[0] && Filter(ys, p)[0] == ys[0];
    forall z ensures Filter(xs[1..], TiesWith(z, le)) == Filter(ys[1..], TiesWith(z, le)) {
      var r := TiesWith(z, le);
      assert Filter(xs, r) == Filter(ys, r);
      if r(xs[0]) {
        assert Filter(xs, r)[1..] == Filter(xs[1..], r);
        assert Filter(ys, r)[1..] == Filter(ys[1..], r);
      } else {
        assert Filter(xs, r) == Filter(xs[1..], r) && Filter(ys, r) == Filter(ys[1..], r);
      }
    }
  }

  /** Being in order and keeping ties fixes the result: there is one stable sort. */
  lemma {:induction false} StableSortIsUnique<T(!new)>(xs: seq<T>, ys: seq<T>, le: (T, T) -> bool)
    requires TotalPreorder(le) && SortedBy(xs, le) && SortedBy(ys, le) && KeepsTies(xs, ys, le)
    requires |xs| == |ys|
    ensures xs == ys
  {
    if xs != [] {
      SortedHeads(xs, ys, le);
      StableSortIsUnique(xs[1..], ys[1..], le);
      assert xs == [xs[0]] + xs[1..] && ys == [ys[0]] + ys[1..];
    }
  }

  /** Sorting by the minor order and then stably by the major one sorts lexicographically. */
  lemma SortingTwice<T(!new)>(xs: seq<T>, major: (T, T) -> bool, minor: (T, T) -> bool)
    requires TotalPreorder(major) && TotalPreorder(minor)
    ensures TotalPreorder(Lexicographic(major, minor))
    ensures StableSort(StableSort(xs, minor), major) == StableSort(xs, Lexicographic(major, minor))
  {
    var lex := Lexicographic(major, minor);
    var inner := StableSort(xs, minor);
    var outer := StableSort(inner, major);
    SortSorts(inner, major);
    SortIsStable(inner, major);
    SortSorts(xs, minor);
    SortIsStable(xs, minor);
    assert SortedBy(outer, lex) by {
      forall i, j | 0 <= i < j < |outer| ensures lex(outer[i], outer[j]) {
        if major(outer[j], outer[i]) {
          var p := TiesWith(outer[i], major);
          assert major(outer[i], outer[i]);
          assert Filter(inner, p) == Filter(outer, p);
          FilterKeepsOrder(inner, p, minor);
          FilteredOrder(outer, p, minor, i, j);
        }
      }
    }
    assert KeepsTies(xs, outer, lex) by {
      forall z ensures Filter(xs, TiesWith(z, lex)) == Filter(outer, TiesWith(z, lex)) {
        var p, q, both := TiesWith(z, major), TiesWith(z, minor), TiesWith(z, lex);
        FilterFilter(outer, p, q, both);
        FilterFilter(inner, p, q, both);
        FilterFilter(inner, q, p, both);
        FilterFilter(xs, q, p, both);
        assert Filter(inner, p) == Filter(outer, p);
        assert Filter(xs, q) == Filter(inner, q);
      }
    }
    SortSorts(xs, lex);
    SortIsStable(xs, lex);
    SortPermutes(xs, lex);
    SortPermutes(xs, minor);
    SortPermutes(inner, major);
    assert KeepsTies(outer, StableSort(xs, lex), lex) by {
      forall z ensures Filter(outer, TiesWith(z, lex)) == Filter(StableSort(xs, lex), TiesWith(z, lex)) {
        assert Filter(xs, TiesWith(z, lex)) == Filter(outer, TiesWith(z, lex));
      }
    }
    StableSortIsUnique(outer, StableSort(xs, lex), lex);
  }

  // ----- Totals -----

  function Sum<T>(xs: seq<T>, amount: T -> int): int {
    if xs == [] then 0 else amount(xs[0]) + Sum(xs[1..], amount)
  }

  lemma {:induction false} SumConcat<T>(xs: seq<T>, ys: seq<T>, amount: T -> int)
    ensures Sum(xs + ys, amount) == Sum(xs, amount) + Sum(ys, amount)
  {
    if xs == [] {
      assert xs + ys == ys;
    } else {
      assert (xs + ys)[1..] == xs[1..] + ys;
      SumConcat(xs[1..], ys, amount);
    }
  }

  lemma {:induction false} SumInsert<T>(x: T, xs: seq<T>, le: (T, T) -> bool, amount: T -> int)
    ensures Sum(Insert(x, xs, le), amount) == amount(x) + Sum(xs, amount)
  {
    if xs != [] && !le(x, xs[0]) {
      SumInsert(x, xs[1..], le, amount);
    }
  }

  lemma {:induction false} SortKeepsSum<T>(xs: seq<T>, le: (T, T) -> bool, amount: T -> int)
    ensures Sum(StableSort(xs, le), amount) == Sum(xs, amount)
  {
    if xs != [] {
      SortKeepsSum(xs[1..], le, amount);
      SumInsert(xs[0], StableSort(xs[1..], le), le, amount);
    }
  }
}
