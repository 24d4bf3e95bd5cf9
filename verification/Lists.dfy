/**
 List comparison and sorting shared by the ClickHouse and Keeper addons: the order-insensitive
 comparison of two spellings of a member list, and `sort.Slice`.
 */
module Lists {
  import opened Text

  ghost predicate Distinct<T>(s: seq<T>) {
    forall i, j :: 0 <= i < j < |s| ==> s[i] != s[j]
  }

  function ToSet<T(==)>(s: seq<T>): (r: set<T>) {
    set x | x in s
  }

  /** A list has as many elements as its set exactly when nothing repeats. */
  lemma {:induction false} DistinctIffCardinality<T>(s: seq<T>)
    ensures |ToSet(s)| <= |s|
    ensures Distinct(s) <==> |ToSet(s)| == |s|
  {
    if s != [] {
      var rest, last := s[..|s| - 1], s[|s| - 1];
      DistinctIffCardinality(rest);
      assert s == rest + [last];
      if last in rest {
        assert ToSet(s) == ToSet(rest);
        var k :| 0 <= k < |rest| && rest[k] == last;
        assert s[k] == s[|s| - 1];
      } else {
        assert ToSet(s) == ToSet(rest) + {last};
      }
    }
  }

  lemma DistinctToSetMultiset<T>(s: seq<T>)
    requires Distinct(s)
    ensures multiset(s) == multiset(ToSet(s))
  {
    forall x
      ensures multiset(s)[x] == multiset(ToSet(s))[x]
    {
      if x in s {
        var k :| 0 <= k < |s| && s[k] == x;
        assert s == s[..k] + [x] + s[k + 1..];
        assert x !in s[..k] && x !in s[k + 1..];
      }
    }
  }

  lemma SubsetSize<T>(a: set<T>, b: set<T>)
    requires a <= b
    ensures |a| <= |b|
  {
    assert b == a + (b - a);
  }

  // --- sequence facts, proved once for any element type ---------------------------------

  lemma TakeNext<T>(s: seq<T>, i: nat)
    requires i < |s|
    ensures s[..i + 1] == s[..i] + [s[i]] && s == s[..i + 1] + s[i + 1..]
  {
  }

  lemma ToSetSnoc<T>(s: seq<T>, x: T)
    ensures ToSet(s + [x]) == ToSet(s) + {x}
  {
  }

  lemma TakeAll<T>(s: seq<T>)
    ensures s[..|s|] == s
  {
  }

  lemma HeadTail<T>(s: seq<T>)
    requires s != []
    ensures s == [s[0]] + s[1..]
  {
  }

  lemma TailOfCons<T>(x: T, s: seq<T>)
    ensures ([x] + s)[1..] == s && ([x] + s)[0] == x
  {
  }

  lemma AppendAssoc<T>(a: seq<T>, b: seq<T>, c: seq<T>)
    ensures (a + b) + c == a + (b + c)
  {
  }

  /** The elements that are kept, in order. */
  function Filter<T(==)>(s: seq<T>, keep: T -> bool): (r: seq<T>)
    ensures (forall x :: x in r ==> x in s && keep(x)) && (forall x :: x in s && keep(x) ==> x in r)
  {
    if s == [] then []
    else
      var init, last := Filter(s[..|s| - 1], keep), s[|s| - 1];
      assert s == s[..|s| - 1] + [last];
      if keep(last) then init + [last] else init
  }

  lemma FilterSnoc<T>(s: seq<T>, x: T, keep: T -> bool)
    ensures Filter(s + [x], keep) == Filter(s, keep) + if keep(x) then [x] else []
  {
    assert (s + [x])[..|s|] == s;
  }

  lemma {:induction false} FilterCons<T>(x: T, s: seq<T>, keep: T -> bool)
    ensures Filter([x] + s, keep) == Filter([x], keep) + Filter(s, keep)
    decreases |s|
  {
    if s == [] {
      assert [x] + s == [x];
    } else {
      var init, last := s[..|s| - 1], s[|s| - 1];
      var a, b, c := Filter([x], keep), Filter(init, keep), if keep(last) then [last] else [];
      FilterCons(x, init, keep);
      FilterSnoc(init, last, keep);
      FilterSnoc([x] + init, last, keep);
      AppendAssoc([x], init, [last]);
      AppendAssoc(a, b, c);
      TakeNext(s, |s| - 1);
      TakeAll(s);
    }
  }

  // --- order-insensitive comparison ------------------------------------------------

  /** A list element is read by `canon`, which gives its canonical spelling or rejects it. */
  predicate AllParse(canon: string -> Option<string>, a: seq<string>) {
    forall i :: 0 <= i < |a| ==> canon(a[i]).Some?
  }

  function Canons(canon: string -> Option<string>, a: seq<string>): (r: seq<string>)
    requires AllParse(canon, a)
    ensures |r| == |a| && forall i :: 0 <= i < |a| ==> r[i] == canon(a[i]).value
  {
    if a == [] then [] else [canon(a[0]).value] + Canons(canon, a[1..])
  }

  /** What the comparison decides: both lists are readable and duplicate-free, and they
      name the same members. */
  ghost predicate SameMembers(canon: string -> Option<string>, a: seq<string>, b: seq<string>) {
    && AllParse(canon, a) && AllParse(canon, b)
    && Distinct(Canons(canon, a)) && Distinct(Canons(canon, b))
    && ToSet(Canons(canon, a)) == ToSet(Canons(canon, b))
  }

  /** Reading one more element of a list. */
  lemma ReadNext(canon: string -> Option<string>, a: seq<string>, n: nat)
    requires n < |a| && AllParse(canon, a[..n]) && canon(a[n]).Some?
    ensures AllParse(canon, a[..n + 1])
    ensures Canons(canon, a[..n + 1]) == Canons(canon, a[..n]) + [canon(a[n]).value]
    ensures ToSet(Canons(canon, a[..n + 1])) == ToSet(Canons(canon, a[..n])) + {canon(a[n]).value}
  {
    assert a[..n + 1] == a[..n] + [a[n]];
    assert forall i :: 0 <= i < n ==> a[..n][i] == a[..n + 1][i];
  }

  lemma LengthsAgree(canon: string -> Option<string>, a: seq<string>, b: seq<string>)
    requires SameMembers(canon, a, b)
    ensures |a| == |b|
  {
    DistinctIffCardinality(Canons(canon, a));
    DistinctIffCardinality(Canons(canon, b));
  }

  /** The insert-then-delete comparison, as written three times in the source. */
  method SetsEqual(canon: string -> Option<string>, a: seq<string>, b: seq<string>) returns (same: bool)
    ensures same <==> SameMembers(canon, a, b)
  {
    if |a| != |b| {
      if SameMembers(canon, a, b) { LengthsAgree(canon, a, b); }
      return false;
    }
    var seen: set<string> := {};
    for i := 0 to |a|
      invariant AllParse(canon, a[..i])
      invariant seen == ToSet(Canons(canon, a[..i]))
    {
      if canon(a[i]).None? { return false; }
      ReadNext(canon, a, i);
      seen := seen + {canon(a[i]).value};
    }
    assert a[..|a|] == a;
    DistinctIffCardinality(Canons(canon, a));
    if |seen| != |a| { return false; }
    same := DeleteAll(canon, a, b, seen);
  }

  /** The second loop: delete every member of `b` from the keys of `a`. */
  method DeleteAll(canon: string -> Option<string>, a: seq<string>, b: seq<string>, all: set<string>) returns (same: bool)
    requires AllParse(canon, a) && all == ToSet(Canons(canon, a))
    requires Distinct(Canons(canon, a)) && |a| == |b|
    ensures same <==> SameMembers(canon, a, b)
  {
    var seen := all;
    for i := 0 to |b|
      invariant AllParse(canon, b[..i])
      invariant Distinct(Canons(canon, b[..i]))
      invariant ToSet(Canons(canon, b[..i])) <= all
      invariant seen == all - ToSet(Canons(canon, b[..i]))
    {
      if canon(b[i]).None? { return false; }
      var key := canon(b[i]).value;
      if key !in seen {
        NotTheSame(canon, a, b, i, all);
        return false;
      }
      ReadNext(canon, b, i);
      seen := seen - {key};
    }
    assert b[..|b|] == b;
    DistinctIffCardinality(Canons(canon, a));
    DistinctIffCardinality(Canons(canon, b));
    SubsetOfSameSize(ToSet(Canons(canon, b)), all);
    same := |seen| == 0;
  }

  lemma NotTheSame(canon: string -> Option<string>, a: seq<string>, b: seq<string>, i: nat, all: set<string>)
    requires AllParse(canon, a) && all == ToSet(Canons(canon, a))
    requires i < |b| && AllParse(canon, b[..i]) && canon(b[i]).Some?
    requires canon(b[i]).value !in all - ToSet(Canons(canon, b[..i]))
    ensures !SameMembers(canon, a, b)
  {
    if AllParse(canon, b) {
      var key := canon(b[i]).value;
      assert Canons(canon, b)[i] == key;
      if key in all {
        var k :| 0 <= k < i && Canons(canon, b[..i])[k] == key;
        assert b[..i][k] == b[k];
        assert Canons(canon, b)[k] == key;
      }
    }
  }

  lemma SubsetOfSameSize<T>(a: set<T>, b: set<T>)
    requires a <= b && |a| == |b|
    ensures a == b
  {
    assert |b - a| == 0 by { assert b == a + (b - a); }
  }

  /** Comparison is transitive, and reflexive exactly on readable duplicate-free lists: it
      is a partial equivalence whose domain a caller can check. */
  lemma SameMembersPartialEquivalence(canon: string -> Option<string>, a: seq<string>, b: seq<string>, c: seq<string>)
    ensures SameMembers(canon, a, b) && SameMembers(canon, b, c) ==> SameMembers(canon, a, c)
    ensures SameMembers(canon, a, b) <==> SameMembers(canon, b, a)
    ensures SameMembers(canon, a, a) <==> AllParse(canon, a) && Distinct(Canons(canon, a))
    ensures SameMembers(canon, a, b) ==> |a| == |b|
  {
    if SameMembers(canon, a, b) { LengthsAgree(canon, a, b); }
  }

  // --- sort.Slice --------------------------------------------------------------------

  function Insert<T>(less: (T, T) -> bool, x: T, s: seq<T>): (r: seq<T>)
    ensures |r| == |s| + 1
  {
    if s == [] then [x]
    else if less(s[0], x) then [s[0]] + Insert(less, x, s[1..])
    else [x] + s
  }

  /** A sorted rearrangement of `s`; `sort.Slice` gives one too, and where no two elements
      are equal under the order there is only one. */
  function SortBy<T>(less: (T, T) -> bool, s: seq<T>): (r: seq<T>)
    ensures |r| == |s|
  {
    if s == [] then [] else Insert(less, s[0], SortBy(less, s[1..]))
  }

  ghost predicate Sorted<T(!new)>(less: (T, T) -> bool, s: seq<T>) {
    forall i, j :: 0 <= i < j < |s| ==> !less(s[j], s[i])
  }

  ghost predicate StrictWeakOrder<T(!new)>(less: (T, T) -> bool) {
    && (forall a, b :: less(a, b) ==> !less(b, a))
    && (forall a, b, c :: !less(b, a) && !less(c, b) ==> !less(c, a))
  }

  lemma {:induction false} InsertMultiset<T>(less: (T, T) -> bool, x: T, s: seq<T>)
    ensures multiset(Insert(less, x, s)) == multiset(s) + multiset{x}
  {
    if s != [] && less(s[0], x) {
      InsertMultiset(less, x, s[1..]);
      assert s == [s[0]] + s[1..];
    }
  }

  lemma {:induction false} SortMultiset<T>(less: (T, T) -> bool, s: seq<T>)
    ensures multiset(SortBy(less, s)) == multiset(s)
  {
    if s != [] {
      SortMultiset(less, s[1..]);
      InsertMultiset(less, s[0], SortBy(less, s[1..]));
      assert s == [s[0]] + s[1..];
    }
  }

  lemma {:induction false} InsertSorted<T(!new)>(less: (T, T) -> bool, x: T, s: seq<T>)
    requires StrictWeakOrder(less) && Sorted(less, s)
    ensures Sorted(less, Insert(less, x, s))
  {
    if s != [] && less(s[0], x) {
      var rest := Insert(less, x, s[1..]);
      InsertSorted(less, x, s[1..]);
      InsertMultiset(less, x, s[1..]);
      forall j | 0 <= j < |rest|
        ensures !less(rest[j], s[0])
      {
        assert rest[j] in multiset(rest);
        assert rest[j] == x || rest[j] in s[1..];
      }
    }
  }

  /** Sorting permutes the list and puts it in order. */
  lemma {:induction false} SortSorts<T(!new)>(less: (T, T) -> bool, s: seq<T>)
    requires StrictWeakOrder(less)
    ensures Sorted(less, SortBy(less, s)) && multiset(SortBy(less, s)) == multiset(s)
  {
    SortMultiset(less, s);
    if s != [] {
      SortSorts(less, s[1..]);
      InsertSorted(less, s[0], SortBy(less, s[1..]));
    }
  }

  /** An ordered list is left as it is. */
  lemma {:induction false} SortOfSorted<T(!new)>(less: (T, T) -> bool, s: seq<T>)
    requires Sorted(less, s)
    ensures SortBy(less, s) == s
  {
    if s != [] {
      SortOfSorted(less, s[1..]);
      assert s == [s[0]] + s[1..];
      assert |s| > 1 ==> !less(s[1], s[0]);
    }
  }

  lemma FirstIsLeast<T(!new)>(less: (T, T) -> bool, a: seq<T>, b: seq<T>)
    requires Sorted(less, a) && a != [] && b != [] && ToSet(a) == ToSet(b)
    ensures a[0] == b[0] || !less(b[0], a[0])
  {
    assert b[0] in ToSet(a);
    var j :| 0 <= j < |a| && a[j] == b[0];
  }

  lemma TailMultiset<T>(a: seq<T>)
    requires a != []
    ensures multiset(a[1..]) == multiset(a) - multiset{a[0]}
  {
    assert a == [a[0]] + a[1..];
  }

  lemma SortedTail<T(!new)>(less: (T, T) -> bool, a: seq<T>)
    requires a != [] && Sorted(less, a)
    ensures Sorted(less, a[1..])
  {
  }

  /** Under an order that tells all elements apart, a list has only one sorted rearrangement. */
  lemma {:induction false} SortedUnique<T(!new)>(less: (T, T) -> bool, a: seq<T>, b: seq<T>)
    requires forall x, y :: !less(x, y) && !less(y, x) ==> x == y
    requires Sorted(less, a) && Sorted(less, b) && multiset(a) == multiset(b)
    ensures a == b
    decreases |a|
  {
    SameElements(a, b);
    if a != [] {
      FirstIsLeast(less, a, b);
      FirstIsLeast(less, b, a);
      TailMultiset(a);
      TailMultiset(b);
      SortedTail(less, a);
      SortedTail(less, b);
      SortedUnique(less, a[1..], b[1..]);
      HeadTail(a);
      HeadTail(b);
    }
  }

  lemma SameElements<T>(a: seq<T>, b: seq<T>)
    requires multiset(a) == multiset(b)
    ensures ToSet(a) == ToSet(b) && |a| == |b|
    ensures Distinct(a) <==> Distinct(b)
  {
    forall x ensures x in a <==> x in b {
      assert x in a <==> x in multiset(a);
    }
    assert |a| == |multiset(a)| == |multiset(b)| == |b|;
    DistinctIffCardinality(a);
    DistinctIffCardinality(b);
  }
}
