/**
 A notation is a way of writing list members as text: a reader that may reject and a printer.
 Reading, comparing and normalising a member list are defined once for every notation.
 */
module Notations {
  import opened Text
  import opened Lists

  datatype Notation<!P(==)> = Notation(parse: string -> Option<P>, print_: P -> string) {

    /** Printing what was read and reading it again gives the same member. */
    ghost predicate Lawful() {
      forall raw :: parse(raw).Some? ==> parse(print_(parse(raw).value)) == parse(raw)
    }

    /** The canonical spelling of a member. */
    function Canon(): string -> Option<string> {
      raw => match parse(raw) case None => None case Some(p) => Some(print_(p))
    }

    predicate Readable(a: seq<string>) {
      forall i :: 0 <= i < |a| ==> parse(a[i]).Some?
    }

    function ReadAll(a: seq<string>): (r: seq<P>)
      requires Readable(a)
      ensures |r| == |a| && forall i :: 0 <= i < |a| ==> r[i] == parse(a[i]).value
    {
      if a == [] then [] else [parse(a[0]).value] + ReadAll(a[1..])
    }

    function PrintAll(ps: seq<P>): (r: seq<string>)
      ensures |r| == |ps| && forall i :: 0 <= i < |ps| ==> r[i] == print_(ps[i])
    {
      if ps == [] then [] else [print_(ps[0])] + PrintAll(ps[1..])
    }

    /** The members a list denotes. */
    function Members(a: seq<string>): set<P>
      requires Readable(a)
    {
      ToSet(ReadAll(a))
    }

    /** Both lists are readable, neither repeats a member, and they denote the same set. */
    ghost predicate Agree(a: seq<string>, b: seq<string>) {
      && Readable(a) && Readable(b)
      && Distinct(ReadAll(a)) && Distinct(ReadAll(b))
      && Members(a) == Members(b)
    }

    lemma CanonsArePrinted(a: seq<string>)
      requires Readable(a)
      ensures AllParse(Canon(), a)
      ensures Canons(Canon(), a) == PrintAll(ReadAll(a))
    {
      forall i | 0 <= i < |a|
        ensures Canon()(a[i]) == Some(PrintAll(ReadAll(a))[i])
      {
      }
    }

    /** In a lawful notation two members that print alike are the same member. */
    lemma PrintInjective(a: seq<string>, i: nat, b: seq<string>, j: nat)
      requires Lawful() && Readable(a) && Readable(b) && i < |a| && j < |b|
      requires print_(ReadAll(a)[i]) == print_(ReadAll(b)[j])
      ensures ReadAll(a)[i] == ReadAll(b)[j]
    {
      assert parse(a[i]).Some? && parse(b[j]).Some?;
      assert parse(print_(parse(a[i]).value)) == parse(a[i]);
      assert parse(print_(parse(b[j]).value)) == parse(b[j]);
    }

    lemma DistinctPrinted(a: seq<string>)
      requires Lawful() && Readable(a)
      ensures Distinct(PrintAll(ReadAll(a))) <==> Distinct(ReadAll(a))
    {
      var ps := ReadAll(a);
      forall i, j | 0 <= i < j < |ps|
        ensures print_(ps[i]) == print_(ps[j]) <==> ps[i] == ps[j]
      {
        if print_(ps[i]) == print_(ps[j]) { PrintInjective(a, i, a, j); }
      }
      assert forall i :: 0 <= i < |ps| ==> PrintAll(ps)[i] == print_(ps[i]);
    }

    lemma MembersFromPrinted(a: seq<string>, b: seq<string>)
      requires Lawful() && Readable(a) && Readable(b)
      requires ToSet(PrintAll(ReadAll(a))) == ToSet(PrintAll(ReadAll(b)))
      ensures Members(a) <= Members(b)
    {
      forall p | p in Members(a)
        ensures p in Members(b)
      {
        var i :| 0 <= i < |a| && ReadAll(a)[i] == p;
        assert PrintAll(ReadAll(a))[i] in ToSet(PrintAll(ReadAll(b)));
        var j :| 0 <= j < |b| && PrintAll(ReadAll(b))[j] == print_(p);
        PrintInjective(a, i, b, j);
      }
    }

    /** The textual comparison of the source decides agreement on the members themselves. */
    lemma ComparisonDecidesAgreement(a: seq<string>, b: seq<string>)
      requires Lawful()
      ensures SameMembers(Canon(), a, b) <==> Agree(a, b)
    {
      if AllParse(Canon(), a) && AllParse(Canon(), b) {
        assert Readable(a) by { forall i | 0 <= i < |a| ensures parse(a[i]).Some? { assert Canon()(a[i]).Some?; } }
        assert Readable(b) by { forall i | 0 <= i < |b| ensures parse(b[i]).Some? { assert Canon()(b[i]).Some?; } }
      }
      if Readable(a) && Readable(b) {
        CanonsArePrinted(a);
        CanonsArePrinted(b);
        DistinctPrinted(a);
        DistinctPrinted(b);
        if SameMembers(Canon(), a, b) {
          MembersFromPrinted(a, b);
          MembersFromPrinted(b, a);
        }
        if Agree(a, b) {
          PrintedFromMembers(a, b);
          PrintedFromMembers(b, a);
        }
      }
    }

    lemma PrintedFromMembers(a: seq<string>, b: seq<string>)
      requires Readable(a) && Readable(b) && Members(a) == Members(b)
      ensures ToSet(PrintAll(ReadAll(a))) <= ToSet(PrintAll(ReadAll(b)))
    {
      forall t | t in ToSet(PrintAll(ReadAll(a)))
        ensures t in ToSet(PrintAll(ReadAll(b)))
      {
        var i :| 0 <= i < |a| && PrintAll(ReadAll(a))[i] == t;
        assert ReadAll(a)[i] in Members(b);
        var j :| 0 <= j < |b| && ReadAll(b)[j] == ReadAll(a)[i];
        assert PrintAll(ReadAll(b))[j] == t;
      }
    }

    /** The normal form of a list: its members in order, canonically spelled. */
    function Normal(less: (P, P) -> bool, a: seq<string>): (r: seq<string>)
      requires Readable(a)
    {
      PrintAll(SortBy(less, ReadAll(a)))
    }

    /** Reading printed members back: every member that was read from some list. */
    lemma {:induction false} ReadOfPrint(a: seq<string>, ps: seq<P>)
      requires Lawful() && Readable(a)
      requires forall p :: p in ps ==> p in ReadAll(a)
      ensures Readable(PrintAll(ps)) && ReadAll(PrintAll(ps)) == ps
    {
      forall k | 0 <= k < |ps|
        ensures parse(PrintAll(ps)[k]) == Some(ps[k])
      {
        assert ps[k] in ps;
        var i :| 0 <= i < |a| && ReadAll(a)[i] == ps[k];
        assert parse(a[i]) == Some(ps[k]);
      }
    }

    /** Normalising keeps the members: it only reorders and respells. */
    lemma NormalKeepsMembers(less: (P, P) -> bool, a: seq<string>)
      requires Lawful() && Readable(a)
      ensures Readable(Normal(less, a))
      ensures multiset(ReadAll(Normal(less, a))) == multiset(ReadAll(a))
      ensures Members(Normal(less, a)) == Members(a)
      ensures Distinct(ReadAll(Normal(less, a))) <==> Distinct(ReadAll(a))
      ensures |Normal(less, a)| == |a|
      ensures ReadAll(Normal(less, a)) == SortBy(less, ReadAll(a))
    {
      var ps := SortBy(less, ReadAll(a));
      SortMultiset(less, ReadAll(a));
      SameElements(ps, ReadAll(a));
      forall p | p in ps
        ensures p in ReadAll(a)
      {
        assert p in ToSet(ps);
      }
      ReadOfPrint(a, ps);
    }
  }

  /** `s` without later repeats of an element. */
  function Dedup<T(==)>(s: seq<T>): (r: seq<T>)
    ensures ToSet(r) == ToSet(s) && Distinct(r)
  {
    if s == [] then []
    else
      var rest, last := Dedup(s[..|s| - 1]), s[|s| - 1];
      assert s == s[..|s| - 1] + [last];
      assert last in rest <==> last in ToSet(rest);
      assert ToSet(s) == ToSet(s[..|s| - 1]) + {last};
      if last in rest then rest
      else
        assert ToSet(rest + [last]) == ToSet(rest) + {last};
        rest + [last]
  }

  lemma {:induction false} DedupOfDistinct<T>(s: seq<T>)
    requires Distinct(s)
    ensures Dedup(s) == s
  {
    if s != [] {
      DedupOfDistinct(s[..|s| - 1]);
      assert s == s[..|s| - 1] + [s[|s| - 1]];
    }
  }

  /** The normal form that also drops repeats. */
  function NormalSet<P>(n: Notation<P>, less: (P, P) -> bool, a: seq<string>): (r: seq<string>)
    requires n.Readable(a)
  {
    n.PrintAll(SortBy(less, Dedup(n.ReadAll(a))))
  }

  lemma NormalSetKeepsMembers<P>(n: Notation<P>, less: (P, P) -> bool, a: seq<string>)
    requires n.Lawful() && n.Readable(a)
    ensures n.Readable(NormalSet(n, less, a))
    ensures n.ReadAll(NormalSet(n, less, a)) == SortBy(less, Dedup(n.ReadAll(a)))
    ensures n.Members(NormalSet(n, less, a)) == n.Members(a)
    ensures Distinct(n.ReadAll(NormalSet(n, less, a)))
    ensures a != [] ==> NormalSet(n, less, a) != []
  {
    var ds := Dedup(n.ReadAll(a));
    var ps := SortBy(less, ds);
    SortMultiset(less, ds);
    SameElements(ps, ds);
    forall p | p in ps
      ensures p in n.ReadAll(a)
    {
      assert p in ToSet(ps);
    }
    n.ReadOfPrint(a, ps);
    if a != [] { assert n.ReadAll(a)[0] in ToSet(ds); }
  }

  lemma NormalSetIdempotent<P(!new)>(n: Notation<P>, less: (P, P) -> bool, a: seq<string>)
    requires n.Lawful() && n.Readable(a) && StrictWeakOrder(less)
    ensures n.Readable(NormalSet(n, less, a))
    ensures NormalSet(n, less, NormalSet(n, less, a)) == NormalSet(n, less, a)
  {
    NormalSetKeepsMembers(n, less, a);
    SortSorts(less, Dedup(n.ReadAll(a)));
    DedupOfDistinct(n.ReadAll(NormalSet(n, less, a)));
    SortOfSorted(less, SortBy(less, Dedup(n.ReadAll(a))));
  }

  /** Normalising twice is normalising once, so a stored list is stable. */
  lemma NormalIdempotent<P(!new)>(n: Notation<P>, less: (P, P) -> bool, a: seq<string>)
    requires n.Lawful() && n.Readable(a) && StrictWeakOrder(less)
    ensures n.Readable(n.Normal(less, a))
    ensures n.Normal(less, n.Normal(less, a)) == n.Normal(less, a)
  {
    n.NormalKeepsMembers(less, a);
    SortSorts(less, n.ReadAll(a));
    SortOfSorted(less, SortBy(less, n.ReadAll(a)));
  }

  /** A list of one member in canonical spelling is its own normal form. */
  lemma NormalOfOne<P>(n: Notation<P>, less: (P, P) -> bool, raw: string, p: P)
    requires n.parse(raw) == Some(p)
    ensures n.Readable([raw]) && n.ReadAll([raw]) == [p] && n.Normal(less, [raw]) == [n.print_(p)]
  {
    assert n.ReadAll([raw]) == [p];
    assert SortBy(less, [p]) == [p];
    assert n.PrintAll([p]) == [n.print_(p)];
  }
}
