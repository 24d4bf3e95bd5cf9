/**
 The majority arithmetic of the Keeper addon: what the n/2+1 test guarantees, why the help text
 advises an odd number of members, and when removing a member is warned about.
 */
module Quorum {
  import opened Text
  import opened Lists

  function Majority(n: nat): nat {
    n / 2 + 1
  }

  /** How many members may fail while a majority remains. */
  function Tolerated(n: nat): nat {
    if n < Majority(n) then 0 else n - Majority(n)
  }

  lemma IntersectionSize<T>(u: set<T>, a: set<T>, b: set<T>)
    requires a <= u && b <= u
    ensures |a| + |b| <= |u| + |a * b|
  {
    assert |a + b| == |a| + |b| - |a * b|;
    SubsetSize(a + b, u);
  }

  function Range(lo: nat, hi: nat): (r: set<nat>)
    requires lo <= hi
    ensures |r| == hi - lo && forall i :: i in r <==> lo <= i < hi
  {
    if lo == hi then {} else Range(lo, hi - 1) + {hi - 1}
  }

  /** Any two groups that meet the test share a member, whatever the n members are. */
  lemma MajoritiesIntersect<T>(u: set<T>, a: set<T>, b: set<T>)
    requires a <= u && b <= u && |a| >= Majority(|u|) && |b| >= Majority(|u|)
    ensures a * b != {}
  {
    IntersectionSize(u, a, b);
  }

  /** The test is no stricter than it must be: among n members, groups of any smaller size
      can be disjoint. */
  lemma MajorityIsLeast(n: nat, q: nat)
    requires q < Majority(n)
    ensures exists a, b :: a <= Range(0, n) && b <= Range(0, n) && |a| == q && |b| == q && a * b == {}
  {
    var a, b := Range(0, q), Range(q, 2 * q);
    assert a <= Range(0, n) && b <= Range(0, n) && a * b == {};
  }

  /** Adding one member to an odd cluster tolerates no more failures, to an even one one more. */
  lemma OddMembersSuffice(n: nat)
    requires n >= 1
    ensures n % 2 == 1 ==> Tolerated(n + 1) == Tolerated(n)
    ensures n % 2 == 0 ==> Tolerated(n + 1) == Tolerated(n) + 1
    ensures Tolerated(3) == 1 && Tolerated(5) == 2
  {
  }

  /** The test in `runAddonRemoveClickHouseKeeper`, made only when there is more than one voter. */
  predicate RemovalWarns(voters: nat) {
    voters > 1 && voters - 1 < Majority(voters)
  }

  /** The warning is given for the two-member cluster and for no other; everywhere else the
      members that remain are still a majority of the old cluster. */
  lemma RemovalWarnsExactlyAtTwo(voters: nat)
    ensures RemovalWarns(voters) <==> voters == 2
    ensures voters > 1 ==> (RemovalWarns(voters) <==> Tolerated(voters) == 0)
  {
  }

  function Reachable<T(==)>(endpoints: seq<T>, up: T -> bool): set<T> {
    set e | e in endpoints && up(e)
  }

  /** The reachability count of `runAddonClickHouseClusterStatus` over its de-duplicated endpoints. */
  method ReachesQuorum<T(==)>(endpoints: seq<T>, up: T -> bool) returns (ok: bool)
    requires Distinct(endpoints)
    ensures ok <==> |Reachable(endpoints, up)| >= Majority(|endpoints|)
  {
    var reachable := 0;
    for i := 0 to |endpoints|
      invariant reachable == |Reachable(endpoints[..i], up)|
    {
      assert endpoints[..i + 1] == endpoints[..i] + [endpoints[i]];
      if up(endpoints[i]) {
        assert Reachable(endpoints[..i + 1], up) == Reachable(endpoints[..i], up) + {endpoints[i]};
        reachable := reachable + 1;
      } else {
        assert Reachable(endpoints[..i + 1], up) == Reachable(endpoints[..i], up);
      }
    }
    assert endpoints[..|endpoints|] == endpoints;
    ok := !(reachable < Majority(|endpoints|));
  }

  /** Two status reports of a reachable quorum, taken at different times, have seen a common
      endpoint. */
  lemma ReportsOverlap<T>(endpoints: seq<T>, before: T -> bool, after: T -> bool)
    requires Distinct(endpoints)
    requires |Reachable(endpoints, before)| >= Majority(|endpoints|)
    requires |Reachable(endpoints, after)| >= Majority(|endpoints|)
    ensures exists e :: e in endpoints && before(e) && after(e)
  {
    DistinctIffCardinality(endpoints);
    MajoritiesIntersect(ToSet(endpoints), Reachable(endpoints, before), Reachable(endpoints, after));
    var e :| e in Reachable(endpoints, before) * Reachable(endpoints, after);
  }
}
