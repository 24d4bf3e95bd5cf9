/**
 Whole runs of a command-line program: a state, a step for every command, and the rule that
 carries a fact about one step to every sequence of commands.
 */
module Runs {
  import opened Text

  // --- a map of named entries -------------------------------------------------------------

  function Stored<E>(c: map<string, E>, name: string): Option<E> {
    if name in c then Some(c[name]) else None
  }

  function Update<E>(c: map<string, E>, name: string, now: Option<E>): map<string, E> {
    match now
    case None => c - {name}
    case Some(e) => c[name := e]
  }

  /** What holds of every entry, and what holds of entry `n`, still does after an update that brings
      the like. */
  lemma UpdateHolds<E>(c: map<string, E>, name: string, now: Option<E>, ok: E -> bool, n: string, mine: E -> bool)
    requires (forall m :: m in c ==> ok(c[m])) && (now.Some? ==> ok(now.value))
    ensures forall m :: m in Update(c, name, now) ==> ok(Update(c, name, now)[m])
    ensures n in c && mine(c[n]) && (n == name ==> now.Some? && mine(now.value)) ==>
              n in Update(c, name, now) && mine(Update(c, name, now)[n])
  {
  }

  // --- runs ---------------------------------------------------------------------------------

  ghost function Run<S, E>(step: (S, E) -> S, s: S, evs: seq<E>): S
    decreases |evs|
  {
    if evs == [] then s else Run(step, step(s, evs[0]), evs[1..])
  }

  /** Every command of the run satisfies `ok` in the state it is given. */
  ghost predicate AllOk<S, E>(step: (S, E) -> S, ok: (S, E) -> bool, s: S, evs: seq<E>)
    decreases |evs|
  {
    evs == [] || (ok(s, evs[0]) && AllOk(step, ok, step(s, evs[0]), evs[1..]))
  }

  ghost predicate Preserved<S(!new), E(!new)>(step: (S, E) -> S, ok: (S, E) -> bool, inv: S -> bool) {
    forall s, e :: inv(s) && ok(s, e) ==> inv(step(s, e))
  }

  /** What every allowed step keeps, every allowed run keeps. */
  lemma {:induction false} RunKeeps<S(!new), E(!new)>(
      step: (S, E) -> S, ok: (S, E) -> bool, inv: S -> bool, s: S, evs: seq<E>)
    requires Preserved(step, ok, inv) && inv(s) && AllOk(step, ok, s, evs)
    ensures inv(Run(step, s, evs))
    decreases |evs|
  {
    if evs != [] {
      RunKeeps(step, ok, inv, step(s, evs[0]), evs[1..]);
    }
  }

  /** A condition that does not look at the state holds along a run when it holds of every
      command. */
  lemma {:induction false} AllOkFromEach<S, E>(step: (S, E) -> S, ok: (S, E) -> bool, s: S, evs: seq<E>, allowed: E -> bool)
    requires forall e :: e in evs ==> allowed(e)
    requires forall t, e :: allowed(e) ==> ok(t, e)
    ensures AllOk(step, ok, s, evs)
    decreases |evs|
  {
    if evs != [] {
      assert evs[0] in evs;
      AllOkFromEach(step, ok, step(s, evs[0]), evs[1..], allowed);
    }
  }

  /** A condition on the commands alone joins one that looks at the state. */
  lemma {:induction false} AllOkAnd<S, E>(step: (S, E) -> S, ok: (S, E) -> bool, each: E -> bool, both: (S, E) -> bool, s: S, evs: seq<E>)
    requires AllOk(step, ok, s, evs) && forall e :: e in evs ==> each(e)
    requires forall t, e :: ok(t, e) && each(e) ==> both(t, e)
    ensures AllOk(step, both, s, evs)
    decreases |evs|
  {
    if evs != [] {
      assert evs[0] in evs;
      AllOkAnd(step, ok, each, both, step(s, evs[0]), evs[1..]);
    }
  }

  // --- short runs, written out ---------------------------------------------------------------

  lemma RunCons<S, E>(step: (S, E) -> S, ok: (S, E) -> bool, s: S, e: E, evs: seq<E>)
    ensures Run(step, s, [e] + evs) == Run(step, step(s, e), evs)
    ensures AllOk(step, ok, s, [e] + evs) <==> ok(s, e) && AllOk(step, ok, step(s, e), evs)
  {
    assert ([e] + evs)[1..] == evs;
  }

  lemma {:induction false} RunAppend<S, E>(step: (S, E) -> S, ok: (S, E) -> bool, s: S, a: seq<E>, b: seq<E>)
    ensures Run(step, s, a + b) == Run(step, Run(step, s, a), b)
    ensures AllOk(step, ok, s, a + b) <==> AllOk(step, ok, s, a) && AllOk(step, ok, Run(step, s, a), b)
    decreases |a|
  {
    if a == [] {
      assert a + b == b;
    } else {
      RunAppend(step, ok, step(s, a[0]), a[1..], b);
      RunCons(step, ok, s, a[0], a[1..] + b);
      assert [a[0]] + (a[1..] + b) == a + b;
    }
  }

  lemma RunOfOne<S, E>(step: (S, E) -> S, ok: (S, E) -> bool, s: S, e: E)
    ensures Run(step, s, [e]) == step(s, e)
    ensures AllOk(step, ok, s, [e]) <==> ok(s, e)
  {
    RunCons(step, ok, s, e, []);
    assert [e] + [] == [e];
  }

  lemma RunOfTwo<S, E>(step: (S, E) -> S, ok: (S, E) -> bool, s: S, a: E, b: E)
    ensures Run(step, s, [a, b]) == step(step(s, a), b)
    ensures AllOk(step, ok, s, [a, b]) <==> ok(s, a) && ok(step(s, a), b)
  {
    RunCons(step, ok, s, a, [b]);
    RunOfOne(step, ok, step(s, a), b);
    assert [a] + [b] == [a, b];
  }

  lemma RunOfThree<S, E>(step: (S, E) -> S, ok: (S, E) -> bool, s: S, a: E, b: E, c: E)
    ensures Run(step, s, [a, b, c]) == step(step(step(s, a), b), c)
    ensures AllOk(step, ok, s, [a, b, c]) <==> ok(s, a) && ok(step(s, a), b) && ok(step(step(s, a), b), c)
  {
    RunCons(step, ok, s, a, [b, c]);
    RunOfTwo(step, ok, step(s, a), b, c);
    assert [a] + [b, c] == [a, b, c];
  }

  lemma RunOfFour<S, E>(step: (S, E) -> S, ok: (S, E) -> bool, s: S, a: E, b: E, c: E, d: E)
    ensures Run(step, s, [a, b, c, d]) == step(step(step(step(s, a), b), c), d)
    ensures AllOk(step, ok, s, [a, b, c, d]) <==>
              ok(s, a) && ok(step(s, a), b) && ok(step(step(s, a), b), c) && ok(step(step(step(s, a), b), c), d)
  {
    RunCons(step, ok, s, a, [b, c, d]);
    RunOfThree(step, ok, step(s, a), b, c, d);
    assert [a] + [b, c, d] == [a, b, c, d];
  }
}
