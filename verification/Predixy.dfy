/**
 The Predixy addon's --backend values: a list of host:port entries, given in any number of
 comma-separated values.
 */
module Predixy {
  import opened Text
  import opened Lists
  import opened HostPort
  import Peers

  /** An entry the proxy can dial: host:port with a host and a port in range. */
  predicate Dialable(entry: string) {
    && entry != ""
    && SplitHostPort(entry).Some?
    && SplitHostPort(entry).value.host != ""
    && Peers.PortNumber(SplitHostPort(entry).value.port).Some?
  }

  function Trimmed(items: seq<string>): (r: seq<string>)
    ensures |r| == |items| && forall i :: 0 <= i < |items| ==> r[i] == TrimSpace(items[i])
  {
    if items == [] then [] else [TrimSpace(items[0])] + Trimmed(items[1..])
  }

  /** Every entry passes the test and none repeats an earlier one. */
  predicate Acceptable(test: string -> bool, entries: seq<string>) {
    entries == [] ||
    (var init, last := entries[..|entries| - 1], entries[|entries| - 1];
     Acceptable(test, init) && test(last) && last !in init)
  }

  lemma {:induction false} AcceptableMeans(test: string -> bool, entries: seq<string>)
    ensures Acceptable(test, entries) <==>
            Distinct(entries) && forall i :: 0 <= i < |entries| ==> test(entries[i])
  {
    if entries != [] {
      var init, last := entries[..|entries| - 1], entries[|entries| - 1];
      AcceptableMeans(test, init);
      assert entries == init + [last];
      if last in init {
        var k :| 0 <= k < |init| && init[k] == last;
        assert entries[k] == entries[|entries| - 1];
      }
    }
  }

  function Test(): string -> bool {
    (e: string) => Dialable(e)
  }

  /** The entries of all values, in order, when every one is dialable and none repeats. */
  function Backends(specs: seq<string>): (r: Option<seq<string>>) {
    var entries := Trimmed(SplitAll(specs, ','));
    if Acceptable(Test(), entries) then Some(entries) else None
  }

  lemma AcceptOne(test: string -> bool, entries: seq<string>, e: string)
    ensures Acceptable(test, entries + [e]) <==> Acceptable(test, entries) && test(e) && e !in entries
  {
    assert (entries + [e])[..|entries|] == entries;
  }

  lemma {:induction false} RefusedStays(test: string -> bool, entries: seq<string>, more: seq<string>)
    ensures Acceptable(test, entries + more) ==> Acceptable(test, entries)
    decreases |more|
  {
    if more == [] {
      assert entries + more == entries;
    } else {
      var init := more[..|more| - 1];
      assert (entries + more)[..|entries + more| - 1] == entries + init;
      RefusedStays(test, entries, init);
    }
  }

  lemma {:induction false} TrimmedAppend(a: seq<string>, b: seq<string>)
    ensures Trimmed(a + b) == Trimmed(a) + Trimmed(b)
  {
  }

  lemma {:induction false} SplitAllAppend(a: seq<string>, b: seq<string>)
    ensures SplitAll(a + b, ',') == SplitAll(a, ',') + SplitAll(b, ',')
  {
    if a == [] {
      assert a + b == b;
    } else {
      assert (a + b)[1..] == a[1..] + b;
      SplitAllAppend(a[1..], b);
    }
  }

  /** The entries of a list of values, cut anywhere. */
  lemma EntriesAppend(a: seq<string>, b: seq<string>)
    ensures Trimmed(SplitAll(a + b, ',')) == Trimmed(SplitAll(a, ',')) + Trimmed(SplitAll(b, ','))
  {
    SplitAllAppend(a, b);
    TrimmedAppend(SplitAll(a, ','), SplitAll(b, ','));
  }

  lemma SplitAllOne(spec: string)
    ensures SplitAll([spec], ',') == Split(spec, ',')
  {
    assert SplitAll([spec][1..], ',') == [];
  }

  /** The nested loops of `parsePredixyBackends`. */
  method ParsePredixyBackends(specs: seq<string>) returns (r: Option<seq<string>>)
    ensures r == Backends(specs)
  {
    var out: seq<string> := [];
    for i := 0 to |specs|
      invariant out == Trimmed(SplitAll(specs[..i], ',')) && Acceptable(Test(), out)
    {
      TakeNext(specs, i);
      EntriesAppend(specs[..i], [specs[i]]);
      SplitAllOne(specs[i]);
      var ok, next := AddEntries(Test(), out, Split(specs[i], ','));
      if !ok {
        EntriesAppend(specs[..i + 1], specs[i + 1..]);
        RefusedStays(Test(), Trimmed(SplitAll(specs[..i + 1], ',')), Trimmed(SplitAll(specs[i + 1..], ',')));
        return None;
      }
      out := next;
    }
    TakeAll(specs);
    r := Some(out);
  }

  /** The inner loop: the entries of one value, after those already taken. */
  method AddEntries(test: string -> bool, taken: seq<string>, items: seq<string>) returns (ok: bool, out: seq<string>)
    requires Acceptable(test, taken)
    ensures ok <==> Acceptable(test, taken + Trimmed(items))
    ensures ok ==> out == taken + Trimmed(items)
  {
    out := taken;
    var entries := Trimmed(items);
    for j := 0 to |entries|
      invariant out == taken + entries[..j] && Acceptable(test, out)
    {
      var entry := entries[j];
      TakeNext(entries, j);
      AppendAssoc(taken, entries[..j], [entry]);
      AcceptOne(test, out, entry);
      if !test(entry) || entry in out {
        AppendAssoc(taken, entries[..j + 1], entries[j + 1..]);
        RefusedStays(test, out + [entry], entries[j + 1..]);
        return false, out;
      }
      out := out + [entry];
    }
    TakeAll(entries);
    ok := true;
  }

  /** An accepted list is duplicate-free, in input order, and every entry is dialable. */
  lemma BackendsAreDistinct(specs: seq<string>)
    ensures Backends(specs).Some? <==>
              var entries := Trimmed(SplitAll(specs, ','));
              Distinct(entries) && forall i :: 0 <= i < |entries| ==> Dialable(entries[i])
    ensures Backends(specs).Some? ==> Backends(specs).value == Trimmed(SplitAll(specs, ','))
  {
    var entries := Trimmed(SplitAll(specs, ','));
    AcceptableMeans(Test(), entries);
    assert forall i :: 0 <= i < |entries| ==> Test()(entries[i]) == Dialable(entries[i]);
  }

  /** Success and result depend only on the comma-joined text: how the entries are grouped
      into values does not matter. */
  lemma GroupingDoesNotMatter(a: seq<string>, b: seq<string>)
    requires a != [] && b != [] && Join(a, ',') == Join(b, ',')
    ensures Backends(a) == Backends(b) == Backends([Join(a, ',')])
  {
    SplitOfJoinAll(a, ',');
    SplitOfJoinAll(b, ',');
    SplitOfJoinAll([Join(a, ',')], ',');
  }

  /** Only for non-empty lists: no value at all is accepted, one empty value is not. */
  lemma EmptyListDiffers()
    ensures Join([], ',') == Join([""], ',')
    ensures Backends([]) == Some([]) && Backends([""]) == None
  {
    assert SplitAll([""], ',') == [""];
    assert Trimmed([""])[0] == "" && !Test()("");
  }

  /** A decimal number from 1 to 65535, with an optional sign. */
  predicate InPortRange(port: string) {
    Atoi(port).Some? && 1 <= Atoi(port).value <= 65535
  }

  /** An entry is dialable if and only if it is written host:port or [host]:port, with a host and a
      port from 1 to 65535. */
  lemma DialableExact(entry: string)
    ensures Dialable(entry) <==> exists host, port :: Joined(entry, host, port) && host != "" && InPortRange(port)
  {
    if Dialable(entry) {
      var hp := SplitHostPort(entry).value;
      SplitExact(entry, hp.host, hp.port);
      assert Joined(entry, hp.host, hp.port) && hp.host != "" && InPortRange(hp.port);
    }
    if host, port :| Joined(entry, host, port) && host != "" && InPortRange(port) {
      SplitExact(entry, host, port);
    }
  }

  /** So every printed address is, and the parser takes it as it is. */
  lemma PrintedIsDialable(host: string, port: nat)
    requires host != "" && PlainHost(host) && 1 <= port <= 65535
    ensures Dialable(JoinHostPort(host, Itoa(port)))
  {
    Peers.DigitsArePlain(Itoa(port));
    SplitOfJoinHostPort(host, Itoa(port));
    Peers.PortOfItoa(port);
  }
}
