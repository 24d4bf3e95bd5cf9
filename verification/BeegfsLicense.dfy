/**
 The license part of `pg addon beegfs license`: repeated log messages are shown once, with a
 count, in the order they first appeared.
 */
module BeegfsLicense {
  import opened Text
  import opened Lists
  import Notations
  import Peers

  // --- which lines, and what they say -------------------------------------------------------

  /** Lower case, as far as it can be seen in a search for a text of lower-case ASCII letters:
      besides A to Z only two characters become such a letter. */
  function LowerChar(c: char): char {
    if 'A' <= c <= 'Z' then (c as int + 32) as char
    else if c == '\U{0130}' then 'i'
    else if c == '\U{212A}' then 'k'
    else c
  }

  function ToLower(s: string): string {
    seq(|s|, i requires 0 <= i < |s| => LowerChar(s[i]))
  }

  /** `beegfsLicenseLogLine`. */
  predicate LicenseLine(line: string) {
    var l := ToLower(line);
    && Contains(l, "license")
    && (Contains(l, "error") || Contains(l, "warning") || Contains(line, "Successfully loaded license certificate"))
  }

  /** The message: the trimmed line without its leading "[...] " part. */
  function Message(line: string): string {
    var trimmed := TrimSpace(line);
    var i := Index(trimmed, "] ");
    if i >= 0 then trimmed[i + 2..] else trimmed
  }

  /** The text occurs somewhere. */
  ghost predicate Occurs(s: string, sub: string) {
    exists k :: 0 <= k <= |s| && HasPrefix(s[k..], sub)
  }

  /** The lower-case word stands at the position, in upper or lower case. */
  predicate WordAt(line: string, word: string, k: nat) {
    k + |word| <= |line| && forall i :: 0 <= i < |word| ==> LowerChar(line[k + i]) == word[i]
  }

  ghost predicate OccursAnyCase(line: string, word: string) {
    exists k: nat :: WordAt(line, word, k)
  }

  lemma ContainsMeans(s: string, sub: string)
    ensures Contains(s, sub) <==> Occurs(s, sub)
  {
    IndexMeans(s, sub);
  }

  lemma WordAtMeans(line: string, word: string, k: nat)
    requires k <= |line|
    ensures HasPrefix(ToLower(line)[k..], word) <==> WordAt(line, word, k)
  {
    var l := ToLower(line);
    if HasPrefix(l[k..], word) {
      forall i | 0 <= i < |word| ensures LowerChar(line[k + i]) == word[i] { assert l[k..][i] == word[i]; }
    }
    if WordAt(line, word, k) {
      assert l[k..][..|word|] == word;
    }
  }

  lemma AnyCaseMeans(line: string, word: string)
    ensures Contains(ToLower(line), word) <==> OccursAnyCase(line, word)
  {
    ContainsMeans(ToLower(line), word);
    if Occurs(ToLower(line), word) {
      var k :| 0 <= k <= |ToLower(line)| && HasPrefix(ToLower(line)[k..], word);
      WordAtMeans(line, word, k);
    }
    if k: nat :| WordAt(line, word, k) {
      WordAtMeans(line, word, k);
    }
  }

  /** The lines picked: those that name the license, in any case, together with an error or a warning,
      in any case, or with the certificate message as it is spelled. */
  lemma PickedExact(line: string)
    ensures LicenseLine(line) <==>
      && OccursAnyCase(line, "license")
      && (OccursAnyCase(line, "error") || OccursAnyCase(line, "warning") || Occurs(line, "Successfully loaded license certificate"))
  {
    AnyCaseMeans(line, "license");
    AnyCaseMeans(line, "error");
    AnyCaseMeans(line, "warning");
    ContainsMeans(line, "Successfully loaded license certificate");
  }

  /** A line "[stamp] text" says the text, whatever the stamp, so that lines that differ in their
      stamp are counted together; a line without "] " says itself. */
  lemma MessageDropsStamp(stamp: string, text: string)
    requires ']' !in stamp && text != "" && !IsSpace(text[|text| - 1])
    ensures Message("[" + stamp + "] " + text) == text
    ensures forall line :: !Occurs(TrimSpace(line), "] ") ==> Message(line) == TrimSpace(line)
  {
    var line := "[" + stamp + "] " + text;
    var i := |stamp| + 1;
    assert line[|line| - 1] == text[|text| - 1];
    Peers.TrimFixed(line);
    assert line[i..] == "] " + text;
    forall k | 0 <= k < i ensures !HasPrefix(line[k..], "] ") { assert line[k..][0] == line[k] != ']'; }
    IndexIs(line, "] ", i);
    assert line[i + 2..] == text;
    forall l | !Occurs(TrimSpace(l), "] ") ensures Message(l) == TrimSpace(l) { ContainsMeans(TrimSpace(l), "] "); }
  }

  // --- collapsing, for any choice of lines and messages -----------------------------------------

  datatype Report<K, V> = Report(order: seq<K>, count: map<K, nat>, full: map<K, V>)

  function Messages<L, K>(lines: seq<L>, msg: L -> K): (r: seq<K>)
    ensures |r| == |lines| && forall i :: 0 <= i < |lines| ==> r[i] == msg(lines[i])
  {
    if lines == [] then [] else Messages(lines[..|lines| - 1], msg) + [msg(lines[|lines| - 1])]
  }

  /** Position of the first occurrence. */
  function First<T(==)>(s: seq<T>, x: T): (i: nat)
    requires x in s
    ensures i < |s| && s[i] == x && x !in s[..i]
  {
    if s[0] == x then 0
    else
      assert s == [s[0]] + s[1..];
      var j := First(s[1..], x);
      assert s[..j + 1] == [s[0]] + s[1..][..j];
      j + 1
  }

  lemma FirstIs<T>(s: seq<T>, x: T, i: nat)
    requires i < |s| && s[i] == x && x !in s[..i]
    ensures x in s && First(s, x) == i
  {
    var j := First(s, x);
    assert forall k :: 0 <= k < i ==> s[k] == s[..i][k];
    assert forall k :: 0 <= k < j ==> s[k] == s[..j][k];
  }

  lemma FirstBound<T>(s: seq<T>, i: nat)
    requires i < |s|
    ensures First(s, s[i]) <= i
  {
    var f := First(s, s[i]);
    assert forall k :: 0 <= k < f ==> s[k] == s[..f][k];
  }

  ghost predicate Counts<K>(count: map<K, nat>, said: seq<K>) {
    count.Keys == ToSet(said) && forall m :: m in count ==> count[m] == multiset(said)[m]
  }

  ghost predicate ShowsFirst<L, K, V>(full: map<K, V>, kept: seq<L>, said: seq<K>, show: L -> V)
    requires |said| == |kept|
  {
    full.Keys == ToSet(said) && forall m :: m in full ==> m in said && full[m] == show(kept[First(said, m)])
  }

  /** What a report must say about lines and what each of them says. */
  ghost predicate Reports<L, K, V>(r: Report<K, V>, kept: seq<L>, said: seq<K>, show: L -> V)
    requires |said| == |kept|
  {
    r.order == Notations.Dedup(said) && Counts(r.count, said) && ShowsFirst(r.full, kept, said, show)
  }

  ghost predicate Faithful<L, K, V>(r: Report<K, V>, kept: seq<L>, msg: L -> K, show: L -> V) {
    Reports(r, kept, Messages(kept, msg), show)
  }

  lemma FirstStays<T>(s: seq<T>, x: T, y: T)
    requires x in s
    ensures x in s + [y] && First(s + [y], x) == First(s, x)
  {
    var i := First(s, x);
    assert (s + [y])[..i] == s[..i] && (s + [y])[i] == x;
    FirstIs(s + [y], x, i);
  }

  lemma FirstIsLast<T>(s: seq<T>, y: T)
    requires y !in s
    ensures y in s + [y] && First(s + [y], y) == |s|
  {
    assert (s + [y])[..|s|] == s;
    FirstIs(s + [y], y, |s|);
  }

  lemma DedupSnoc<T>(s: seq<T>, y: T)
    ensures Notations.Dedup(s + [y]) == Notations.Dedup(s) + if y in s then [] else [y]
  {
    assert (s + [y])[..|s|] == s;
    assert y in Notations.Dedup(s) <==> y in ToSet(s);
  }

  lemma CountsNext<K>(count: map<K, nat>, said: seq<K>, m: K)
    requires Counts(count, said)
    ensures Counts(count[m := if m in count then count[m] + 1 else 1], said + [m])
  {
    ToSetSnoc(said, m);
    assert multiset(said + [m]) == multiset(said) + multiset{m};
    assert m in said <==> m in ToSet(said);
  }

  lemma ShownAgain<L, K, V>(full: map<K, V>, kept: seq<L>, said: seq<K>, show: L -> V, line: L, m: K)
    requires |said| == |kept| && ShowsFirst(full, kept, said, show) && m in said
    ensures ShowsFirst(full, kept + [line], said + [m], show)
  {
    ToSetSnoc(said, m);
    assert m in ToSet(said) && ToSet(said) + {m} == ToSet(said);
    forall k | k in full
      ensures k in said + [m] && full[k] == show((kept + [line])[First(said + [m], k)])
    {
      FirstStays(said, k, m);
    }
  }

  lemma ShownFirst<L, K, V>(full: map<K, V>, kept: seq<L>, said: seq<K>, show: L -> V, line: L, m: K)
    requires |said| == |kept| && ShowsFirst(full, kept, said, show) && m !in said
    ensures ShowsFirst(full[m := show(line)], kept + [line], said + [m], show)
  {
    ToSetSnoc(said, m);
    FirstIsLast(said, m);
    forall k | k in said
      ensures First(said + [m], k) == First(said, k)
    {
      FirstStays(said, k, m);
    }
  }

  lemma SeenAgain<L, K, V>(r: Report<K, V>, kept: seq<L>, said: seq<K>, show: L -> V, line: L, m: K)
    requires |said| == |kept| && Reports(r, kept, said, show) && m in r.count
    ensures Reports(r.(count := r.count[m := r.count[m] + 1]), kept + [line], said + [m], show)
  {
    assert m in ToSet(said) && m in said;
    DedupSnoc(said, m);
    CountsNext(r.count, said, m);
    ShownAgain(r.full, kept, said, show, line, m);
  }

  lemma SeenFirst<L, K, V>(r: Report<K, V>, kept: seq<L>, said: seq<K>, show: L -> V, line: L, m: K)
    requires |said| == |kept| && Reports(r, kept, said, show) && m !in r.count
    ensures Reports(Report(r.order + [m], r.count[m := 1], r.full[m := show(line)]), kept + [line], said + [m], show)
  {
    assert m !in ToSet(said) && m !in said;
    DedupSnoc(said, m);
    CountsNext(r.count, said, m);
    ShownFirst(r.full, kept, said, show, line, m);
  }

  lemma MessagesNext<L, K>(kept: seq<L>, line: L, msg: L -> K)
    ensures Messages(kept + [line], msg) == Messages(kept, msg) + [msg(line)]
  {
    assert (kept + [line])[..|kept|] == kept;
  }

  /** The loop: `order`, `count` and `full` grow line by line. */
  method Collapse<L(==), K(==), V>(lines: seq<L>, keep: L -> bool, msg: L -> K, show: L -> V) returns (r: Report<K, V>)
    ensures Faithful(r, Filter(lines, keep), msg, show)
  {
    r := Report([], map[], map[]);
    for i := 0 to |lines|
      invariant Faithful(r, Filter(lines[..i], keep), msg, show)
    {
      TakeNext(lines, i);
      FilterSnoc(lines[..i], lines[i], keep);
      if !keep(lines[i]) { continue; }
      var key := msg(lines[i]);
      ghost var kept := Filter(lines[..i], keep);
      MessagesNext(kept, lines[i], msg);
      if key !in r.count {
        SeenFirst(r, kept, Messages(kept, msg), show, lines[i], key);
        r := Report(r.order + [key], r.count[key := 1], r.full[key := show(lines[i])]);
      } else {
        SeenAgain(r, kept, Messages(kept, msg), show, lines[i], key);
        r := r.(count := r.count[key := r.count[key] + 1]);
      }
    }
    TakeAll(lines);
  }

  /** The command's report on a log text. */
  method LicenseReport(logs: string) returns (r: Report<string, string>)
    ensures Faithful(r, Filter(Split(logs, '\n'), (l: string) => LicenseLine(l)), (l: string) => Message(l), (l: string) => TrimSpace(l))
  {
    r := Collapse(Split(logs, '\n'), (l: string) => LicenseLine(l), (l: string) => Message(l), (l: string) => TrimSpace(l));
  }

  // --- what a faithful report means ----------------------------------------------------------------

  function Sum<K(==)>(order: seq<K>, count: map<K, nat>): nat
    requires forall m :: m in order ==> m in count
  {
    if order == [] then 0
    else
      assert order[|order| - 1] in order;
      Sum(order[..|order| - 1], count) + count[order[|order| - 1]]
  }

  function Counted<T(==)>(d: seq<T>, s: seq<T>): nat {
    if d == [] then 0 else Counted(d[..|d| - 1], s) + multiset(s)[d[|d| - 1]]
  }

  lemma {:induction false} CountedNext<T>(d: seq<T>, s: seq<T>, x: T)
    ensures Counted(d, s + [x]) == Counted(d, s) + multiset(d)[x]
  {
    if d != [] {
      CountedNext(d[..|d| - 1], s, x);
      assert d == d[..|d| - 1] + [d[|d| - 1]];
    }
  }

  lemma {:induction false} CountedDedup<T>(s: seq<T>)
    ensures Counted(Notations.Dedup(s), s) == |s|
  {
    if s != [] {
      var init, x := s[..|s| - 1], s[|s| - 1];
      assert s == init + [x];
      CountedDedup(init);
      var d := Notations.Dedup(init);
      DedupSnoc(init, x);
      CountedNext(d, init, x);
      DistinctToSetMultiset(d);
      if x in init {
        assert x in ToSet(init);
        assert multiset(d)[x] == 1;
        assert d + [] == d;
      } else {
        assert x !in ToSet(d) && multiset(d)[x] == 0;
        assert (d + [x])[..|d|] == d;
        assert multiset(s)[x] == 1;
      }
    }
  }

  lemma {:induction false} SumIsCounted<K>(order: seq<K>, count: map<K, nat>, said: seq<K>)
    requires forall m :: m in order ==> m in count && count[m] == multiset(said)[m]
    ensures Sum(order, count) == Counted(order, said)
  {
    if order != [] {
      assert order[|order| - 1] in order;
      SumIsCounted(order[..|order| - 1], count, said);
    }
  }

  lemma {:induction false} DedupByFirst<T>(s: seq<T>, i: nat, j: nat)
    requires i < j < |Notations.Dedup(s)|
    ensures Notations.Dedup(s)[i] in s && Notations.Dedup(s)[j] in s
    ensures First(s, Notations.Dedup(s)[i]) < First(s, Notations.Dedup(s)[j])
  {
    var init, x := s[..|s| - 1], s[|s| - 1];
    assert s == init + [x];
    var d := Notations.Dedup(init);
    DedupSnoc(init, x);
    assert d[i] in ToSet(d);
    FirstStays(init, d[i], x);
    if j < |d| {
      assert d[j] in ToSet(d);
      FirstStays(init, d[j], x);
      DedupByFirst(init, i, j);
    } else {
      FirstIsLast(init, x);
    }
  }

  /** Nothing is lost or invented: the counts add up to the number of license lines, messages
      are listed once and in the order they first appeared, and each is shown by its earliest
      line. */
  lemma ReportConserves<L, K, V>(r: Report<K, V>, kept: seq<L>, msg: L -> K, show: L -> V)
    requires Faithful(r, kept, msg, show)
    ensures (forall m :: m in r.order <==> m in r.count) && Sum(r.order, r.count) == |kept|
    ensures Distinct(r.order)
    ensures var said := Messages(kept, msg);
            forall i, j :: 0 <= i < j < |r.order| ==>
              r.order[i] in said && r.order[j] in said && First(said, r.order[i]) < First(said, r.order[j])
    ensures forall i :: 0 <= i < |kept| ==>
              && msg(kept[i]) in r.full
              && First(Messages(kept, msg), msg(kept[i])) <= i
              && r.full[msg(kept[i])] == show(kept[First(Messages(kept, msg), msg(kept[i]))])
  {
    var said := Messages(kept, msg);
    forall m ensures m in r.order <==> m in r.count { assert m in r.order <==> m in ToSet(r.order); }
    SumIsCounted(r.order, r.count, said);
    CountedDedup(said);
    forall i, j | 0 <= i < j < |r.order|
      ensures r.order[i] in said && r.order[j] in said && First(said, r.order[i]) < First(said, r.order[j])
    {
      DedupByFirst(said, i, j);
    }
    forall i | 0 <= i < |kept|
      ensures msg(kept[i]) in r.full && First(said, msg(kept[i])) <= i
    {
      assert said[i] == msg(kept[i]) && said[i] in ToSet(said);
      FirstBound(said, i);
    }
  }
}
