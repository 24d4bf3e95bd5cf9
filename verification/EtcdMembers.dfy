/**
 The textual member list etcd is started with, and reading it back out of the response to
 `etcdctl member add`.
 */
module EtcdMembers {
  import opened Text
  import opened Lists

  /** A member's name and advertised peer URL. */
  datatype Member = Member(name: string, url: string)

  function Assignment(m: Member): string {
    m.name + "=" + m.url
  }

  function Assignments(ms: seq<Member>): (r: seq<string>)
    ensures |r| == |ms| && forall i :: 0 <= i < |ms| ==> r[i] == Assignment(ms[i])
  {
    if ms == [] then [] else [Assignment(ms[0])] + Assignments(ms[1..])
  }

  function NameLess(): (Member, Member) -> bool {
    (a: Member, b: Member) => Less(a.name, b.name)
  }

  datatype Bootstrap = Bootstrap(initialCluster: string, state: string)

  /** `bootstrapCluster`, given the peers as the install sorted them. */
  function BootstrapCluster(self: Member, peers: seq<Member>): Bootstrap {
    if peers == [] then Bootstrap(Assignment(self), "new")
    else Bootstrap(Join(Assignments(peers) + [Assignment(self)], ','), "existing")
  }

  predicate Plain(s: string) {
    ',' !in s && '"' !in s && '\n' !in s
  }

  predicate PlainMember(m: Member) {
    Plain(m.name) && Plain(m.url)
  }

  function ReadMember(piece: string): Member {
    Member(Cut(piece, '=').before, Cut(piece, '=').after)
  }

  /** A member list as etcd reads it: split at commas, then at the first '='. */
  function ReadMembers(text: string): seq<Member> {
    var pieces := Split(text, ',');
    seq(|pieces|, i requires 0 <= i < |pieces| => ReadMember(pieces[i]))
  }

  lemma NameOrder()
    ensures StrictWeakOrder(NameLess())
  {
    forall a: Member, b: Member
      ensures Less(a.name, b.name) ==> !Less(b.name, a.name)
    {
      LessTrichotomy(a.name, b.name);
    }
    forall a: Member, b: Member, c: Member | !Less(b.name, a.name) && !Less(c.name, b.name)
      ensures !Less(c.name, a.name)
    {
      LessTrichotomy(a.name, b.name);
      LessTrichotomy(b.name, c.name);
      LessTrichotomy(a.name, c.name);
      if Less(a.name, b.name) && Less(b.name, c.name) { LessTransitive(a.name, b.name, c.name); }
    }
  }

  lemma PlainAssignment(m: Member)
    requires PlainMember(m)
    ensures Plain(Assignment(m))
  {
  }

  /** Splitting the bootstrap string yields every peer once, in name order, and then this
      member; the state is "new" exactly when there are no peers. */
  lemma BootstrapSplits(self: Member, peers: seq<Member>)
    requires PlainMember(self) && forall p :: p in peers ==> PlainMember(p)
    ensures var sorted := SortBy(NameLess(), peers);
            var b := BootstrapCluster(self, sorted);
            && Split(b.initialCluster, ',') == Assignments(sorted) + [Assignment(self)]
            && (b.state == "new" <==> peers == []) && (b.state == "existing" <==> peers != [])
            && multiset(sorted) == multiset(peers) && Sorted(NameLess(), sorted)
            && '"' !in b.initialCluster && '\n' !in b.initialCluster
  {
    var sorted := SortBy(NameLess(), peers);
    NameOrder();
    SortSorts(NameLess(), peers);
    SameElements(sorted, peers);
    var pieces := Assignments(sorted) + [Assignment(self)];
    forall piece | piece in pieces
      ensures Plain(piece)
    {
      var i :| 0 <= i < |pieces| && pieces[i] == piece;
      if i < |sorted| {
        assert sorted[i] in ToSet(sorted);
        PlainAssignment(sorted[i]);
      } else {
        PlainAssignment(self);
      }
    }
    SplitOfJoin(pieces, ',');
    JoinStaysPlain(pieces);
    assert pieces[|sorted|] == Assignment(self);
    if sorted == [] { assert pieces == [Assignment(self)]; }
  }

  lemma {:induction false} JoinStaysPlain(pieces: seq<string>)
    requires forall p :: p in pieces ==> Plain(p)
    ensures '"' !in Join(pieces, ',') && '\n' !in Join(pieces, ',')
  {
    if |pieces| > 0 { assert pieces[0] in pieces; }
    if |pieces| > 1 { JoinStaysPlain(pieces[1..]); }
  }

  /** With names free of '=', reading the bootstrap string gives the members back. */
  lemma BootstrapRoundTrip(self: Member, peers: seq<Member>)
    requires PlainMember(self) && '=' !in self.name
    requires forall p :: p in peers ==> PlainMember(p) && '=' !in p.name
    ensures ReadMembers(BootstrapCluster(self, SortBy(NameLess(), peers)).initialCluster)
         == SortBy(NameLess(), peers) + [self]
  {
    var sorted := SortBy(NameLess(), peers);
    BootstrapSplits(self, peers);
    SameElements(sorted, peers);
    var all := sorted + [self];
    forall i | 0 <= i < |all|
      ensures ReadMember(Assignment(all[i])) == all[i]
    {
      assert i < |sorted| ==> sorted[i] in ToSet(sorted);
      AssignmentReadsBack(all[i]);
    }
    AssignmentsSnoc(sorted, self);
  }

  lemma AssignmentReadsBack(m: Member)
    requires '=' !in m.name
    ensures ReadMember(Assignment(m)) == m
  {
    CutAt(m.name, '=', m.url);
  }

  lemma AssignmentsSnoc(ms: seq<Member>, m: Member)
    ensures Assignments(ms + [m]) == Assignments(ms) + [Assignment(m)]
  {
  }

  // --- the response to `etcdctl member add` ----------------------------------------------

  const ASSIGN := "ETCD_INITIAL_CLUSTER="

  /** The text between the first `key` of a line and the next quote. */
  function ValueAfter(line: string, key: string): Option<string> {
    var i := Index(line, key);
    if i < 0 then None
    else
      var rest := line[i + |key|..];
      var j := IndexByte(rest, '"');
      if j < 0 then None else Some(rest[..j])
  }

  /** What one line contributes. */
  function LineValue(line: string): Option<string> {
    ValueAfter(line, ASSIGN + "\"")
  }

  function FirstValue(lines: seq<string>): Option<string> {
    if lines == [] then None
    else if LineValue(lines[0]).Some? then LineValue(lines[0])
    else FirstValue(lines[1..])
  }

  /** `parseInitialCluster`. */
  function ParseInitialCluster(out: string): Option<string> {
    FirstValue(Split(out, '\n'))
  }

  function QuotedLine(a: string, b: string): string {
    a + "\"" + b + "\""
  }

  predicate HasSuffix(s: string, suffix: string) {
    |suffix| <= |s| && s[|s| - |suffix|..] == suffix
  }

  /** The key's quote is its last character, so in a text it can only end at a quote. */
  lemma KeyEndsAtQuote(line: string, assign: string, k: nat)
    requires k <= |line| && HasPrefix(line[k..], assign + "\"")
    ensures k + |assign| < |line| && line[k + |assign|] == '"' && line[k..k + |assign|] == assign
  {
    assert line[k..][|assign|] == '"';
    assert line[k..k + |assign|] == line[k..][..|assign|] == (assign + "\"")[..|assign|];
  }

  lemma NoQuoteNoValue(line: string, assign: string)
    requires '"' !in line
    ensures ValueAfter(line, assign + "\"") == None
  {
    var key := assign + "\"";
    if Index(line, key) >= 0 {
      IndexMeans(line, key);
      KeyEndsAtQuote(line, assign, Index(line, key));
    }
  }

  lemma QuotesOf(a: string, b: string)
    requires '"' !in a && '"' !in b
    ensures var line := QuotedLine(a, b);
            forall k :: 0 <= k < |line| && line[k] == '"' ==> k == |a| || k == |line| - 1
  {
  }

  lemma FirstQuote(b: string)
    requires '"' !in b
    ensures IndexByte(b + "\"", '"') == |b|
  {
    CutAt(b, '"', "");
    assert b + "\"" == b + ['"'] + "";
  }

  lemma AssignedHere(a: string, assign: string, b: string)
    requires HasSuffix(a, assign)
    ensures HasPrefix(QuotedLine(a, b)[|a| - |assign|..], assign + "\"")
  {
    var i := |a| - |assign|;
    assert QuotedLine(a, b)[i..] == a[i..] + "\"" + (b + "\"");
  }

  lemma NotAssignedBefore(a: string, assign: string, b: string, k: nat)
    requires '"' !in a && '"' !in b && k + |assign| < |a|
    ensures !HasPrefix(QuotedLine(a, b)[k..], assign + "\"")
  {
    if HasPrefix(QuotedLine(a, b)[k..], assign + "\"") {
      KeyEndsAtQuote(QuotedLine(a, b), assign, k);
      QuotesOf(a, b);
    }
  }

  lemma AssignedAt(a: string, assign: string, b: string)
    requires '"' !in a && '"' !in b && HasSuffix(a, assign)
    ensures Index(QuotedLine(a, b), assign + "\"") == |a| - |assign|
  {
    AssignedHere(a, assign, b);
    forall k | 0 <= k < |a| - |assign|
      ensures !HasPrefix(QuotedLine(a, b)[k..], assign + "\"")
    {
      NotAssignedBefore(a, assign, b, k);
    }
    IndexIs(QuotedLine(a, b), assign + "\"", |a| - |assign|);
  }

  lemma AssignedValue(a: string, assign: string, b: string)
    requires '"' !in a && '"' !in b && HasSuffix(a, assign)
    ensures ValueAfter(QuotedLine(a, b), assign + "\"") == Some(b)
  {
    var line, key := QuotedLine(a, b), assign + "\"";
    AssignedAt(a, assign, b);
    assert line[|a| + 1..] == b + "\"";
    FirstQuote(b);
    assert (b + "\"")[..|b|] == b;
  }

  lemma UnassignedValue(a: string, assign: string, b: string)
    requires '"' !in a && '"' !in b && !HasSuffix(a, assign)
    ensures ValueAfter(QuotedLine(a, b), assign + "\"") == None
  {
    var line, key := QuotedLine(a, b), assign + "\"";
    var i := Index(line, key);
    if i >= 0 {
      IndexMeans(line, key);
      KeyEndsAtQuote(line, assign, i);
      QuotesOf(a, b);
      assert line[i + |key|..] == "";
    }
  }

  /** A line of the form a"b" holds a value exactly when a ends in the assignment, and the
      value is then b: nothing else in a or b is mistaken for the key. */
  lemma QuotedLineValue(a: string, b: string)
    requires '"' !in a && '"' !in b
    ensures LineValue(QuotedLine(a, b)) == if HasSuffix(a, ASSIGN) then Some(b) else None
  {
    var assign := ASSIGN;
    if HasSuffix(a, assign) { AssignedValue(a, assign, b); } else { UnassignedValue(a, assign, b); }
  }

  lemma {:induction false} FirstValueSkips(before: seq<string>, line: string, after: seq<string>)
    requires forall l :: l in before ==> LineValue(l).None?
    requires LineValue(line).Some?
    ensures FirstValue(before + [line] + after) == LineValue(line)
  {
    var lines := before + [line] + after;
    if before != [] {
      assert lines[0] == before[0] && lines[1..] == before[1..] + [line] + after;
      FirstValueSkips(before[1..], line, after);
    }
  }

  /** A line that is not the assignment: it has no quote, or it sets another variable. */
  ghost predicate Neighbour(line: string) {
    || '"' !in line
    || exists a, b :: line == QuotedLine(a, b) && '"' !in a && '"' !in b && !HasSuffix(a, ASSIGN)
  }

  /** The assignment is found wherever it stands among such lines. */
  lemma ParseFindsCluster(before: seq<string>, cluster: string, after: seq<string>)
    requires '"' !in cluster && '\n' !in cluster
    requires forall l :: l in before + after ==> '\n' !in l
    requires forall l :: l in before ==> Neighbour(l)
    ensures ParseInitialCluster(Join(before + [QuotedLine(ASSIGN, cluster)] + after, '\n')) == Some(cluster)
  {
    var line := QuotedLine(ASSIGN, cluster);
    var lines := before + [line] + after;
    assert Free(lines, '\n') by {
      forall l | l in lines ensures '\n' !in l {
        assert l == line || l in before + after;
      }
    }
    SplitOfJoin(lines, '\n');
    QuotedLineValue(ASSIGN, cluster);
    forall l | l in before
      ensures LineValue(l).None?
    {
      if '"' in l {
        var a, b :| l == QuotedLine(a, b) && '"' !in a && '"' !in b && !HasSuffix(a, ASSIGN);
        QuotedLineValue(a, b);
      } else {
        NoQuoteNoValue(l, ASSIGN);
      }
    }
    FirstValueSkips(before, line, after);
  }

  lemma SuffixLetter(s: string, suffix: string)
    requires |s| >= 2 && |suffix| >= 2 && s[|s| - 2] != suffix[|suffix| - 2]
    ensures !HasSuffix(s, suffix)
  {
    assert |suffix| <= |s| ==> s[|s| - |suffix|..][|suffix| - 2] == s[|s| - 2];
  }

  lemma OtherVariable(variable: string, value: string)
    requires '"' !in variable && '"' !in value && |variable| >= 2 && variable[|variable| - 2] != 'R'
    ensures Neighbour(QuotedLine(variable, value))
  {
    assert |ASSIGN| == 21 && ASSIGN[19] == 'R';
    SuffixLetter(variable, ASSIGN);
  }

  /** The lines around the assignment in a real response: the member's name (whatever its text)
      and the cluster state are not mistaken for it. */
  lemma RealNeighbours(name: string, state: string, urls: string)
    requires '"' !in name && '"' !in state && '"' !in urls
    ensures Neighbour(QuotedLine("ETCD_NAME=", name))
    ensures Neighbour(QuotedLine("ETCD_INITIAL_CLUSTER_STATE=", state))
    ensures Neighbour(QuotedLine("ETCD_INITIAL_ADVERTISE_PEER_URLS=", urls))
  {
    OtherVariable("ETCD_NAME=", name);
    OtherVariable("ETCD_INITIAL_CLUSTER_STATE=", state);
    OtherVariable("ETCD_INITIAL_ADVERTISE_PEER_URLS=", urls);
  }

  /** Parsing a response that holds the bootstrap string and splitting the result gives the
      members back: the whole path from the stored peers to the joining container. */
  lemma ResponseRoundTrip(before: seq<string>, self: Member, peers: seq<Member>, after: seq<string>)
    requires PlainMember(self) && '=' !in self.name
    requires forall p :: p in peers ==> PlainMember(p) && '=' !in p.name
    requires forall l :: l in before + after ==> '\n' !in l
    requires forall l :: l in before ==> Neighbour(l)
    ensures var sorted := SortBy(NameLess(), peers);
            var text := BootstrapCluster(self, sorted).initialCluster;
            var out := Join(before + [QuotedLine(ASSIGN, text)] + after, '\n');
            && ParseInitialCluster(out) == Some(text)
            && ReadMembers(ParseInitialCluster(out).value) == sorted + [self]
  {
    BootstrapSplits(self, peers);
    BootstrapRoundTrip(self, peers);
    ParseFindsCluster(before, BootstrapCluster(self, SortBy(NameLess(), peers)).initialCluster, after);
  }
}
