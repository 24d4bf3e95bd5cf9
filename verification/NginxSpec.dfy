/**
 The nginx addon's --backend specification: name=..,path=..,backend=.. or backends=h1,h2,..,
 parsed by an index loop in which a comma may separate fields or servers.
 */
module NginxSpec {
  import opened Text

  datatype Backend = Backend(name: string, path: string, servers: seq<string>)

  datatype Builder = Builder(backend: Backend, hasBackend: bool, hasBackends: bool)

  const EMPTY := Builder(Backend("", "", []), false, false)

  datatype Field = NameIs(v: string) | PathIs(v: string) | BackendIs(v: string) | BackendsAre(v: string, more: seq<string>)

  function Add(b: Builder, f: Field): Builder {
    match f
    case NameIs(v) => b.(backend := b.backend.(name := v))
    case PathIs(v) => b.(backend := b.backend.(path := v))
    case BackendIs(v) => b.(hasBackend := true, backend := b.backend.(servers := b.backend.servers + [v]))
    case BackendsAre(v, more) =>
      b.(hasBackends := true, backend := b.backend.(servers := b.backend.servers + [v] + more))
  }

  /** How many of the next parts are further servers: those without '='. */
  function Continuation(parts: seq<string>): (n: nat)
    ensures n <= |parts|
    ensures forall k :: 0 <= k < n ==> '=' !in parts[k]
    ensures n < |parts| ==> '=' in parts[n]
  {
    if parts == [] || '=' in parts[0] then 0 else 1 + Continuation(parts[1..])
  }

  /** The field that starts a non-empty list of parts. */
  function FirstField(parts: seq<string>): Option<Field>
    requires parts != []
  {
    var cut := Cut(parts[0], '=');
    if !cut.found then None
    else if cut.before == "name" then Some(NameIs(cut.after))
    else if cut.before == "path" then Some(PathIs(cut.after))
    else if cut.before == "backend" then Some(BackendIs(cut.after))
    else if cut.before == "backends" then Some(BackendsAre(cut.after, parts[1..1 + Continuation(parts[1..])]))
    else None
  }

  /** How many parts a field takes. */
  function Width(f: Field): (n: nat)
    ensures n >= 1
  {
    if f.BackendsAre? then 1 + |f.more| else 1
  }

  function ParseParts(parts: seq<string>, b: Builder): Option<Builder>
    decreases |parts|
  {
    if parts == [] then Some(b)
    else
      match FirstField(parts)
      case None => None
      case Some(f) => ParseParts(parts[Width(f)..], Add(b, f))
  }

  function Finish(b: Builder): Option<Backend> {
    if b.backend.name == "" || b.backend.path == "" || b.backend.servers == [] || (b.hasBackend && b.hasBackends)
    then None else Some(b.backend)
  }

  function ParseSpec(spec: string): Option<Backend> {
    match ParseParts(Split(spec, ','), EMPTY)
    case None => None
    case Some(b) => Finish(b)
  }

  lemma PartsFrom<T>(s: seq<T>, i: nat, m: nat, n: nat)
    requires i + m <= i + n <= |s|
    ensures s[i..][n..] == s[i + n..] && s[i..][m..n] == s[i + m..i + n]
  {
  }

  lemma ParseStep(here: seq<string>, b: Builder, f: Option<Field>, tail: seq<string>)
    requires here != [] && f == FirstField(here)
    requires f.Some? ==> Width(f.value) <= |here| && tail == here[Width(f.value)..]
    ensures ParseParts(here, b) == if f.None? then None else ParseParts(tail, Add(b, f.value))
  {
  }

  /** `parseNginxBackend`. */
  method ParseNginxBackend(spec: string) returns (r: Option<Backend>)
    ensures r == ParseSpec(spec)
  {
    var b := ReadFields(Split(spec, ','), EMPTY);
    if b.None? { return None; }
    r := Finish(b.value);
  }

  /** Its loop over the parts. */
  method ReadFields(parts: seq<string>, empty: Builder) returns (r: Option<Builder>)
    ensures r == ParseParts(parts, empty)
  {
    ghost var all := ParseParts(parts, empty);
    var b, i := empty, 0;
    PartsFrom(parts, 0, 0, 0);
    while i < |parts|
      invariant 0 <= i <= |parts|
      invariant ParseParts(parts[i..], b) == all
    {
      var ok;
      ok, b, i := TakeField(parts, i, b);
      if !ok { return None; }
    }
    r := Some(b);
  }

  method TakeField(parts: seq<string>, i: nat, b: Builder) returns (ok: bool, c: Builder, next: nat)
    requires i < |parts|
    ensures ok ==> i < next <= |parts| && ParseParts(parts[i..], b) == ParseParts(parts[next..], c)
    ensures !ok ==> ParseParts(parts[i..], b) == None
  {
    var f, j := ReadField(parts, i);
    ok, c, next := f.Some?, if f.Some? then Add(b, f.value) else b, j + 1;
    if ok { PartsFrom(parts, i, 0, Width(f.value)); }
    ParseStep(parts[i..], b, f, if ok then parts[next..] else []);
  }

  /** One turn of it: read the field at `i`; the servers that follow, up to `j`, belong to it. */
  method ReadField(parts: seq<string>, i: nat) returns (f: Option<Field>, j: nat)
    requires i < |parts|
    ensures f == FirstField(parts[i..])
    ensures f.Some? ==> j + 1 == i + Width(f.value) <= |parts|
  {
    var key, value, found := Cut(parts[i], '=').before, Cut(parts[i], '=').after, Cut(parts[i], '=').found;
    j := i;
    if !found { return None, j; }
    if key == "name" { return Some(NameIs(value)), j; }
    if key == "path" { return Some(PathIs(value)), j; }
    if key == "backend" { return Some(BackendIs(value)), j; }
    if key != "backends" { return None, j; }
    var servers;
    servers, j := ReadServers(parts, i);
    PartsFrom(parts, i, 1, j + 1 - i);
    PartsFrom(parts, i, 1, 1);
    f := Some(BackendsAre(value, servers));
  }

  /** The inner loop: take parts without '=' after position `i`; `j` is the last part taken. */
  method ReadServers(parts: seq<string>, i: nat) returns (servers: seq<string>, j: nat)
    requires i < |parts|
    ensures i <= j < |parts| && j == i + Continuation(parts[i + 1..]) && servers == parts[i + 1..j + 1]
  {
    servers, j := [], i;
    while j + 1 < |parts| && '=' !in parts[j + 1]
      invariant i <= j < |parts|
      invariant servers == parts[i + 1..j + 1]
      invariant j - i + Continuation(parts[j + 1..]) == Continuation(parts[i + 1..])
    {
      assert parts[j + 1..][1..] == parts[j + 2..];
      j := j + 1;
      servers := servers + [parts[j]];
    }
  }

  // --- printing -------------------------------------------------------------------------

  predicate Printable(f: Field) {
    && ',' !in f.v
    && (f.BackendsAre? ==> forall s :: s in f.more ==> ',' !in s && '=' !in s)
  }

  function Key(f: Field): string {
    match f
    case NameIs(_) => "name"
    case PathIs(_) => "path"
    case BackendIs(_) => "backend"
    case BackendsAre(_, _) => "backends"
  }

  function FieldParts(f: Field): (r: seq<string>)
    ensures |r| == Width(f)
  {
    [Key(f) + "=" + f.v] + if f.BackendsAre? then f.more else []
  }

  function Parts(fields: seq<Field>): seq<string> {
    if fields == [] then [] else FieldParts(fields[0]) + Parts(fields[1..])
  }

  function PrintSpec(fields: seq<Field>): string {
    Join(Parts(fields), ',')
  }

  function Collect(fields: seq<Field>, b: Builder): Builder
    decreases |fields|
  {
    if fields == [] then b else Collect(fields[1..], Add(b, fields[0]))
  }

  lemma KeyIsPlain(f: Field)
    ensures '=' !in Key(f) && ',' !in Key(f)
  {
  }

  lemma {:induction false} PartsFree(fields: seq<Field>)
    requires forall f :: f in fields ==> Printable(f)
    ensures Free(Parts(fields), ',')
  {
    if fields != [] {
      assert fields[0] in fields;
      KeyIsPlain(fields[0]);
      PartsFree(fields[1..]);
    }
  }

  lemma FirstPartHasKey(fields: seq<Field>)
    requires fields != []
    ensures Parts(fields) != [] && '=' in Parts(fields)[0]
  {
    assert Parts(fields)[0][|Key(fields[0])|] == '=';
  }

  /** The servers of a printed list end where the next field begins. */
  lemma {:induction false} ContinuationIsList(more: seq<string>, rest: seq<string>)
    requires forall s :: s in more ==> '=' !in s
    requires rest == [] || '=' in rest[0]
    ensures Continuation(more + rest) == |more|
  {
    if more == [] {
      assert more + rest == rest;
    } else {
      assert (more + rest)[1..] == more[1..] + rest && (more + rest)[0] == more[0];
      ContinuationIsList(more[1..], rest);
    }
  }

  /** A printed field is read back, whatever field follows it. */
  lemma FirstFieldOfPrinted(f: Field, rest: seq<string>)
    requires Printable(f) && (rest == [] || '=' in rest[0])
    ensures FirstField(FieldParts(f) + rest) == Some(f)
  {
    var parts := FieldParts(f) + rest;
    KeyIsPlain(f);
    CutAt(Key(f), '=', f.v);
    if f.BackendsAre? {
      assert parts[1..] == f.more + rest;
      ContinuationIsList(f.more, rest);
      assert parts[1..1 + |f.more|] == f.more;
    }
  }

  lemma {:induction false} ParsePrintedParts(fields: seq<Field>, b: Builder)
    requires forall f :: f in fields ==> Printable(f)
    ensures ParseParts(Parts(fields), b) == Some(Collect(fields, b))
    decreases |fields|
  {
    if fields != [] {
      var rest := Parts(fields[1..]);
      assert fields[0] in fields;
      if fields[1..] != [] { FirstPartHasKey(fields[1..]); }
      FirstFieldOfPrinted(fields[0], rest);
      assert Parts(fields)[Width(fields[0])..] == rest;
      ParsePrintedParts(fields[1..], Add(b, fields[0]));
    }
  }

  /** Parsing undoes printing for every list of fields, in any order and with any repeats. */
  lemma ParsePrintedSpec(fields: seq<Field>)
    requires fields != [] && forall f :: f in fields ==> Printable(f)
    ensures ParseSpec(PrintSpec(fields)) == Finish(Collect(fields, EMPTY))
  {
    PartsFree(fields);
    FirstPartHasKey(fields);
    SplitOfJoin(Parts(fields), ',');
    ParsePrintedParts(fields, EMPTY);
  }

  // --- key order and spelling do not matter ---------------------------------------------------

  function Servers(fields: seq<Field>): seq<string> {
    if fields == [] then []
    else (if fields[0].BackendIs? then [fields[0].v]
          else if fields[0].BackendsAre? then [fields[0].v] + fields[0].more else []) + Servers(fields[1..])
  }

  function LastName(fields: seq<Field>, name: string): string
    decreases |fields|
  {
    if fields == [] then name else LastName(fields[1..], if fields[0].NameIs? then fields[0].v else name)
  }

  function LastPath(fields: seq<Field>, path: string): string
    decreases |fields|
  {
    if fields == [] then path else LastPath(fields[1..], if fields[0].PathIs? then fields[0].v else path)
  }

  predicate HasSingle(fields: seq<Field>) {
    exists f :: f in fields && f.BackendIs?
  }

  predicate HasList(fields: seq<Field>) {
    exists f :: f in fields && f.BackendsAre?
  }

  lemma {:induction false} CollectTexts(fields: seq<Field>, b: Builder)
    ensures Collect(fields, b).backend.name == LastName(fields, b.backend.name)
    ensures Collect(fields, b).backend.path == LastPath(fields, b.backend.path)
    decreases |fields|
  {
    if fields != [] { CollectTexts(fields[1..], Add(b, fields[0])); }
  }

  lemma {:induction false} CollectServers(fields: seq<Field>, b: Builder)
    ensures Collect(fields, b).backend.servers == b.backend.servers + Servers(fields)
    decreases |fields|
  {
    if fields != [] { CollectServers(fields[1..], Add(b, fields[0])); }
  }

  lemma {:induction false} CollectSpellings(fields: seq<Field>, b: Builder)
    ensures Collect(fields, b).hasBackend == (b.hasBackend || HasSingle(fields))
    ensures Collect(fields, b).hasBackends == (b.hasBackends || HasList(fields))
    decreases |fields|
  {
    if fields != [] {
      CollectSpellings(fields[1..], Add(b, fields[0]));
      assert fields == [fields[0]] + fields[1..];
      assert HasSingle(fields) <==> fields[0].BackendIs? || HasSingle(fields[1..]);
      assert HasList(fields) <==> fields[0].BackendsAre? || HasList(fields[1..]);
    }
  }

  lemma CollectIs(fields: seq<Field>, b: Builder)
    ensures Collect(fields, b) ==
      Builder(Backend(LastName(fields, b.backend.name), LastPath(fields, b.backend.path), b.backend.servers + Servers(fields)),
              b.hasBackend || HasSingle(fields), b.hasBackends || HasList(fields))
  {
    CollectTexts(fields, b);
    CollectServers(fields, b);
    CollectSpellings(fields, b);
  }

  lemma {:induction false} OnlyName(fields: seq<Field>, init: string, name: string)
    requires forall f :: f in fields && f.NameIs? ==> f.v == name
    requires NameIs(name) in fields || init == name
    ensures LastName(fields, init) == name
    decreases |fields|
  {
    if fields != [] { OnlyName(fields[1..], if fields[0].NameIs? then fields[0].v else init, name); }
  }

  lemma {:induction false} OnlyPath(fields: seq<Field>, init: string, path: string)
    requires forall f :: f in fields && f.PathIs? ==> f.v == path
    requires PathIs(path) in fields || init == path
    ensures LastPath(fields, init) == path
    decreases |fields|
  {
    if fields != [] { OnlyPath(fields[1..], if fields[0].PathIs? then fields[0].v else init, path); }
  }

  /** Whatever order its keys come in, a specification that names one backend and its path
      parses to them and its servers, unless it lists no server or mixes the two spellings. */
  lemma AnyKeyOrder(fields: seq<Field>, name: string, path: string)
    requires forall f :: f in fields ==> Printable(f)
    requires forall f :: f in fields && f.NameIs? ==> f.v == name
    requires forall f :: f in fields && f.PathIs? ==> f.v == path
    requires NameIs(name) in fields && PathIs(path) in fields && name != "" && path != ""
    ensures ParseSpec(PrintSpec(fields)) ==
      if Servers(fields) == [] || (HasSingle(fields) && HasList(fields)) then None
      else Some(Backend(name, path, Servers(fields)))
  {
    ParsePrintedSpec(fields);
    CollectIs(fields, EMPTY);
    OnlyName(fields, "", name);
    OnlyPath(fields, "", path);
    assert [] + Servers(fields) == Servers(fields);
  }

  function Repeated(servers: seq<string>): (r: seq<Field>)
    ensures |r| == |servers| && forall i :: 0 <= i < |r| ==> r[i] == BackendIs(servers[i])
  {
    if servers == [] then [] else [BackendIs(servers[0])] + Repeated(servers[1..])
  }

  lemma {:induction false} RepeatedServers(servers: seq<string>)
    ensures Servers(Repeated(servers)) == servers
  {
    if servers != [] {
      RepeatedServers(servers[1..]);
      assert servers == [servers[0]] + servers[1..];
    }
  }

  lemma BackendsFirst(backends: seq<Field>, name: string, path: string)
    requires ',' !in name && ',' !in path && name != "" && path != ""
    requires forall f :: f in backends ==> Printable(f) && !f.NameIs? && !f.PathIs?
    requires Servers(backends) != [] && !(HasSingle(backends) && HasList(backends))
    ensures ParseSpec(PrintSpec(backends + [NameIs(name), PathIs(path)])) == Some(Backend(name, path, Servers(backends)))
  {
    var rest := [NameIs(name), PathIs(path)];
    var all := backends + rest;
    assert rest[0] == NameIs(name) && rest[1] == PathIs(path) && rest[0] in all && rest[1] in all;
    ServersThenRest(backends, rest);
    assert forall f :: f in all ==> f in backends || f == rest[0] || f == rest[1];
    AnyKeyOrder(all, name, path);
  }

  /** Repeating `backend=` for each server says the same as one `backends=` list. */
  lemma RepeatedIsList(name: string, path: string, first: string, more: seq<string>)
    requires ',' !in name && ',' !in path && ',' !in first && name != "" && path != ""
    requires forall s :: s in more ==> ',' !in s && '=' !in s
    ensures var rest := [NameIs(name), PathIs(path)];
            && ParseSpec(PrintSpec(Repeated([first] + more) + rest)) == Some(Backend(name, path, [first] + more))
            && ParseSpec(PrintSpec([BackendsAre(first, more)] + rest)) == Some(Backend(name, path, [first] + more))
  {
    var one, list := Repeated([first] + more), [BackendsAre(first, more)];
    RepeatedServers([first] + more);
    assert Servers(list) == [first] + more;
    assert forall s :: s in [first] + more ==> ',' !in s;
    BackendsFirst(one, name, path);
    BackendsFirst(list, name, path);
  }

  lemma {:induction false} ServersThenRest(a: seq<Field>, rest: seq<Field>)
    requires |rest| == 2 && rest[0].NameIs? && rest[1].PathIs?
    ensures Servers(a + rest) == Servers(a)
  {
    if a == [] {
      assert a + rest == rest && rest[1..][1..] == [];
    } else {
      assert (a + rest)[1..] == a[1..] + rest;
      ServersThenRest(a[1..], rest);
    }
  }
}
