/**
 The etcd addon: members of one cluster agree on TLS, on authentication and on credentials,
 through every sequence of installs, moves between clusters and removes.
 */
module Etcd {
  import opened Text
  import opened Runs

  const DEFAULT_CLUSTER := "pgcli-etcd"

  datatype Entry = Entry(cluster: string, tls: bool, auth: bool, user: string, password: string)

  const EMPTY_ENTRY := Entry("", false, false, "", "")

  /** `tls` is what --tls and the certificate flags ask for, `None` when none was passed. */
  datatype Flags = Flags(cluster: string, tls: Option<bool>, auth: Option<bool>, rootUser: Option<string>, password: Option<string>)

  type Addons = map<string, Entry>

  function Given(flag: Option<string>): string {
    if flag.Some? then flag.value else ""
  }

  predicate AuthMentioned(f: Flags) {
    f.auth.Some? || f.password.Some? || f.rootUser.Some?
  }

  function Existing(addons: Addons, name: string): Entry {
    if name in addons then addons[name] else EMPTY_ENTRY
  }

  function UseTls(addons: Addons, name: string, f: Flags): bool {
    if f.tls.Some? then f.tls.value else Existing(addons, name).tls
  }

  /** Passing a password or user implies authentication unless --auth says otherwise. */
  function AuthOn(addons: Addons, name: string, f: Flags): bool {
    if f.auth.Some? then f.auth.value
    else if AuthMentioned(f) then true
    else Existing(addons, name).auth
  }

  function ClusterOf(addons: Addons, name: string, f: Flags): string {
    if f.cluster != "" then f.cluster
    else if Existing(addons, name).cluster == "" then DEFAULT_CLUSTER
    else Existing(addons, name).cluster
  }

  predicate IsPeer(addons: Addons, name: string, cluster: string, n: string) {
    n in addons && n != name && addons[n].cluster == cluster
  }

  /** The credentials an install ends with; `from` is the authenticated peer it inherits from. */
  function Credentials(e: Entry, f: Flags, from: Option<Entry>, generated: string): (string, string) {
    var user0 := Given(f.rootUser);
    var user1 := if from.Some? && user0 == "" then from.value.user else user0;
    var pw0 := Given(f.password);
    var pw1 := if from.Some? && pw0 == "" && user1 == from.value.user then from.value.password else pw0;
    var user := if user1 != "" then user1 else if e.user == "" then "root" else e.user;
    var pw2 := if pw1 == "" then e.password else pw1;
    (user, if pw2 == "" then generated else pw2)
  }

  /** The peer whose credentials are inherited: any authenticated one, map order decides. */
  ghost predicate Inherits(addons: Addons, name: string, cluster: string, pick: Option<string>) {
    if pick.Some? then IsPeer(addons, name, cluster, pick.value) && addons[pick.value].auth
    else forall n :: IsPeer(addons, name, cluster, n) ==> !addons[n].auth
  }

  /** What the install meets: which peer is walked first, whether the member's data directory is
      initialised, a generated password, and whether everything else succeeds. */
  datatype World = World(pick: Option<string>, initialized: bool, generated: string, ok: bool)

  /** The entry an install saves, or `None` when it is refused. */
  ghost function Installed(addons: Addons, name: string, f: Flags, w: World): Option<Entry> {
    var e := Existing(addons, name);
    var cluster, tls, auth := ClusterOf(addons, name, f), UseTls(addons, name, f), AuthOn(addons, name, f);
    if exists n :: IsPeer(addons, name, cluster, n) && addons[n].auth != auth then None
    else if exists n :: IsPeer(addons, name, cluster, n) && addons[n].tls != tls then None
    else if name in addons && e.tls != tls && w.initialized then None
    else if !auth then Some(Entry(cluster, tls, false, "", ""))
    else
      var from := if w.pick.Some? && w.pick.value in addons then Some(addons[w.pick.value]) else None;
      var (user, password) := Credentials(e, f, from, w.generated);
      Some(Entry(cluster, tls, true, user, password))
  }

  datatype Event =
    | Install(name: string, flags: Flags, world: World)
    | Remove(name: string, ok: bool)

  /** The world respects the order of the walk and generates real passwords. */
  ghost predicate Possible(addons: Addons, ev: Event) {
    ev.Install? ==>
      && ev.world.generated != ""
      && (AuthOn(addons, ev.name, ev.flags) ==>
            Inherits(addons, ev.name, ClusterOf(addons, ev.name, ev.flags), ev.world.pick))
  }

  ghost function Step(addons: Addons, ev: Event): Addons {
    match ev
    case Install(name, f, w) =>
      var next := Installed(addons, name, f, w);
      if next.Some? && w.ok then addons[name := next.value] else addons
    case Remove(name, ok) => if ok then addons - {name} else addons
  }

  ghost function Steps(): (Addons, Event) -> Addons {
    (a, ev) => Step(a, ev)
  }

  // --- what every run keeps -------------------------------------------------------------

  predicate SameCluster(addons: Addons, m: string, n: string) {
    m in addons && n in addons && addons[m].cluster == addons[n].cluster
  }

  /** Authentication on means a user and a password, off means neither. */
  predicate Shaped(e: Entry) {
    && e.cluster != ""
    && if e.auth then e.user != "" && e.password != "" else e.user == "" && e.password == ""
  }

  ghost predicate Agreement(addons: Addons) {
    && (forall n :: n in addons ==> Shaped(addons[n]))
    && (forall m, n :: SameCluster(addons, m, n) ==>
          addons[m].tls == addons[n].tls && addons[m].auth == addons[n].auth)
  }

  lemma InstalledAgrees(addons: Addons, name: string, f: Flags, w: World)
    requires Agreement(addons) && Possible(addons, Install(name, f, w)) && Installed(addons, name, f, w).Some?
    ensures var e := Installed(addons, name, f, w).value;
            && Shaped(e) && e.cluster == ClusterOf(addons, name, f)
            && forall n :: IsPeer(addons, name, e.cluster, n) ==> addons[n].tls == e.tls && addons[n].auth == e.auth
  {
  }

  lemma StepAgreement(addons: Addons, ev: Event)
    requires Agreement(addons) && Possible(addons, ev)
    ensures Agreement(Step(addons, ev))
  {
    var t := Step(addons, ev);
    if ev.Install? && Installed(addons, ev.name, ev.flags, ev.world).Some? {
      InstalledAgrees(addons, ev.name, ev.flags, ev.world);
    }
    forall m, n | SameCluster(t, m, n)
      ensures t[m].tls == t[n].tls && t[m].auth == t[n].auth
    {
      if m == ev.name || n == ev.name {
        if ev.Install? && t[ev.name].cluster == ClusterOf(addons, ev.name, ev.flags) {
          assert m != ev.name ==> IsPeer(addons, ev.name, t[ev.name].cluster, m);
          assert n != ev.name ==> IsPeer(addons, ev.name, t[ev.name].cluster, n);
        }
      }
      if m in addons && n in addons && addons[m] == t[m] && addons[n] == t[n] { assert SameCluster(addons, m, n); }
    }
  }

  /** Members of one cluster agree on TLS and authentication after every run. */
  lemma RunKeepsAgreement(evs: seq<Event>)
    requires AllOk(Steps(), (a: Addons, ev: Event) => Possible(a, ev), map[], evs)
    ensures Agreement(Run(Steps(), map[], evs))
  {
    var ok := (a: Addons, ev: Event) => Possible(a, ev);
    forall a, ev | Agreement(a) && ok(a, ev)
      ensures Agreement(Steps()(a, ev))
    {
      StepAgreement(a, ev);
    }
    RunKeeps(Steps(), ok, a => Agreement(a), map[], evs);
  }

  // --- credentials ---------------------------------------------------------------------------

  ghost predicate OneCredential(addons: Addons) {
    forall m, n :: SameCluster(addons, m, n) ==>
      addons[m].user == addons[n].user && addons[m].password == addons[n].password
  }

  /** Flags that do not contradict the credentials of a peer. */
  predicate Compatible(f: Flags, peer: Entry) {
    (Given(f.rootUser) == "" || Given(f.rootUser) == peer.user) &&
    (Given(f.password) == "" || Given(f.password) == peer.password)
  }

  /** With authentication on and a peer in the cluster, the new entry has the peer's credentials
      exactly when the flags do not contradict them. */
  lemma InheritedExact(addons: Addons, name: string, f: Flags, w: World, n: string)
    requires Agreement(addons) && OneCredential(addons) && Possible(addons, Install(name, f, w))
    requires Installed(addons, name, f, w).Some?
    requires IsPeer(addons, name, ClusterOf(addons, name, f), n) && addons[n].auth
    ensures var e := Installed(addons, name, f, w).value;
            e.user == addons[n].user && e.password == addons[n].password <==> Compatible(f, addons[n])
  {
    InstalledAgrees(addons, name, f, w);
    var p := w.pick.value;
    assert SameCluster(addons, p, n);
  }

  /** Without a cluster peer, or with authentication off, there is nothing to contradict. */
  ghost predicate Keeps(addons: Addons, name: string, f: Flags) {
    AuthOn(addons, name, f) ==>
      forall n :: IsPeer(addons, name, ClusterOf(addons, name, f), n) ==> Compatible(f, addons[n])
  }

  /** A completed install keeps one credential pair per cluster exactly when its flags do not
      contradict a peer's. */
  lemma CredentialsExact(addons: Addons, name: string, f: Flags, w: World)
    requires Agreement(addons) && OneCredential(addons) && Possible(addons, Install(name, f, w))
    requires Installed(addons, name, f, w).Some? && w.ok
    ensures OneCredential(Step(addons, Install(name, f, w))) <==> Keeps(addons, name, f)
  {
    var e := Installed(addons, name, f, w).value;
    var t := Step(addons, Install(name, f, w));
    InstalledAgrees(addons, name, f, w);
    if Keeps(addons, name, f) {
      forall m | IsPeer(addons, name, e.cluster, m)
        ensures addons[m].user == e.user && addons[m].password == e.password
      {
        if e.auth { InheritedExact(addons, name, f, w, m); }
      }
      forall m, n | SameCluster(t, m, n)
        ensures t[m].user == t[n].user && t[m].password == t[n].password
      {
        if m != name && n != name { assert SameCluster(addons, m, n); }
        assert m != name && n == name ==> IsPeer(addons, name, e.cluster, m);
        assert n != name && m == name ==> IsPeer(addons, name, e.cluster, n);
      }
    } else {
      var n :| IsPeer(addons, name, e.cluster, n) && !Compatible(f, addons[n]);
      InheritedExact(addons, name, f, w, n);
      assert SameCluster(t, name, n);
    }
  }

  ghost predicate Settled(addons: Addons) {
    Agreement(addons) && OneCredential(addons)
  }

  ghost predicate Careful(addons: Addons, ev: Event) {
    Possible(addons, ev) && (ev.Install? ==> Keeps(addons, ev.name, ev.flags))
  }

  lemma StepSettled(addons: Addons, ev: Event)
    requires Settled(addons) && Careful(addons, ev)
    ensures Settled(Step(addons, ev))
  {
    StepAgreement(addons, ev);
    if ev.Install? {
      if Installed(addons, ev.name, ev.flags, ev.world).Some? && ev.world.ok {
        CredentialsExact(addons, ev.name, ev.flags, ev.world);
      }
    } else {
      var t := Step(addons, ev);
      forall m, n | SameCluster(t, m, n)
        ensures t[m].user == t[n].user && t[m].password == t[n].password
      {
        assert SameCluster(addons, m, n);
      }
    }
  }

  /** Runs whose flags never contradict a peer keep one credential pair per cluster; in
      particular runs that never pass a user or password to a member with peers. */
  lemma RunKeepsCredentials(evs: seq<Event>)
    requires AllOk(Steps(), (a: Addons, ev: Event) => Careful(a, ev), map[], evs)
    ensures Settled(Run(Steps(), map[], evs))
  {
    var ok := (a: Addons, ev: Event) => Careful(a, ev);
    forall a, ev | Settled(a) && ok(a, ev)
      ensures Settled(Steps()(a, ev))
    {
      StepSettled(a, ev);
    }
    RunKeeps(Steps(), ok, a => Settled(a), map[], evs);
  }

  lemma SilentFlagsKeep(addons: Addons, name: string, f: Flags)
    requires Given(f.rootUser) == "" && Given(f.password) == ""
    ensures Keeps(addons, name, f)
  {
  }

  const NO_FLAGS := Flags("", None, None, None, None)

  /** A run that needs it: two members with authentication, the second installed with another
      password; nothing refuses it, and the cluster has two passwords. */
  lemma ContradictionSplitsCluster(g: string)
    requires g != ""
    ensures var first := Install("a", NO_FLAGS.(password := Some("one")), World(None, false, g, true));
            var second := Install("b", NO_FLAGS.(password := Some("two")), World(Some("a"), false, g, true));
            var t := Run(Steps(), map[], [first, second]);
            && AllOk(Steps(), (a: Addons, ev: Event) => Possible(a, ev), map[], [first, second])
            && SameCluster(t, "a", "b") && t["a"].password == "one" && t["b"].password == "two"
  {
    var first := Install("a", NO_FLAGS.(password := Some("one")), World(None, false, g, true));
    var second := Install("b", NO_FLAGS.(password := Some("two")), World(Some("a"), false, g, true));
    var s1 := Step(map[], first);
    assert s1 == map["a" := Entry(DEFAULT_CLUSTER, false, true, "root", "one")];
    assert forall n :: IsPeer(s1, "b", DEFAULT_CLUSTER, n) ==> n == "a";
    assert Step(s1, second)["b"] == Entry(DEFAULT_CLUSTER, false, true, "root", "two");
    RunOfTwo(Steps(), (a: Addons, ev: Event) => Possible(a, ev), map[], first, second);
  }

  // --- the install code ----------------------------------------------------------------------------

  /** The members of the cluster other than `name`, in the order the map is walked. */
  method CollectPeers(addons: Addons, order: seq<string>, name: string, cluster: string) returns (peers: seq<string>)
    requires forall n :: n in order <==> n in addons
    ensures forall n :: n in peers <==> IsPeer(addons, name, cluster, n)
  {
    peers := [];
    for i := 0 to |order|
      invariant forall n :: n in peers <==> n in order[..i] && IsPeer(addons, name, cluster, n)
    {
      if order[i] != name && addons[order[i]].cluster == cluster { peers := peers + [order[i]]; }
    }
  }

  /** The first authenticated peer lends its user, and its password to the same user. */
  method InheritCredentials(addons: Addons, peers: seq<string>, f: Flags)
      returns (user: string, password: string, pick: Option<string>)
    requires forall n :: n in peers ==> n in addons
    ensures pick.Some? ==> pick.value in peers && addons[pick.value].auth
    ensures pick.None? ==> forall n :: n in peers ==> !addons[n].auth
    ensures pick.None? ==> user == Given(f.rootUser) && password == Given(f.password)
    ensures pick.Some? ==>
      var p := addons[pick.value];
      && user == (if Given(f.rootUser) == "" then p.user else Given(f.rootUser))
      && password == (if Given(f.password) == "" && user == p.user then p.password else Given(f.password))
  {
    user, password, pick := Given(f.rootUser), Given(f.password), None;
    for i := 0 to |peers|
      invariant forall k :: 0 <= k < i ==> peers[k] in addons && !addons[peers[k]].auth
    {
      assert peers[i] in peers;
      var p := addons[peers[i]];
      if p.auth {
        if user == "" { user := p.user; }
        if password == "" && user == p.user { password := p.password; }
        return user, password, Some(peers[i]);
      }
    }
  }

  /** The settings part of `runAddonInstallEtcd`: it builds the peer list by walking the map in
      some order, inherits credentials from the first authenticated peer, and refuses a member
      that disagrees with its cluster. */
  method InstallEntry(addons: Addons, order: seq<string>, name: string, f: Flags, initialized: bool, generated: string)
      returns (r: Option<Entry>, pick: Option<string>)
    requires forall n :: n in order <==> n in addons
    ensures r == Installed(addons, name, f, World(pick, initialized, generated, true))
    ensures AuthOn(addons, name, f) ==> Inherits(addons, name, ClusterOf(addons, name, f), pick)
  {
    var existing := Existing(addons, name);
    var useTls, authFlag := UseTls(addons, name, f), AuthOn(addons, name, f);
    var prevTls := existing.tls;
    existing := existing.(cluster := ClusterOf(addons, name, f));
    var peers := CollectPeers(addons, order, name, existing.cluster);
    var rootUser, password := Given(f.rootUser), Given(f.password);
    pick := None;
    if authFlag { rootUser, password, pick := InheritCredentials(addons, peers, f); }
    var authAgrees := AllPeers(addons, peers, (p: Entry) => p.auth == authFlag);
    if !authAgrees { return None, pick; }
    existing := existing.(tls := useTls, auth := authFlag);
    existing := SettleCredentials(existing, rootUser, password, generated);
    var tlsAgrees := AllPeers(addons, peers, (p: Entry) => p.tls == useTls);
    if !tlsAgrees { return None, pick; }
    if name in addons && prevTls != useTls && initialized { return None, pick; }
    r := Some(existing);
  }

  /** User and password of the entry: the ones passed or inherited, else its own, else new ones;
      none without authentication. */
  method SettleCredentials(e: Entry, rootUser: string, password: string, generated: string) returns (r: Entry)
    ensures r == if !e.auth then e.(user := "", password := "")
                 else
                   var user := if rootUser != "" then rootUser else e.user;
                   var kept := if password != "" then password else e.password;
                   e.(user := if user == "" then "root" else user, password := if kept == "" then generated else kept)
  {
    r := e;
    if e.auth {
      if rootUser != "" { r := r.(user := rootUser); }
      if r.user == "" { r := r.(user := "root"); }
      var secret := password;
      if secret == "" { secret := r.password; }
      if secret == "" { secret := generated; }
      r := r.(password := secret);
    } else {
      r := r.(user := "", password := "");
    }
  }

  method AllPeers(addons: Addons, peers: seq<string>, agrees: Entry -> bool) returns (all: bool)
    requires forall n :: n in peers ==> n in addons
    ensures all <==> forall n :: n in peers ==> agrees(addons[n])
  {
    for i := 0 to |peers|
      invariant forall k :: 0 <= k < i ==> agrees(addons[peers[k]])
    {
      if !agrees(addons[peers[i]]) { return false; }
    }
    all := true;
  }
}
