/**
 The Redis addon: cluster groups that share one password and one replica count, read replicas,
 and what every sequence of installs and removes keeps of both.
 */
module Redis {
  import opened Text
  import opened Runs

  const MAX_REPLICAS := 10
  const DEFAULT_MAJOR := "8"

  datatype Entry = Entry(
    version: string, port: int, password: string, replicaHost: string, replicaPort: int,
    cluster: string, advertiseHost: string, replicas: int)

  const EMPTY_ENTRY := Entry("", 0, "", "", 0, "", "", 0)

  /** `--password` and `--cluster-replicas` are optional because passing them matters even with
      their zero value; the other flags read as absent when empty. */
  datatype Flags = Flags(
    version: string, port: int, password: Option<string>, cluster: string, replicas: Option<int>,
    advertiseHost: string, replicaOf: string, replicaOfHost: string, replicaOfPort: int, force: bool)

  type Addons = map<string, Entry>

  // --- choosing the member to copy from ------------------------------------------------

  predicate IsPeer(addons: Addons, self: string, cluster: string, n: string) {
    n in addons && n != self && addons[n].cluster == cluster
  }

  function Peers(addons: Addons, self: string, cluster: string): set<string> {
    set n | n in addons && n != self && addons[n].cluster == cluster
  }

  ghost predicate IsLeast(s: set<string>, n: string) {
    n in s && forall m :: m in s && m != n ==> Less(n, m)
  }

  lemma LeastOfMore(s: set<string>, x: string, n: string)
    requires x in s && IsLeast(s - {x}, n)
    ensures IsLeast(s, n) || IsLeast(s, x)
  {
    LessTrichotomy(n, x);
    if Less(x, n) {
      forall m | m in s && m != x
        ensures Less(x, m)
      {
        if m != n { LessTransitive(x, n, m); }
      }
    }
  }

  lemma {:induction false} LeastExists(s: set<string>)
    requires s != {}
    ensures exists n :: IsLeast(s, n)
    decreases |s|
  {
    var x :| x in s;
    if s - {x} == {} {
      assert forall m :: m in s ==> m == x || m in s - {x};
      assert IsLeast(s, x);
    } else {
      LeastExists(s - {x});
      var n :| IsLeast(s - {x}, n);
      LeastOfMore(s, x, n);
    }
  }

  /** The first other member of the group, by name. */
  ghost function Base(addons: Addons, self: string, cluster: string): (r: Option<string>)
    ensures r.None? <==> forall n :: !IsPeer(addons, self, cluster, n)
    ensures r.Some? ==> IsPeer(addons, self, cluster, r.value)
    ensures r.Some? ==> forall m :: IsPeer(addons, self, cluster, m) && m != r.value ==> Less(r.value, m)
  {
    var s := Peers(addons, self, cluster);
    assert forall n :: IsPeer(addons, self, cluster, n) <==> n in s;
    if s == {} then None
    else
      LeastExists(s);
      var n :| IsLeast(s, n);
      Some(n)
  }

  // --- resolving the role ------------------------------------------------------------------

  ghost function ClusterResolved(addons: Addons, rc: Entry, self: string, f: Flags): Option<Entry> {
    if f.cluster == "" then Some(rc)
    else if rc.replicaHost != "" || f.replicaOf != "" || f.replicaOfHost != "" then None
    else if f.replicas.Some? && (f.replicas.value < 0 || f.replicas.value > MAX_REPLICAS) then None
    else
      var joined := rc.(cluster := f.cluster,
                        advertiseHost := if f.advertiseHost != "" then f.advertiseHost else rc.advertiseHost);
      match Base(addons, self, f.cluster)
      case None => Some(if f.replicas.Some? then joined.(replicas := f.replicas.value) else joined)
      case Some(b) =>
        if f.password.Some? && rc.password != "" && rc.password != addons[b].password then None
        else if f.replicas.Some? && f.replicas.value != addons[b].replicas then None
        else Some(joined.(password := addons[b].password, replicas := addons[b].replicas))
  }

  function ReplicaResolved(addons: Addons, rc: Entry, self: string, f: Flags): Option<Entry> {
    if f.replicaOf != "" && f.replicaOfHost != "" then None
    else if f.replicaOf == "" && f.replicaOfHost == "" then Some(rc)
    else if f.replicaOf != "" then
      if f.replicaOf == self || f.replicaOf !in addons then None
      else
        var master := addons[f.replicaOf];
        var major := if f.version == "" then rc.version else f.version;
        if major != "" && major != master.version then None
        else if f.password.Some? && rc.password != "" && rc.password != master.password then None
        else Some(rc.(version := master.version, replicaHost := "127.0.0.1", replicaPort := master.port,
                      password := master.password))
    else if f.replicaOfPort == 0 || rc.password == "" then None
    else Some(rc.(replicaHost := f.replicaOfHost, replicaPort := f.replicaOfPort))
  }

  /** The role tests of `validateRedisKnobs`. */
  predicate RoleAccepted(rc: Entry) {
    && !(rc.cluster != "" && rc.replicaHost != "")
    && !(rc.replicaHost != "" && rc.replicaPort == 0)
  }

  // --- commands --------------------------------------------------------------------------------

  /** What an install meets outside the configuration: a free port and a generated password. */
  datatype World = World(port: int, generated: string)

  /** How far an install gets after it passed its checks. */
  datatype Fate = Completes | FailsFirst | FailsAfterCreate

  datatype State = State(addons: Addons, containers: set<string>)

  datatype Event =
    | Install(name: string, flags: Flags, world: World, fate: Fate)
    | Remove(name: string, ok: bool)
    | LoseContainer(name: string)

  ghost function Merged(addons: Addons, name: string, f: Flags): Entry {
    var e := if name in addons then addons[name] else EMPTY_ENTRY;
    e.(port := if f.port != 0 then f.port else e.port,
       password := if f.password.Some? && f.password.value != "" then f.password.value else e.password)
  }

  /** The entry an install saves, or `None` when a check refuses it. */
  ghost function Installed(s: State, name: string, f: Flags, w: World): Option<Entry> {
    match ClusterResolved(s.addons, Merged(s.addons, name, f), name, f)
    case None => None
    case Some(c) =>
      match ReplicaResolved(s.addons, c, name, f)
      case None => None
      case Some(r) =>
        if !RoleAccepted(r) then None
        else
          var rc := r.(version := if f.version != "" then f.version else if r.version == "" then DEFAULT_MAJOR else r.version,
                       port := if r.port == 0 then w.port else r.port);
          var reused := name in s.containers && !f.force;
          Some(if !reused && rc.password == "" then rc.(password := w.generated) else rc)
  }

  ghost function Step(s: State, ev: Event): State {
    match ev
    case Install(name, f, w, fate) =>
      (match Installed(s, name, f, w)
       case None => s
       case Some(rc) =>
         match fate
         case Completes => State(s.addons[name := rc], s.containers + {name})
         case FailsFirst => s
         case FailsAfterCreate => s.(containers := s.containers + {name}))
    case Remove(name, ok) =>
      if ok && name in s.addons then State(s.addons - {name}, s.containers - {name}) else s
    case LoseContainer(name) => s.(containers := s.containers - {name})
  }

  ghost function Steps(): (State, Event) -> State {
    (s, ev) => Step(s, ev)
  }

  const EMPTY := State(map[], {})

  // --- what every run keeps ---------------------------------------------------------------------

  predicate SameGroup(addons: Addons, m: string, n: string) {
    m in addons && n in addons && addons[m].cluster != "" && addons[m].cluster == addons[n].cluster
  }

  /** No entry is both a cluster member and a replica, and a group has one replica count. */
  ghost predicate RolesAndReplicas(s: State) {
    && (forall n :: n in s.addons ==> RoleAccepted(s.addons[n]))
    && (forall m, n :: SameGroup(s.addons, m, n) ==> s.addons[m].replicas == s.addons[n].replicas)
  }

  lemma InstalledReplicas(s: State, name: string, f: Flags, w: World, m: string)
    requires RolesAndReplicas(s) && Installed(s, name, f, w).Some?
    ensures var rc := Installed(s, name, f, w).value;
            && RoleAccepted(rc)
            && (m != name && m in s.addons && rc.cluster != "" && s.addons[m].cluster == rc.cluster ==>
                  rc.replicas == s.addons[m].replicas)
  {
    var rc := Installed(s, name, f, w).value;
    if m != name && m in s.addons && rc.cluster != "" && s.addons[m].cluster == rc.cluster {
      if f.cluster != "" {
        assert IsPeer(s.addons, name, f.cluster, m);
        var b := Base(s.addons, name, f.cluster).value;
        assert SameGroup(s.addons, b, m);
      } else {
        assert SameGroup(s.addons, name, m);
      }
    }
  }

  lemma StepRolesAndReplicas(s: State, ev: Event)
    requires RolesAndReplicas(s)
    ensures RolesAndReplicas(Step(s, ev))
  {
    if ev.Install? && ev.fate == Completes && Installed(s, ev.name, ev.flags, ev.world).Some? {
      var t := Step(s, ev);
      forall m, n | SameGroup(t.addons, m, n)
        ensures t.addons[m].replicas == t.addons[n].replicas
      {
        InstalledReplicas(s, ev.name, ev.flags, ev.world, m);
        InstalledReplicas(s, ev.name, ev.flags, ev.world, n);
        if m != ev.name && n != ev.name { assert SameGroup(s.addons, m, n); }
      }
      InstalledReplicas(s, ev.name, ev.flags, ev.world, ev.name);
    } else {
      var t := Step(s, ev);
      forall m, n | SameGroup(t.addons, m, n)
        ensures t.addons[m].replicas == t.addons[n].replicas
      {
        assert SameGroup(s.addons, m, n);
      }
    }
  }

  /** Replica counts agree and roles exclude each other after every run, whatever fails. */
  lemma RunKeepsRolesAndReplicas(evs: seq<Event>)
    ensures RolesAndReplicas(Run(Steps(), EMPTY, evs))
  {
    var ok := (s: State, ev: Event) => true;
    forall s, ev | RolesAndReplicas(s)
      ensures RolesAndReplicas(Steps()(s, ev))
    {
      StepRolesAndReplicas(s, ev);
    }
    AllOkFromEach(Steps(), ok, EMPTY, evs, ev => true);
    RunKeeps(Steps(), ok, s => RolesAndReplicas(s), EMPTY, evs);
  }

  // --- passwords -----------------------------------------------------------------------------------

  ghost predicate PasswordsAgree(s: State) {
    forall m, n :: SameGroup(s.addons, m, n) ==> s.addons[m].password == s.addons[n].password
  }

  /** Every entry has a password. */
  ghost predicate PasswordsSet(s: State) {
    forall n :: n in s.addons ==> s.addons[n].password != ""
  }

  /** A container without an entry is reused, and nothing names a password: none is passed, no
      master is copied and no group member lends one. */
  ghost predicate LeavesEmpty(s: State, name: string, f: Flags) {
    && name in s.containers && name !in s.addons && !f.force
    && (f.password.None? || f.password.value == "") && f.replicaOf == ""
    && (f.cluster == "" || forall n :: !IsPeer(s.addons, name, f.cluster, n))
  }

  /** The path without a check: a new `--password` without `--cluster` for a stored member that
      has peers. */
  ghost predicate Rotates(s: State, name: string, f: Flags) {
    && name in s.addons && s.addons[name].cluster != "" && f.cluster == ""
    && (exists n :: IsPeer(s.addons, name, s.addons[name].cluster, n))
    && f.password.Some? && f.password.value != "" && f.password.value != s.addons[name].password
  }

  lemma InstalledPassword(s: State, name: string, f: Flags, w: World, m: string)
    requires RolesAndReplicas(s) && PasswordsAgree(s) && PasswordsSet(s) && w.generated != ""
    requires Installed(s, name, f, w).Some?
    requires m != name && m in s.addons && s.addons[m].cluster == Installed(s, name, f, w).value.cluster != ""
    ensures Installed(s, name, f, w).value.password == s.addons[m].password <==> !Rotates(s, name, f)
  {
    var rc := Installed(s, name, f, w).value;
    assert f.replicaOf == "" && f.replicaOfHost == "";
    assert IsPeer(s.addons, name, rc.cluster, m);
    if f.cluster != "" {
      var b := Base(s.addons, name, f.cluster).value;
      assert SameGroup(s.addons, b, m);
    } else {
      assert SameGroup(s.addons, name, m);
    }
  }

  /** A completed install keeps a group's password agreement exactly when it is not a rotation
      behind the group's back. */
  lemma PasswordAgreementExact(s: State, name: string, f: Flags, w: World)
    requires RolesAndReplicas(s) && PasswordsAgree(s) && PasswordsSet(s) && w.generated != ""
    requires Installed(s, name, f, w).Some?
    ensures PasswordsAgree(Step(s, Install(name, f, w, Completes))) <==> !Rotates(s, name, f)
  {
    var rc := Installed(s, name, f, w).value;
    var t := Step(s, Install(name, f, w, Completes));
    if Rotates(s, name, f) {
      var n :| IsPeer(s.addons, name, s.addons[name].cluster, n);
      assert rc.cluster == s.addons[name].cluster;
      InstalledPassword(s, name, f, w, n);
      assert SameGroup(t.addons, name, n);
    } else {
      forall m, n | SameGroup(t.addons, m, n)
        ensures t.addons[m].password == t.addons[n].password
      {
        if m != name { if n == name { InstalledPassword(s, name, f, w, m); } else { assert SameGroup(s.addons, m, n); } }
        else if n != name { InstalledPassword(s, name, f, w, n); }
      }
    }
  }

  /** An install that passes its checks stores an empty password exactly in that case. */
  lemma EmptyPasswordExact(s: State, name: string, f: Flags, w: World)
    requires PasswordsSet(s) && w.generated != "" && Installed(s, name, f, w).Some?
    ensures Installed(s, name, f, w).value.password == "" <==> LeavesEmpty(s, name, f)
  {
  }

  ghost predicate Agreement(s: State) {
    RolesAndReplicas(s) && PasswordsAgree(s) && PasswordsSet(s)
  }

  /** Runs may fail anywhere, also after a container was created; a completed install neither
      rotates a member's password behind its group's back nor reuses an orphaned container without
      a password. */
  ghost predicate Careful(s: State, ev: Event) {
    ev.Install? ==>
      && ev.world.generated != ""
      && (ev.fate == Completes ==> !Rotates(s, ev.name, ev.flags) && !LeavesEmpty(s, ev.name, ev.flags))
  }

  lemma StepAgreement(s: State, ev: Event)
    requires Agreement(s) && Careful(s, ev)
    ensures Agreement(Step(s, ev))
  {
    StepRolesAndReplicas(s, ev);
    if ev.Install? {
      if Installed(s, ev.name, ev.flags, ev.world).Some? && ev.fate == Completes {
        PasswordAgreementExact(s, ev.name, ev.flags, ev.world);
        EmptyPasswordExact(s, ev.name, ev.flags, ev.world);
      }
    } else {
      var t := Step(s, ev);
      forall m, n | SameGroup(t.addons, m, n)
        ensures t.addons[m].password == t.addons[n].password
      {
        assert SameGroup(s.addons, m, n);
      }
    }
  }

  /** Over every such run, whatever fails in it, all members of a group share one non-empty
      password and one replica count, and no entry has two roles. */
  lemma RunKeepsAgreement(evs: seq<Event>)
    requires AllOk(Steps(), (s: State, ev: Event) => Careful(s, ev), EMPTY, evs)
    ensures Agreement(Run(Steps(), EMPTY, evs))
  {
    var ok := (s: State, ev: Event) => Careful(s, ev);
    forall s, ev | Agreement(s) && ok(s, ev)
      ensures Agreement(Steps()(s, ev))
    {
      StepAgreement(s, ev);
    }
    RunKeeps(Steps(), ok, s => Agreement(s), EMPTY, evs);
  }

  const NO_FLAGS := Flags("", 0, None, "", None, "", "", "", 0, false)

  /** A run that needs the second condition: an install that created its container and then failed
      leaves a container without an entry, and the next install stores an empty password. */
  lemma HalfInstallLosesPassword(w: World)
    ensures var f := NO_FLAGS;
            var half := Install("a", f, w, FailsAfterCreate);
            var s := Run(Steps(), EMPTY, [half, Install("a", f, w, Completes)]);
            && LeavesEmpty(Step(EMPTY, half), "a", f)
            && "a" in s.addons && s.addons["a"].password == ""
  {
    var f := NO_FLAGS;
    var half := Install("a", f, w, FailsAfterCreate);
    assert Step(EMPTY, half) == State(map[], {"a"});
    RunOfTwo(Steps(), (s: State, ev: Event) => true, EMPTY, half, Install("a", f, w, Completes));
  }

  lemma FirstOfGroup(w: World, f: Flags)
    requires f == NO_FLAGS.(cluster := "c", password := Some("old"))
    ensures Installed(EMPTY, "a", f, w).Some?
    ensures var e := Installed(EMPTY, "a", f, w).value; e.password == "old" && e.cluster == "c" && e.replicaHost == ""
  {
  }

  lemma SecondOfGroup(w: World, s: State, f: Flags)
    requires s.addons.Keys == {"a"} && s.addons["a"].cluster == "c" && s.addons["a"].password == "old"
    requires f == NO_FLAGS.(cluster := "c")
    ensures Installed(s, "b", f, w).Some?
    ensures var e := Installed(s, "b", f, w).value; e.password == "old" && e.cluster == "c" && e.replicaHost == ""
  {
    assert IsPeer(s.addons, "b", "c", "a");
  }

  /** A run that needs the first: two members of a group, and then a new `--password` without
      `--cluster` for one of them. */
  lemma RotationSplitsGroup(w: World)
    ensures var first := Install("a", NO_FLAGS.(cluster := "c", password := Some("old")), w, Completes);
            var second := Install("b", NO_FLAGS.(cluster := "c"), w, Completes);
            var rotate := Install("a", NO_FLAGS.(password := Some("new")), w, Completes);
            var s := Run(Steps(), EMPTY, [first, second, rotate]);
            && SameGroup(s.addons, "a", "b")
            && s.addons["a"].password == "new" && s.addons["b"].password == "old"
  {
    var first := Install("a", NO_FLAGS.(cluster := "c", password := Some("old")), w, Completes);
    var second := Install("b", NO_FLAGS.(cluster := "c"), w, Completes);
    var rotate := Install("a", NO_FLAGS.(password := Some("new")), w, Completes);
    FirstOfGroup(w, first.flags);
    var s1 := Step(EMPTY, first);
    SecondOfGroup(w, s1, second.flags);
    var s2 := Step(s1, second);
    assert s2.addons["b"].password == "old" && s2.addons["a"].cluster == "c";
    RunOfThree(Steps(), (s: State, ev: Event) => true, EMPTY, first, second, rotate);
  }

  // --- the resolver's loop -----------------------------------------------------------------------------

  /** `sortedAddonNames`. */
  ghost predicate SortedNames(names: seq<string>, addons: Addons) {
    && (forall n :: n in names <==> n in addons)
    && (forall i, j :: 0 <= i < j < |names| ==> Less(names[i], names[j]))
  }

  method FindBase(addons: Addons, names: seq<string>, self: string, cluster: string) returns (base: Option<string>)
    requires SortedNames(names, addons)
    ensures base == Base(addons, self, cluster)
  {
    for i := 0 to |names|
      invariant forall k :: 0 <= k < i ==> !IsPeer(addons, self, cluster, names[k])
    {
      if names[i] != self && addons[names[i]].cluster == cluster {
        assert IsPeer(addons, self, cluster, names[i]);
        LeastIsFirst(addons, names, self, cluster, i);
        return Some(names[i]);
      }
    }
    assert forall n :: IsPeer(addons, self, cluster, n) ==> n in names;
    base := None;
  }

  lemma LeastIsFirst(addons: Addons, names: seq<string>, self: string, cluster: string, i: nat)
    requires SortedNames(names, addons) && i < |names| && IsPeer(addons, self, cluster, names[i])
    requires forall k :: 0 <= k < i ==> !IsPeer(addons, self, cluster, names[k])
    ensures Base(addons, self, cluster) == Some(names[i])
  {
    var b := Base(addons, self, cluster).value;
    assert b in names;
    var j :| 0 <= j < |names| && names[j] == b;
    if j > i { LessTrichotomy(names[i], names[j]); }
  }

  /** A `*config.RedisConfig` during an install. */
  class EntryRef {
    var rc: Entry

    constructor (e: Entry)
      ensures rc == e
    {
      rc := e;
    }

    method ResolveCluster(addons: Addons, names: seq<string>, self: string, f: Flags) returns (ok: bool)
      requires SortedNames(names, addons)
      modifies this
      ensures ok <==> ClusterResolved(addons, old(rc), self, f).Some?
      ensures ok ==> Some(rc) == ClusterResolved(addons, old(rc), self, f)
    {
      if f.cluster == "" { return true; }
      if rc.replicaHost != "" || f.replicaOf != "" || f.replicaOfHost != "" { return false; }
      if f.replicas.Some? && (f.replicas.value < 0 || f.replicas.value > MAX_REPLICAS) { return false; }
      rc := rc.(cluster := f.cluster);
      if f.advertiseHost != "" { rc := rc.(advertiseHost := f.advertiseHost); }
      var base := FindBase(addons, names, self, f.cluster);
      if base.None? {
        if f.replicas.Some? { rc := rc.(replicas := f.replicas.value); }
        return true;
      }
      var b := addons[base.value];
      if f.password.Some? && rc.password != "" && rc.password != b.password { return false; }
      rc := rc.(password := b.password);
      if f.replicas.Some? && f.replicas.value != b.replicas { return false; }
      rc := rc.(replicas := b.replicas);
      ok := true;
    }

    method ResolveReplica(addons: Addons, self: string, f: Flags) returns (ok: bool)
      modifies this
      ensures ok <==> ReplicaResolved(addons, old(rc), self, f).Some?
      ensures ok ==> Some(rc) == ReplicaResolved(addons, old(rc), self, f)
    {
      if f.replicaOf != "" && f.replicaOfHost != "" { return false; }
      if f.replicaOf == "" && f.replicaOfHost == "" { return true; }
      if f.replicaOf != "" {
        if f.replicaOf == self || f.replicaOf !in addons { return false; }
        var master := addons[f.replicaOf];
        var wantMajor := f.version;
        if wantMajor == "" { wantMajor := rc.version; }
        if wantMajor != "" && wantMajor != master.version { return false; }
        rc := rc.(version := master.version, replicaHost := "127.0.0.1", replicaPort := master.port);
        if f.password.Some? && rc.password != "" && rc.password != master.password { return false; }
        rc := rc.(password := master.password);
        return true;
      }
      if f.replicaOfPort == 0 || rc.password == "" { return false; }
      rc := rc.(replicaHost := f.replicaOfHost, replicaPort := f.replicaOfPort);
      ok := true;
    }
  }
}
