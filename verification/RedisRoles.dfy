/**
 What a Redis install accepts and what it stores, said over flags and entries: where a replica
 points, what a group member shares, and exactly which requests are refused.
 */
module RedisRoles {
  import opened Text
  import opened Redis

  function Old(addons: Addons, name: string): Entry {
    if name in addons then addons[name] else EMPTY_ENTRY
  }

  /** The first other member of the group in name order, if there is one. */
  ghost predicate FirstMember(addons: Addons, self: string, cluster: string, b: Option<string>) {
    if b.None? then forall n :: n in addons && n != self ==> addons[n].cluster != cluster
    else
      && b.value in addons && b.value != self && addons[b.value].cluster == cluster
      && forall n :: n in addons && n != self && n != b.value && addons[n].cluster == cluster ==> Less(b.value, n)
  }

  lemma FirstMemberIsBase(addons: Addons, self: string, cluster: string, b: Option<string>)
    requires FirstMember(addons, self, cluster, b)
    ensures Base(addons, self, cluster) == b
  {
    var base := Base(addons, self, cluster);
    if b.Some? {
      assert IsPeer(addons, self, cluster, b.value);
      if base.value != b.value { LessTrichotomy(base.value, b.value); }
    }
  }

  /** The password the install goes on with: the one passed, else the stored one. */
  function Wanted(old_: Entry, f: Flags): string {
    if f.password.Some? && f.password.value != "" then f.password.value else old_.password
  }

  /** A password was passed and there is one that is not the shared one. */
  predicate Contradicts(old_: Entry, f: Flags, shared: string) {
    f.password.Some? && Wanted(old_, f) !in {"", shared}
  }

  /** Joining is refused for a replica, for a replica count out of range, and where the group's first
      member has another password or replica count. */
  ghost predicate CannotJoin(addons: Addons, old_: Entry, f: Flags, b: Option<string>)
    requires b.Some? ==> b.value in addons
  {
    f.cluster != "" &&
      (|| old_.replicaHost != "" || f.replicaOf != "" || f.replicaOfHost != ""
       || (f.replicas.Some? && !(0 <= f.replicas.value <= 10))
       || (b.Some? && Contradicts(old_, f, addons[b.value].password))
       || (b.Some? && f.replicas.Some? && f.replicas.value != addons[b.value].replicas))
  }

  /** Following is refused for two masters at once, for itself or a master that is not there, of
      another version or with another password, for a remote one without port or password, and for
      a cluster member. */
  predicate CannotFollow(addons: Addons, name: string, old_: Entry, f: Flags) {
    || (f.replicaOf != "" && f.replicaOfHost != "")
    || (f.replicaOf != "" && (f.replicaOf == name || f.replicaOf !in addons))
    || (f.replicaOf != "" && f.replicaOf in addons &&
         (|| (f.version != "" && f.version != addons[f.replicaOf].version)
          || (f.version == "" && old_.version !in {"", addons[f.replicaOf].version})
          || Contradicts(old_, f, addons[f.replicaOf].password)
          || addons[f.replicaOf].port == 0))
    || (f.replicaOfHost != "" && (f.replicaOfPort == 0 || Wanted(old_, f) == ""))
    || ((f.replicaOf != "" || f.replicaOfHost != "") && old_.cluster != "")
  }

  /** Exactly these requests are refused, for every stored entry with one role. */
  lemma RefusedExact(s: State, name: string, f: Flags, w: World, b: Option<string>)
    requires name in s.addons ==> RoleAccepted(s.addons[name])
    requires FirstMember(s.addons, name, f.cluster, b)
    ensures Installed(s, name, f, w).None? <==>
            CannotJoin(s.addons, Old(s.addons, name), f, b) || CannotFollow(s.addons, name, Old(s.addons, name), f)
  {
    FirstMemberIsBase(s.addons, name, f.cluster, b);
  }

  /** Where the stored entry replicates from: the local master's port on this host, with its version
      and password; the remote address as passed; or the role it had. */
  ghost predicate FollowsAsAsked(addons: Addons, old_: Entry, f: Flags, r: Entry) {
    if f.replicaOf != "" then
      && f.replicaOf in addons
      && var master := addons[f.replicaOf];
         && r.replicaHost == "127.0.0.1" && r.replicaPort == master.port
         && (master.version != "" ==> r.version == master.version) && (master.password != "" ==> r.password == master.password)
    else if f.replicaOfHost != "" then
      r.replicaHost == f.replicaOfHost && r.replicaPort == f.replicaOfPort && r.password == Wanted(old_, f)
    else r.replicaHost == old_.replicaHost && r.replicaPort == old_.replicaPort
  }

  /** What the stored entry shares with its group: password and replica count of the first member; or,
      as the first, the count that was passed. Without --cluster the membership it had. */
  ghost predicate JoinsAsAsked(addons: Addons, old_: Entry, f: Flags, b: Option<string>, r: Entry)
    requires b.Some? ==> b.value in addons
  {
    if f.cluster == "" then
      r.cluster == old_.cluster && r.replicas == old_.replicas && r.advertiseHost == old_.advertiseHost
    else
      && r.cluster == f.cluster
      && r.advertiseHost == (if f.advertiseHost != "" then f.advertiseHost else old_.advertiseHost)
      && r.replicas == (if b.Some? then addons[b.value].replicas else if f.replicas.Some? then f.replicas.value else old_.replicas)
      && (b.Some? && addons[b.value].password != "" ==> r.password == addons[b.value].password)
  }

  /** Apart from groups and masters, the password passed or stored is kept, and a missing one is
      generated when a container is created. */
  ghost predicate PasswordAsAsked(s: State, name: string, old_: Entry, f: Flags, w: World, b: Option<string>, r: Entry) {
    f.replicaOf == "" && (f.cluster == "" || b.None?) ==>
      if Wanted(old_, f) != "" then r.password == Wanted(old_, f)
      else r.password == if name in s.containers && !f.force then "" else w.generated
  }

  lemma InstalledAsAsked(s: State, name: string, f: Flags, w: World, b: Option<string>)
    requires FirstMember(s.addons, name, f.cluster, b) && Installed(s, name, f, w).Some?
    ensures var old_, r := Old(s.addons, name), Installed(s, name, f, w).value;
            && FollowsAsAsked(s.addons, old_, f, r) && JoinsAsAsked(s.addons, old_, f, b, r)
            && PasswordAsAsked(s, name, old_, f, w, b, r)
            && r.port == (if f.port != 0 then f.port else if old_.port != 0 then old_.port else w.port)
            && (f.version != "" ==> r.version == f.version)
            && (f.version == "" && f.replicaOf == "" ==> r.version == if old_.version != "" then old_.version else DEFAULT_MAJOR)
  {
    FirstMemberIsBase(s.addons, name, f.cluster, b);
  }

  /** A completed install stores exactly that under its name and leaves every other entry; a refused
      or failing one leaves all entries. */
  lemma InstallStores(s: State, name: string, f: Flags, w: World, fate: Fate, b: Option<string>)
    requires name in s.addons ==> RoleAccepted(s.addons[name])
    requires FirstMember(s.addons, name, f.cluster, b)
    ensures var old_, t := Old(s.addons, name), Step(s, Install(name, f, w, fate));
            if fate != Completes || CannotJoin(s.addons, old_, f, b) || CannotFollow(s.addons, name, old_, f) then t.addons == s.addons
            else
              && name in t.addons && (forall n :: n != name ==> (n in t.addons <==> n in s.addons))
              && (forall n :: n in s.addons && n != name ==> t.addons[n] == s.addons[n])
              && var r := t.addons[name];
                 FollowsAsAsked(s.addons, old_, f, r) && JoinsAsAsked(s.addons, old_, f, b, r) && PasswordAsAsked(s, name, old_, f, w, b, r)
  {
    RefusedExact(s, name, f, w, b);
    if Installed(s, name, f, w).Some? { InstalledAsAsked(s, name, f, w, b); }
  }
}
