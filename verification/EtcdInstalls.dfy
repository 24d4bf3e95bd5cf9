/**
 What an etcd install accepts and what it stores, said over flags and entries, and that running it
 again without flags changes nothing.
 */
module EtcdInstalls {
  import opened Text
  import opened Runs
  import opened Etcd

  /** The cluster that is joined: the one passed, else the stored one, else the default. */
  predicate ClusterAsAsked(old_: Entry, f: Flags, cluster: string) {
    if f.cluster != "" then cluster == f.cluster
    else if old_.cluster != "" then cluster == old_.cluster
    else cluster == "pgcli-etcd"
  }

  /** Authentication: as --auth says; else on if a user or password flag was passed; else as stored. */
  predicate AuthAsAsked(old_: Entry, f: Flags, auth: bool) {
    if f.auth.Some? then auth == f.auth.value
    else if f.password.Some? || f.rootUser.Some? then auth
    else auth == old_.auth
  }

  predicate TlsAsAsked(old_: Entry, f: Flags, tls: bool) {
    tls == if f.tls.Some? then f.tls.value else old_.tls
  }

  /** User and password: as passed, else the authenticated peer's (its password only for its user),
      else as stored, else root and a generated password; none without authentication. */
  predicate CredentialsAsAsked(old_: Entry, f: Flags, peer: Option<Entry>, generated: string, r: Entry) {
    if !r.auth then r.user == "" && r.password == ""
    else
      var askedUser, askedPassword := Given(f.rootUser), Given(f.password);
      && (if askedUser != "" then r.user == askedUser
          else if peer.Some? && peer.value.user != "" then r.user == peer.value.user
          else if old_.user != "" then r.user == old_.user
          else r.user == "root")
      && (if askedPassword != "" then r.password == askedPassword
          else if peer.Some? && askedUser in {"", peer.value.user} && peer.value.password != "" then r.password == peer.value.password
          else if old_.password != "" then r.password == old_.password
          else r.password == generated)
  }

  function PickedPeer(addons: Addons, w: World): Option<Entry> {
    if w.pick.Some? && w.pick.value in addons then Some(addons[w.pick.value]) else None
  }

  /** An install is refused exactly when a member of the cluster disagrees on authentication or TLS,
      or when the member was initialised with the other TLS mode. */
  lemma RefusedExact(addons: Addons, name: string, f: Flags, w: World, cluster: string, tls: bool, auth: bool)
    requires ClusterAsAsked(Existing(addons, name), f, cluster) && AuthAsAsked(Existing(addons, name), f, auth)
    requires TlsAsAsked(Existing(addons, name), f, tls)
    ensures Installed(addons, name, f, w).None? <==>
            || (exists n :: n in addons && n != name && addons[n].cluster == cluster && (addons[n].auth != auth || addons[n].tls != tls))
            || (name in addons && addons[name].tls != tls && w.initialized)
  {
    if exists n :: n in addons && n != name && addons[n].cluster == cluster && (addons[n].auth != auth || addons[n].tls != tls) {
      var n :| n in addons && n != name && addons[n].cluster == cluster && (addons[n].auth != auth || addons[n].tls != tls);
      assert IsPeer(addons, name, cluster, n);
    }
  }

  /** An accepted install stores what was asked. */
  lemma InstalledAsAsked(addons: Addons, name: string, f: Flags, w: World)
    requires Installed(addons, name, f, w).Some?
    ensures var old_, r := Existing(addons, name), Installed(addons, name, f, w).value;
            && ClusterAsAsked(old_, f, r.cluster) && AuthAsAsked(old_, f, r.auth) && TlsAsAsked(old_, f, r.tls)
            && CredentialsAsAsked(old_, f, PickedPeer(addons, w), w.generated, r)
  {
  }

  /** It stores that under its name and leaves the other members; a refused or failing one leaves all. */
  lemma InstallStores(addons: Addons, name: string, f: Flags, w: World)
    ensures var t := Step(addons, Install(name, f, w));
            if !w.ok || Installed(addons, name, f, w).None? then t == addons
            else
              && t.Keys == addons.Keys + {name} && (forall n :: n in addons && n != name ==> t[n] == addons[n])
              && var old_, r := Existing(addons, name), t[name];
                 && ClusterAsAsked(old_, f, r.cluster) && AuthAsAsked(old_, f, r.auth) && TlsAsAsked(old_, f, r.tls)
                 && CredentialsAsAsked(old_, f, PickedPeer(addons, w), w.generated, r)
  {
    if Installed(addons, name, f, w).Some? { InstalledAsAsked(addons, name, f, w); }
  }

  /** Without a user or password flag, a stored authenticated member that has no authenticated peer
      keeps its own. */
  lemma LoneMemberKeepsCredentials(addons: Addons, name: string, f: Flags, w: World)
    requires Agreement(addons) && Possible(addons, Install(name, f, w)) && Installed(addons, name, f, w).Some?
    requires name in addons && addons[name].auth && Given(f.rootUser) == "" && Given(f.password) == ""
    requires forall n :: n in addons && n != name && addons[n].cluster == Installed(addons, name, f, w).value.cluster ==> !addons[n].auth
    ensures var r := Installed(addons, name, f, w).value;
            r.auth ==> r.user == addons[name].user && r.password == addons[name].password
  {
  }

  lemma RerunIsStored(addons: Addons, name: string, w: World)
    requires Settled(addons) && name in addons && Possible(addons, Install(name, NO_FLAGS, w))
    ensures Installed(addons, name, NO_FLAGS, w) == Some(addons[name])
  {
    var e := addons[name];
    forall n | IsPeer(addons, name, e.cluster, n)
      ensures addons[n].auth == e.auth && addons[n].tls == e.tls && addons[n].user == e.user && addons[n].password == e.password
    {
      assert SameCluster(addons, name, n);
    }
    if e.auth && w.pick.Some? { assert IsPeer(addons, name, e.cluster, w.pick.value); }
  }

  /** Running the install of any stored members again without flags is accepted and leaves the whole
      configuration as it is, however often and in whatever order, for every settled one. */
  lemma {:induction false} RerunsChangeNothing(addons: Addons, evs: seq<Event>)
    requires Settled(addons) && AllOk(Steps(), (a: Addons, ev: Event) => Possible(a, ev), addons, evs)
    requires forall ev :: ev in evs ==> ev.Install? && ev.flags == NO_FLAGS && ev.name in addons
    ensures Run(Steps(), addons, evs) == addons
    decreases |evs|
  {
    if evs != [] {
      assert evs[0] in evs;
      RerunIsStored(addons, evs[0].name, evs[0].world);
      assert Step(addons, evs[0]) == addons;
      RerunsChangeNothing(addons, evs[1..]);
    }
  }
}
