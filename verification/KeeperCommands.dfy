/**
 The Keeper addon's imperative code, proved against its definitions in `Keeper`.
 */
module KeeperCommands {
  import opened Text
  import opened Lists
  import opened Notations
  import opened Peers
  import opened Keeper
  import CH = ClickHouse
  import opened ClickHouseCommands

  method CheckIdentityImmutable(ip: IpParser, stored: Keeper.Entry, next: Keeper.Entry) returns (ok: bool)
    ensures ok <==> IdentityAccepts(ip, stored, next)
  {
    if next.serverId != stored.serverId || next.advertiseHost != stored.advertiseHost { return false; }
    if next.clientPort != stored.clientPort || next.raftPort != stored.raftPort { return false; }
    ok := SetsEqual(Compared(ip).Canon(), next.peers, stored.peers);
  }

  method CheckNoOpFlags(ip: IpParser, stored: Keeper.Entry, o: Keeper.Options) returns (ok: bool)
    ensures ok <==> NoOpAccepts(ip, stored, o)
  {
    if o.serverId.Some? && o.serverId.value != stored.serverId { return false; }
    if o.advertiseHost.Some? && o.advertiseHost.value != stored.advertiseHost { return false; }
    if o.peers.Some? {
      var same := SetsEqual(Compared(ip).Canon(), o.peers.value, stored.peers);
      if !same { return false; }
    }
    if o.clientPort.Some? && o.clientPort.value != stored.clientPort { return false; }
    if o.raftPort.Some? && o.raftPort.value != stored.raftPort { return false; }
    if o.listen.Some? && o.listen.value != stored.listen { return false; }
    if o.dataDir.Some? && o.dataDir.value != stored.dataDir { return false; }
    ok := o.version.Some? ==> o.version.value == stored.version;
  }

  /** A `*config.ClickHouseKeeperConfig`. */
  class KeeperRef {
    var kc: Keeper.Entry

    constructor (e: Keeper.Entry)
      ensures kc == e
    {
      kc := e;
    }

    method ApplyInstallFlags(o: Keeper.Options) returns (ok: bool)
      modifies this
      ensures ok <==> Keeper.Apply(old(kc), o).Some?
      ensures ok ==> Some(kc) == Keeper.Apply(old(kc), o)
    {
      if o.version.Some? { kc := kc.(version := o.version.value); }
      if kc.version == "" { kc := kc.(version := CH.DEFAULT_VERSION); }
      var imageTag := Keeper.ImageTag(kc.version);
      if imageTag.None? { return false; }
      kc := kc.(imageTag := imageTag.value);
      kc := kc.(serverId := CH.Flag(o.serverId, kc.serverId));
      kc := kc.(advertiseHost := CH.Flag(o.advertiseHost, kc.advertiseHost));
      kc := kc.(peers := CH.Flag(o.peers, kc.peers));
      kc := kc.(clientPort := CH.Flag(o.clientPort, kc.clientPort));
      kc := kc.(raftPort := CH.Flag(o.raftPort, kc.raftPort));
      kc := kc.(listen := CH.NonEmptyFlag(o.listen, kc.listen));
      kc := kc.(dataDir := CH.NonEmptyFlag(o.dataDir, kc.dataDir));
      ok := true;
    }

    method NormalizePeers(ip: IpParser)
      modifies this
      ensures kc == Keeper.Normalize(ip, old(kc))
    {
      if |kc.peers| == 0 { return; }
      var peers := ReadList(Own(ip, kc), kc.peers);
      if peers.None? { return; }
      kc := kc.(peers := Own(ip, kc).PrintAll(SortBy(KeeperPeerLess(), peers.value)));
    }
  }
}
