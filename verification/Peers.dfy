/**
 The three textual forms of cluster members, read and printed as internal/config does:
   SHARD/REPLICA@HOST:PORT   a ClickHouse member
   HOST[:PORT]               a Keeper client endpoint
   ID@HOST[:PORT]            a Keeper Raft member
 Each is proved to be a lawful notation. IP literals are recognised by a parameter `ip` that
 stands for `net.ParseIP`; all that is assumed of it is stated in `IpTexts`.
 */
module Peers {
  import opened Text
  import opened HostPort
  import opened Notations

  // --- IP literals -----------------------------------------------------------------

  /** What `net.ParseIP` and its tests say about a text; `bits` is the address. */
  datatype IpKind = NotIp | Wildcard | Loopback | Concrete(bits: nat)

  type IpParser = string -> IpKind

  predicate IpChar(c: char) {
    IsDigit(c) || 'a' <= c <= 'f' || 'A' <= c <= 'F' || c == '.' || c == ':'
  }

  /** An address is written with hexadecimal digits, dots and colons, and an address without a
      colon (a dotted quad) stops being one when a colon and more text follow. */
  ghost predicate IpTexts(ip: IpParser) {
    && (forall h :: ip(h) != NotIp ==> h != "" && forall i :: 0 <= i < |h| ==> IpChar(h[i]))
    && (forall h, p :: ip(h) != NotIp && ':' !in h ==> ip(h + ":" + p) == NotIp)
  }

  lemma TrimFixed(s: string)
    requires s != "" && !IsSpace(s[0]) && !IsSpace(s[|s| - 1])
    ensures TrimSpace(s) == s
  {
  }

  lemma HostIsPlain(ip: IpParser, host: string)
    requires IpTexts(ip) && ip(host) != NotIp
    ensures PlainHost(host) && host != "" && '@' !in host && '/' !in host
    ensures forall i :: 0 <= i < |host| ==> !IsSpace(host[i])
  {
  }

  lemma DigitsArePlain(s: string)
    requires AllDigits(s)
    ensures PlainPort(s) && '@' !in s && '/' !in s
    ensures forall i :: 0 <= i < |s| ==> !IsSpace(s[i])
  {
  }

  /** A printed endpoint is read back, is not itself an address, and has no outer white space. */
  ghost predicate Printed(ip: IpParser, host: string, port: nat) {
    var s := JoinHostPort(host, Itoa(port));
    && SplitHostPort(s) == Some(HostAndPort(host, Itoa(port)))
    && host != "" && s != "" && !IsSpace(s[0]) && !IsSpace(s[|s| - 1]) && ':' in s
    && TrimSpace(s) == s && ip(s) == NotIp
  }

  lemma PrintedEndpoint(ip: IpParser, host: string, port: nat)
    requires IpTexts(ip) && ip(host) != NotIp
    ensures Printed(ip, host, port)
  {
    HostIsPlain(ip, host);
    DigitsArePlain(Itoa(port));
    SplitOfJoinHostPort(host, Itoa(port));
    var s := JoinHostPort(host, Itoa(port));
    if ':' in host {
      assert s[0] == '[' && !IpChar('[');
      assert s[|host| + 2] == ':';
    } else {
      assert s[|host|] == ':' && s[0] == host[0];
    }
    assert s[|s| - 1] == Itoa(port)[|Itoa(port)| - 1];
    TrimFixed(s);
  }

  /** A positive number read by `Atoi` (shards, replicas, server ids). */
  function Positive(s: string): (r: Option<nat>)
    ensures r.Some? ==> 1 <= r.value <= MAX_INT
  {
    match Atoi(s) case None => None case Some(n) => if n < 1 then None else Some(n)
  }

  function PortNumber(s: string): (r: Option<nat>)
    ensures r.Some? ==> 1 <= r.value <= 65535
  {
    match Atoi(s) case None => None case Some(n) => if n < 1 || n > 65535 then None else Some(n)
  }

  // --- ClickHouse members ------------------------------------------------------------

  datatype Peer = Peer(shard: nat, replica: nat, host: string, port: nat)

  function PrintPeer(p: Peer): string {
    Itoa(p.shard) + "/" + Itoa(p.replica) + "@" + JoinHostPort(p.host, Itoa(p.port))
  }

  function ParsePeer(ip: IpParser, raw: string): (r: Option<Peer>)
    ensures r.Some? ==>
      && 1 <= r.value.shard <= MAX_INT && 1 <= r.value.replica <= MAX_INT
      && 1 <= r.value.port <= 65535 && ip(r.value.host).Concrete?
  {
    var at := Cut(TrimSpace(raw), '@');
    var slash := Cut(at.before, '/');
    if !at.found || !slash.found then None
    else
      match (Positive(slash.before), Positive(slash.after), SplitHostPort(at.after))
      case (Some(shard), Some(replica), Some(hp)) =>
        if !ip(hp.host).Concrete? || PortNumber(hp.port).None? then None
        else Some(Peer(shard, replica, hp.host, PortNumber(hp.port).value))
      case _ => None
  }

  function PeerNotation(ip: IpParser): Notation<Peer> {
    Notation(raw => ParsePeer(ip, raw), PrintPeer)
  }

  /** How a printed member is cut apart. */
  lemma PrintedPeerPieces(p: Peer, addr: string)
    requires addr == JoinHostPort(p.host, Itoa(p.port)) && addr != "" && !IsSpace(addr[|addr| - 1])
    ensures var id := Itoa(p.shard) + "/" + Itoa(p.replica);
            && Cut(TrimSpace(PrintPeer(p)), '@') == CutResult(id, addr, true)
            && Cut(id, '/') == CutResult(Itoa(p.shard), Itoa(p.replica), true)
  {
    var s := PrintPeer(p);
    var id := Itoa(p.shard) + "/" + Itoa(p.replica);
    DigitsArePlain(Itoa(p.shard));
    DigitsArePlain(Itoa(p.replica));
    assert s == id + "@" + addr;
    assert s[0] == Itoa(p.shard)[0] && s[|s| - 1] == addr[|addr| - 1];
    TrimFixed(s);
    CutAt(id, '@', addr);
    CutAt(Itoa(p.shard), '/', Itoa(p.replica));
  }

  /** What reading makes of the pieces. */
  lemma ParsePeerPieces(ip: IpParser, raw: string, id: string, addr: string, first: string, second: string, hp: HostAndPort)
    requires Cut(TrimSpace(raw), '@') == CutResult(id, addr, true)
    requires Cut(id, '/') == CutResult(first, second, true)
    requires Positive(first).Some? && Positive(second).Some?
    requires SplitHostPort(addr) == Some(hp) && ip(hp.host).Concrete? && PortNumber(hp.port).Some?
    ensures ParsePeer(ip, raw)
         == Some(Peer(Positive(first).value, Positive(second).value, hp.host, PortNumber(hp.port).value))
  {
  }

  lemma NumbersReadBack(n: nat)
    requires 1 <= n <= MAX_INT
    ensures Positive(Itoa(n)) == Some(n)
    ensures n <= 65535 ==> PortNumber(Itoa(n)) == Some(n)
  {
    AtoiOfItoa(n);
  }

  /** Reading a printed member gives the member back. */
  lemma ParsePrintedPeer(ip: IpParser, p: Peer)
    requires Printed(ip, p.host, p.port) && ip(p.host).Concrete? && 1 <= p.port <= 65535
    requires 1 <= p.shard <= MAX_INT && 1 <= p.replica <= MAX_INT
    ensures ParsePeer(ip, PrintPeer(p)) == Some(p)
  {
    var addr := JoinHostPort(p.host, Itoa(p.port));
    PrintedPeerPieces(p, addr);
    NumbersReadBack(p.shard);
    NumbersReadBack(p.replica);
    NumbersReadBack(p.port);
    ParsePeerPieces(ip, PrintPeer(p), Itoa(p.shard) + "/" + Itoa(p.replica), addr,
                    Itoa(p.shard), Itoa(p.replica), HostAndPort(p.host, Itoa(p.port)));
  }

  lemma PeerNotationLawful(ip: IpParser)
    requires IpTexts(ip)
    ensures PeerNotation(ip).Lawful()
  {
    forall raw | ParsePeer(ip, raw).Some?
      ensures ParsePeer(ip, PrintPeer(ParsePeer(ip, raw).value)) == ParsePeer(ip, raw)
    {
      var p := ParsePeer(ip, raw).value;
      PrintedEndpoint(ip, p.host, p.port);
      ParsePrintedPeer(ip, p);
    }
  }

  /** The order `normalizeClickHouseClusterLists` sorts by. */
  function PeerLess(): (Peer, Peer) -> bool {
    (a: Peer, b: Peer) => a.shard < b.shard || (a.shard == b.shard && a.replica < b.replica)
  }

  // --- Keeper client endpoints ---------------------------------------------------------

  datatype Endpoint = Endpoint(host: string, port: nat)

  function PrintEndpoint(e: Endpoint): string {
    JoinHostPort(e.host, Itoa(e.port))
  }

  predicate PortInRange(n: int) {
    1 <= n <= 65535
  }

  /** `splitHostOptionalPort`: a bare address takes the default port. */
  function SplitHostOptionalPort(ip: IpParser, raw: string, defaultPort: int): (r: Option<Endpoint>) {
    var s := TrimSpace(raw);
    if s == "" then None
    else if ip(s) != NotIp || ':' !in s then
      if PortInRange(defaultPort) then Some(Endpoint(s, defaultPort)) else None
    else
      match SplitHostPort(s)
      case None => None
      case Some(hp) =>
        if hp.host == "" || PortNumber(hp.port).None? then None
        else Some(Endpoint(hp.host, PortNumber(hp.port).value))
  }

  function ParseEndpoint(ip: IpParser, raw: string, defaultPort: int): (r: Option<Endpoint>)
    ensures r.Some? ==> PortInRange(r.value.port) && ip(r.value.host).Concrete?
  {
    match SplitHostOptionalPort(ip, raw, defaultPort)
    case None => None
    case Some(e) => if ip(e.host).Concrete? && PortInRange(e.port) then Some(e) else None
  }

  function EndpointNotation(ip: IpParser, defaultPort: int): Notation<Endpoint> {
    Notation(raw => ParseEndpoint(ip, raw, defaultPort), PrintEndpoint)
  }

  /** A text whose address is written with a port: the default is not used. */
  predicate ExplicitPort(ip: IpParser, addr: string) {
    ip(TrimSpace(addr)) == NotIp
  }

  lemma PortOfItoa(n: nat)
    requires PortInRange(n)
    ensures PortNumber(Itoa(n)) == Some(n)
  {
    AtoiOfItoa(n);
  }

  lemma ParsePrintedEndpoint(ip: IpParser, e: Endpoint, defaultPort: int)
    requires Printed(ip, e.host, e.port) && ip(e.host).Concrete? && PortInRange(e.port)
    ensures ParseEndpoint(ip, PrintEndpoint(e), defaultPort) == Some(e)
    ensures ExplicitPort(ip, PrintEndpoint(e))
  {
    PortOfItoa(e.port);
    assert SplitHostOptionalPort(ip, PrintEndpoint(e), defaultPort) == Some(e);
  }

  lemma EndpointNotationLawful(ip: IpParser, defaultPort: int)
    requires IpTexts(ip)
    ensures EndpointNotation(ip, defaultPort).Lawful()
  {
    forall raw | ParseEndpoint(ip, raw, defaultPort).Some?
      ensures ParseEndpoint(ip, PrintEndpoint(ParseEndpoint(ip, raw, defaultPort).value), defaultPort)
           == ParseEndpoint(ip, raw, defaultPort)
    {
      var e := ParseEndpoint(ip, raw, defaultPort).value;
      PrintedEndpoint(ip, e.host, e.port);
      ParsePrintedEndpoint(ip, e, defaultPort);
    }
  }

  function EndpointLess(): (Endpoint, Endpoint) -> bool {
    (a: Endpoint, b: Endpoint) => Less(a.host, b.host) || (a.host == b.host && a.port < b.port)
  }

  // --- Keeper Raft members ---------------------------------------------------------------

  datatype KeeperPeer = KeeperPeer(id: nat, host: string, port: nat)

  function PrintKeeperPeer(p: KeeperPeer): string {
    Itoa(p.id) + "@" + JoinHostPort(p.host, Itoa(p.port))
  }

  function ParseKeeperPeer(ip: IpParser, raw: string, defaultPort: int): (r: Option<KeeperPeer>)
    ensures r.Some? ==>
      && 1 <= r.value.id <= MAX_INT && PortInRange(r.value.port) && ip(r.value.host).Concrete?
  {
    var at := Cut(TrimSpace(raw), '@');
    if !at.found then None
    else
      match (Positive(at.before), ParseEndpoint(ip, at.after, defaultPort))
      case (Some(id), Some(e)) => Some(KeeperPeer(id, e.host, e.port))
      case _ => None
  }

  function KeeperPeerNotation(ip: IpParser, defaultPort: int): Notation<KeeperPeer> {
    Notation(raw => ParseKeeperPeer(ip, raw, defaultPort), PrintKeeperPeer)
  }

  /** A `--peer` value that carries its own Raft port. */
  predicate ExplicitRaftPort(ip: IpParser, raw: string) {
    ExplicitPort(ip, Cut(TrimSpace(raw), '@').after)
  }

  lemma ParsePrintedKeeperPeer(ip: IpParser, p: KeeperPeer, defaultPort: int)
    requires Printed(ip, p.host, p.port) && ip(p.host).Concrete? && PortInRange(p.port) && 1 <= p.id <= MAX_INT
    ensures ParseKeeperPeer(ip, PrintKeeperPeer(p), defaultPort) == Some(p)
    ensures ExplicitRaftPort(ip, PrintKeeperPeer(p))
  {
    var s := PrintKeeperPeer(p);
    var addr := PrintEndpoint(Endpoint(p.host, p.port));
    ParsePrintedEndpoint(ip, Endpoint(p.host, p.port), defaultPort);
    DigitsArePlain(Itoa(p.id));
    assert s == Itoa(p.id) + "@" + addr;
    assert s[0] == Itoa(p.id)[0] && s[|s| - 1] == addr[|addr| - 1];
    TrimFixed(s);
    CutAt(Itoa(p.id), '@', addr);
    AtoiOfItoa(p.id);
  }

  lemma KeeperPeerNotationLawful(ip: IpParser, defaultPort: int)
    requires IpTexts(ip)
    ensures KeeperPeerNotation(ip, defaultPort).Lawful()
  {
    forall raw | ParseKeeperPeer(ip, raw, defaultPort).Some?
      ensures ParseKeeperPeer(ip, PrintKeeperPeer(ParseKeeperPeer(ip, raw, defaultPort).value), defaultPort)
           == ParseKeeperPeer(ip, raw, defaultPort)
    {
      var p := ParseKeeperPeer(ip, raw, defaultPort).value;
      PrintedEndpoint(ip, p.host, p.port);
      ParsePrintedKeeperPeer(ip, p, defaultPort);
    }
  }

  /** With an explicit port the default does not matter; without one it is the port read. */
  lemma DefaultPortMatters(ip: IpParser, raw: string, d1: int, d2: int)
    requires ParseKeeperPeer(ip, raw, d1).Some?
    ensures ExplicitRaftPort(ip, raw) ==> ParseKeeperPeer(ip, raw, d2) == ParseKeeperPeer(ip, raw, d1)
    ensures !ExplicitRaftPort(ip, raw) ==> ParseKeeperPeer(ip, raw, d1).value.port == d1
    ensures !ExplicitRaftPort(ip, raw) && PortInRange(d2) ==>
              ParseKeeperPeer(ip, raw, d2) == Some(ParseKeeperPeer(ip, raw, d1).value.(port := d2))
  {
  }

  function KeeperPeerLess(): (KeeperPeer, KeeperPeer) -> bool {
    (a: KeeperPeer, b: KeeperPeer) => a.id < b.id
  }
}
