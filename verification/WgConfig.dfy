/** pkg/wg/wgapi/wgconfig: server and client configurations and the texts they print. */
module WgConfig {
  import opened Prelude
  import opened Ipc
  import IpcText
  import Address
  import Decimal
  import Hex

  type byte = Hex.byte

  // ---- Configurations as values ----

  datatype PeerConfig = PeerConfig(public: seq<byte>, preShared: seq<byte>, allowedIPs: seq<Address.IPNet>)

  datatype ServerConfig = ServerConfig(private: seq<byte>, listenPort: nat, peers: seq<PeerConfig>)

  datatype ClientConfig = ClientConfig(private: seq<byte>, public: seq<byte>, preShared: seq<byte>,
    endpoint: Address.UDPAddr, keepalive: Option<nat>, allowedIPs: seq<Address.IPNet>)

  /** Go's array and integer types, and IPv4 subnets. */
  predicate IsKey(k: seq<byte>) {
    |k| == Hex.KEY_LENGTH
  }

  predicate AreV4(nets: seq<Address.IPNet>) {
    forall i :: 0 <= i < |nets| ==> Address.IsV4(nets[i])
  }

  predicate TypedPeer(p: PeerConfig) {
    IsKey(p.public) && IsKey(p.preShared) && AreV4(p.allowedIPs)
  }

  predicate TypedPeers(peers: seq<PeerConfig>) {
    forall i :: 0 <= i < |peers| ==> TypedPeer(peers[i])
  }

  predicate TypedServer(cfg: ServerConfig) {
    IsKey(cfg.private) && cfg.listenPort < Decimal.TWO_TO_16 && TypedPeers(cfg.peers)
  }

  predicate TypedClient(cfg: ClientConfig) {
    && IsKey(cfg.private) && IsKey(cfg.public) && IsKey(cfg.preShared)
    && Address.To4(cfg.endpoint.ip).Some?
    && (cfg.keepalive.Some? ==> cfg.keepalive.value < Decimal.TWO_TO_16)
    && AreV4(cfg.allowedIPs)
  }

  // ---- The entries of a configuration ----

  function AllowedEntries(nets: seq<Address.IPNet>): (r: seq<Entry>)
    ensures |r| == |nets|
  {
    seq(|nets|, i requires 0 <= i < |nets| => Entry(AllowedIP, Net(nets[i])))
  }

  function PeerEntries(p: PeerConfig): seq<Entry> {
    [Entry(PublicKey, Bytes(p.public)), Entry(PresharedKey, Bytes(p.preShared))] + AllowedEntries(p.allowedIPs)
  }

  function PeersEntries(peers: seq<PeerConfig>): seq<Entry> {
    if peers == [] then [] else PeersEntries(peers[..|peers| - 1]) + PeerEntries(peers[|peers| - 1])
  }

  function ServerHead(private: seq<byte>, listenPort: nat): seq<Entry> {
    [Entry(PrivateKey, Bytes(private)), Entry(ListenPort, Num(listenPort))]
  }

  function ServerEntries(cfg: ServerConfig): seq<Entry> {
    ServerHead(cfg.private, cfg.listenPort) + PeersEntries(cfg.peers)
  }

  function ClientHead(cfg: ClientConfig): seq<Entry> {
    [Entry(PrivateKey, Bytes(cfg.private)),
     Entry(ReplacePeers, Constant),
     Entry(PublicKey, Bytes(cfg.public)),
     Entry(Endpoint, Addr(cfg.endpoint)),
     Entry(PresharedKey, Bytes(cfg.preShared))]
  }

  function KeepaliveEntries(keepalive: Option<nat>): seq<Entry> {
    if keepalive.Some? then [Entry(PersistentKeepalive, Num(keepalive.value))] else []
  }

  function ClientEntries(cfg: ClientConfig): seq<Entry> {
    ClientHead(cfg) + KeepaliveEntries(cfg.keepalive) + AllowedEntries(cfg.allowedIPs)
  }

  lemma PeerTyped(p: PeerConfig)
    requires TypedPeer(p)
    ensures AllTyped(PeerEntries(p))
  {
  }

  lemma ClientTyped(cfg: ClientConfig)
    requires TypedClient(cfg)
    ensures AllTyped(ClientHead(cfg)) && AllTyped(KeepaliveEntries(cfg.keepalive))
    ensures AllTyped(AllowedEntries(cfg.allowedIPs)) && AllTyped(ClientEntries(cfg))
  {
  }

  // ---- The texts themselves ----

  function AllowedText(nets: seq<Address.IPNet>): string
    requires AreV4(nets)
  {
    if nets == [] then ""
    else AllowedText(nets[..|nets| - 1]) + "allowed_ip=" + Address.PrintNet(nets[|nets| - 1]) + "\n"
  }

  function PeerText(p: PeerConfig): string
    requires TypedPeer(p)
  {
    "public_key=" + Hex.Encode(p.public) + "\n"
    + "preshared_key=" + Hex.Encode(p.preShared) + "\n"
    + AllowedText(p.allowedIPs)
  }

  function PeersText(peers: seq<PeerConfig>): string
    requires TypedPeers(peers)
  {
    if peers == [] then "" else PeersText(peers[..|peers| - 1]) + PeerText(peers[|peers| - 1])
  }

  function ServerText(cfg: ServerConfig): string
    requires TypedServer(cfg)
  {
    "private_key=" + Hex.Encode(cfg.private) + "\n"
    + "listen_port=" + Decimal.Print(cfg.listenPort) + "\n"
    + PeersText(cfg.peers)
  }

  function KeepaliveText(keepalive: Option<nat>): string {
    if keepalive.Some? then "persistent_keepalive_interval=" + Decimal.Print(keepalive.value) + "\n" else ""
  }

  function ClientText(cfg: ClientConfig): string
    requires TypedClient(cfg)
  {
    "private_key=" + Hex.Encode(cfg.private) + "\n"
    + "replace_peers=true\n"
    + "public_key=" + Hex.Encode(cfg.public) + "\n"
    + "endpoint=" + Address.PrintAddr(cfg.endpoint) + "\n"
    + "preshared_key=" + Hex.Encode(cfg.preShared) + "\n"
    + KeepaliveText(cfg.keepalive)
    + AllowedText(cfg.allowedIPs)
  }

  /** One more entry, with its text. */
  lemma TextGrows(front: seq<Entry>, e: Entry, whole: seq<Entry>, text: string, line: string)
    requires AllTyped(front) && AllTyped([e]) && whole == front + [e]
    requires Encode(front) == text && Encode([e]) == line
    ensures AllTyped(whole) && Encode(whole) == text + line
  {
    EncodeGrows(front, [e], whole);
  }

  lemma {:induction false} AllowedTextIs(nets: seq<Address.IPNet>)
    requires AreV4(nets)
    ensures AllTyped(AllowedEntries(nets)) && Encode(AllowedEntries(nets)) == AllowedText(nets)
  {
    if nets == [] {
      assert Encode([]) == "";
    } else {
      var last := |nets| - 1;
      AllowedTextIs(nets[..last]);
      AllowedLast(nets);
      AllowedNext(AllowedEntries(nets[..last]), nets[last], AllowedEntries(nets), AllowedText(nets[..last]));
    }
  }

  lemma AllowedLast(nets: seq<Address.IPNet>)
    requires nets != []
    ensures AllowedEntries(nets) ==
            AllowedEntries(nets[..|nets| - 1]) + [Entry(AllowedIP, Net(nets[|nets| - 1]))]
  {
  }

  lemma AllowedNext(front: seq<Entry>, net: Address.IPNet, whole: seq<Entry>, text: string)
    requires AllTyped(front) && Encode(front) == text && Address.IsV4(net)
    requires whole == front + [Entry(AllowedIP, Net(net))]
    ensures AllTyped(whole) && Encode(whole) == text + "allowed_ip=" + Address.PrintNet(net) + "\n"
  {
    IpcText.AllowedLine(net);
    TextGrows(front, Entry(AllowedIP, Net(net)), whole, text, "allowed_ip=" + Address.PrintNet(net) + "\n");
    Joined(text, "allowed_ip=", Address.PrintNet(net));
  }

  lemma Joined(text: string, prefix: string, value: string)
    ensures text + (prefix + value + "\n") == text + prefix + value + "\n"
  {
  }

  lemma PeerTextIs(p: PeerConfig)
    requires TypedPeer(p)
    ensures AllTyped(PeerEntries(p)) && Encode(PeerEntries(p)) == PeerText(p)
  {
    var public, preShared := Entry(PublicKey, Bytes(p.public)), Entry(PresharedKey, Bytes(p.preShared));
    IpcText.KeyLines(p.public);
    IpcText.KeyLines(p.preShared);
    TextGrows([public], preShared, [public, preShared],
      "public_key=" + Hex.Encode(p.public) + "\n", "preshared_key=" + Hex.Encode(p.preShared) + "\n");
    AllowedTextIs(p.allowedIPs);
    EncodeGrows([public, preShared], AllowedEntries(p.allowedIPs), PeerEntries(p));
    Joined("public_key=" + Hex.Encode(p.public) + "\n", "preshared_key=", Hex.Encode(p.preShared));
  }

  lemma {:induction false} PeersTextIs(peers: seq<PeerConfig>)
    requires TypedPeers(peers)
    ensures AllTyped(PeersEntries(peers)) && Encode(PeersEntries(peers)) == PeersText(peers)
  {
    if peers == [] {
      assert Encode([]) == "";
    } else {
      var last := |peers| - 1;
      PeersTextIs(peers[..last]);
      PeerTextIs(peers[last]);
      EncodeGrows(PeersEntries(peers[..last]), PeerEntries(peers[last]), PeersEntries(peers));
    }
  }

  /** The text of a server, line by line. */
  lemma ServerTextIs(cfg: ServerConfig)
    requires TypedServer(cfg)
    ensures AllTyped(ServerEntries(cfg)) && Encode(ServerEntries(cfg)) == ServerText(cfg)
  {
    var private, port := Entry(PrivateKey, Bytes(cfg.private)), Entry(ListenPort, Num(cfg.listenPort));
    IpcText.KeyLines(cfg.private);
    IpcText.UnsignedLines(cfg.listenPort);
    TextGrows([private], port, [private, port],
      "private_key=" + Hex.Encode(cfg.private) + "\n", "listen_port=" + Decimal.Print(cfg.listenPort) + "\n");
    PeersTextIs(cfg.peers);
    EncodeGrows([private, port], PeersEntries(cfg.peers), ServerEntries(cfg));
    Joined("private_key=" + Hex.Encode(cfg.private) + "\n", "listen_port=", Decimal.Print(cfg.listenPort));
  }

  lemma KeepaliveTextIs(keepalive: Option<nat>)
    requires keepalive.Some? ==> keepalive.value < Decimal.TWO_TO_16
    ensures AllTyped(KeepaliveEntries(keepalive)) && Encode(KeepaliveEntries(keepalive)) == KeepaliveText(keepalive)
  {
    if keepalive.Some? {
      IpcText.UnsignedLines(keepalive.value);
    } else {
      assert Encode([]) == "";
    }
  }

  lemma ClientHeadTextIs(cfg: ClientConfig)
    requires TypedClient(cfg)
    ensures AllTyped(ClientHead(cfg))
    ensures Encode(ClientHead(cfg)) ==
      "private_key=" + Hex.Encode(cfg.private) + "\n" + "replace_peers=true\n"
      + "public_key=" + Hex.Encode(cfg.public) + "\n"
      + "endpoint=" + Address.PrintAddr(cfg.endpoint) + "\n"
      + "preshared_key=" + Hex.Encode(cfg.preShared) + "\n"
  {
    var h := ClientHead(cfg);
    IpcText.KeyLines(cfg.private);
    IpcText.KeyLines(cfg.public);
    IpcText.KeyLines(cfg.preShared);
    IpcText.TrueLines();
    IpcText.EndpointLine(cfg.endpoint);
    var t1 := "private_key=" + Hex.Encode(cfg.private) + "\n";
    var t2 := t1 + "replace_peers=true\n";
    var t3 := t2 + "public_key=" + Hex.Encode(cfg.public) + "\n";
    var t4 := t3 + "endpoint=" + Address.PrintAddr(cfg.endpoint) + "\n";
    TextGrows([h[0]], h[1], [h[0], h[1]], t1, "replace_peers=true\n");
    Joined(t2, "public_key=", Hex.Encode(cfg.public));
    TextGrows([h[0], h[1]], h[2], [h[0], h[1], h[2]], t2, "public_key=" + Hex.Encode(cfg.public) + "\n");
    Joined(t3, "endpoint=", Address.PrintAddr(cfg.endpoint));
    TextGrows([h[0], h[1], h[2]], h[3], [h[0], h[1], h[2], h[3]], t3, "endpoint=" + Address.PrintAddr(cfg.endpoint) + "\n");
    Joined(t4, "preshared_key=", Hex.Encode(cfg.preShared));
    TextGrows([h[0], h[1], h[2], h[3]], h[4], h, t4, "preshared_key=" + Hex.Encode(cfg.preShared) + "\n");
  }

  /** The text of a client, line by line. */
  lemma ClientTextIs(cfg: ClientConfig)
    requires TypedClient(cfg)
    ensures AllTyped(ClientEntries(cfg)) && Encode(ClientEntries(cfg)) == ClientText(cfg)
  {
    ClientHeadTextIs(cfg);
    KeepaliveTextIs(cfg.keepalive);
    AllowedTextIs(cfg.allowedIPs);
    var front := ClientHead(cfg) + KeepaliveEntries(cfg.keepalive);
    EncodeGrows(ClientHead(cfg), KeepaliveEntries(cfg.keepalive), front);
    EncodeGrows(front, AllowedEntries(cfg.allowedIPs), ClientEntries(cfg));
  }

  // ---- The objects ----

  class Peer {
    var public: seq<byte>
    var preShared: seq<byte>
    var allowedIPs: seq<Address.IPNet>

    function Config(): PeerConfig
      reads this
    {
      PeerConfig(public, preShared, allowedIPs)
    }

    constructor (public: seq<byte>, preShared: seq<byte>, allowedIPs: seq<Address.IPNet>)
      ensures Config() == PeerConfig(public, preShared, allowedIPs)
    {
      this.public, this.preShared, this.allowedIPs := public, preShared, allowedIPs;
    }

    method WGConfig() returns (text: string)
      requires TypedPeer(Config())
      ensures AllTyped(PeerEntries(Config())) && text == Encode(PeerEntries(Config())) == PeerText(Config())
    {
      var ipc := [];
      var i := 0;
      while i < |allowedIPs|
        invariant 0 <= i <= |allowedIPs|
        invariant ipc == AllowedEntries(allowedIPs[..i])
      {
        ipc := ipc + [Entry(AllowedIP, Net(allowedIPs[i]))];
        i := i + 1;
      }
      assert allowedIPs[..i] == allowedIPs;
      PeerTyped(Config());
      PeerTextIs(Config());
      text := Ipc.WGConfig([Entry(PublicKey, Bytes(public)), Entry(PresharedKey, Bytes(preShared))] + ipc);
    }
  }

  ghost function Configs(peers: seq<Peer>): seq<PeerConfig>
    reads set p | p in peers
  {
    if peers == [] then [] else Configs(peers[..|peers| - 1]) + [peers[|peers| - 1].Config()]
  }

  class Server {
    var private: seq<byte>
    var listenPort: nat
    var peers: seq<Peer>

    ghost function Config(): ServerConfig
      reads this, peers
    {
      ServerConfig(private, listenPort, Configs(peers))
    }

    constructor (private: seq<byte>, listenPort: nat)
      ensures peers == [] && Config() == ServerConfig(private, listenPort, [])
    {
      this.private, this.listenPort, this.peers := private, listenPort, [];
    }

    /** Every call adds one peer at the end, with the identity subnet of its address. */
    method AddPeer(publicKey: seq<byte>, preShared: seq<byte>, ip: seq<byte>)
      modifies this
      ensures |peers| == |old(peers)| + 1 && old(peers) <= peers && fresh(peers[|old(peers)|])
      ensures Config() == old(Config()).(peers := old(Config()).peers
        + [PeerConfig(publicKey, preShared, [Address.IdentitySubnet(ip)])])
    {
      var peer := new Peer(publicKey, preShared, [Address.IdentitySubnet(ip)]);
      peers := peers + [peer];
      assert peers[..|peers| - 1] == old(peers);
      assert Configs(old(peers)) == old(Configs(peers));
    }

    /** The head's text and then the text of every peer, in order. */
    method WGConfig() returns (conf: string)
      requires TypedServer(Config())
      ensures AllTyped(ServerEntries(Config())) && conf == Encode(ServerEntries(Config())) == ServerText(Config())
    {
      PrintedHead(private, listenPort);
      ghost var head := ServerHead(private, listenPort);
      conf := Ipc.WGConfig([Entry(PrivateKey, Bytes(private)), Entry(ListenPort, Num(listenPort))]);
      var i := 0;
      while i < |peers|
        invariant 0 <= i <= |peers|
        invariant Printed(conf, head, Configs(peers[..i]))
      {
        PeerAt(this, i);
        var text := peers[i].WGConfig();
        PrintedNext(conf, head, peers, i, text);
        conf := conf + text;
        i := i + 1;
      }
      TakeAll(peers);
      ServerTextIs(Config());
    }
  }

  /** The text so far: the head and the given peers. */
  ghost predicate Printed(conf: string, head: seq<Entry>, configs: seq<PeerConfig>) {
    AllTyped(head + PeersEntries(configs)) && conf == Encode(head + PeersEntries(configs))
  }

  lemma PrintedHead(private: seq<byte>, listenPort: nat)
    requires IsKey(private) && listenPort < Decimal.TWO_TO_16
    ensures AllTyped(ServerHead(private, listenPort))
    ensures Printed(Encode(ServerHead(private, listenPort)), ServerHead(private, listenPort), [])
  {
    assert ServerHead(private, listenPort) + [] == ServerHead(private, listenPort);
  }

  lemma PrintedNext(conf: string, head: seq<Entry>, peers: seq<Peer>, i: nat, text: string)
    requires i < |peers| && Printed(conf, head, Configs(peers[..i]))
    requires AllTyped(PeerEntries(peers[i].Config())) && text == Encode(PeerEntries(peers[i].Config()))
    ensures Printed(conf + text, head, Configs(peers[..i + 1]))
  {
    HeadStays(head, peers, i);
    var more := Grown(head + PeersEntries(Configs(peers[..i])), PeerEntries(peers[i].Config()));
  }

  lemma {:induction false} ConfigsAt(peers: seq<Peer>, i: nat)
    requires i < |peers|
    ensures |Configs(peers)| == |peers| && Configs(peers)[i] == peers[i].Config()
  {
    if |peers| > 1 && i < |peers| - 1 {
      ConfigsAt(peers[..|peers| - 1], i);
    } else if |peers| > 1 {
      ConfigsAt(peers[..|peers| - 1], 0);
    }
  }

  lemma PeerAt(server: Server, i: nat)
    requires TypedServer(server.Config()) && i < |server.peers|
    ensures TypedPeer(server.peers[i].Config())
  {
    ConfigsAt(server.peers, i);
    assert TypedPeer(Configs(server.peers)[i]);
  }

  lemma Grown(entries: seq<Entry>, peer: seq<Entry>) returns (more: seq<Entry>)
    requires AllTyped(entries) && AllTyped(peer)
    ensures more == entries + peer
    ensures AllTyped(more) && Encode(more) == Encode(entries) + Encode(peer)
  {
    more := entries + peer;
    EncodeGrows(entries, peer, more);
  }

  lemma HeadStays(head: seq<Entry>, peers: seq<Peer>, i: nat)
    requires i < |peers|
    ensures head + PeersEntries(Configs(peers[..i])) + PeerEntries(peers[i].Config()) ==
            head + PeersEntries(Configs(peers[..i + 1]))
  {
    PeersNext(peers, i);
    Associate(head, PeersEntries(Configs(peers[..i])), PeerEntries(peers[i].Config()));
  }

  lemma Associate(a: seq<Entry>, b: seq<Entry>, c: seq<Entry>)
    ensures (a + b) + c == a + (b + c)
  {
  }

  lemma PeersNext(peers: seq<Peer>, i: nat)
    requires i < |peers|
    ensures PeersEntries(Configs(peers[..i + 1])) ==
            PeersEntries(Configs(peers[..i])) + PeerEntries(peers[i].Config())
  {
    var front := Configs(peers[..i]);
    assert peers[..i + 1][..i] == peers[..i];
    assert (front + [peers[i].Config()])[..|front|] == front;
  }

  /** 0.0.0.0/0 */
  const EMPTY_SUBNET: Address.IPNet := Address.IPNet([0, 0, 0, 0], [0, 0, 0, 0])

  lemma EmptySubnetText()
    ensures Address.IsV4(EMPTY_SUBNET) && Address.PrintNet(EMPTY_SUBNET) == "0.0.0.0/0"
  {
    var zeros: seq<byte> := [0, 0, 0, 0];
    Address.ZeroMask(4);
    assert Address.CIDRMask(0, 4) == zeros;
    Address.NetText(EMPTY_SUBNET, 0);
    Address.QuadText(0, 0, 0, 0);
    Decimal.Numerals(0);
  }

  const DEFAULT_PERSISTENT_KEEPALIVE: nat := 25

  class Client {
    var private: seq<byte>
    var public: seq<byte>
    var preShared: seq<byte>
    var endpoint: Address.UDPAddr
    var persistentKeepalive: Option<nat>
    var allowedIPs: seq<Address.IPNet>

    function Config(): ClientConfig
      reads this
    {
      ClientConfig(private, public, preShared, endpoint, persistentKeepalive, allowedIPs)
    }

    constructor (private: seq<byte>, public: seq<byte>, preShared: seq<byte>, endpoint: Address.UDPAddr)
      ensures Config() == ClientConfig(private, public, preShared, endpoint, None, [])
    {
      this.private, this.public, this.preShared, this.endpoint := private, public, preShared, endpoint;
      persistentKeepalive, allowedIPs := None, [];
    }

    method AllowAllIPs()
      modifies this`allowedIPs
      ensures Config() == old(Config()).(allowedIPs := [EMPTY_SUBNET])
    {
      allowedIPs := [EMPTY_SUBNET];
    }

    method DefaultPersistentKeepAlive()
      modifies this`persistentKeepalive
      ensures Config() == old(Config()).(keepalive := Some(25))
    {
      persistentKeepalive := Some(DEFAULT_PERSISTENT_KEEPALIVE);
    }

    method WGConfig() returns (conf: string)
      requires TypedClient(Config())
      ensures AllTyped(ClientEntries(Config())) && conf == Encode(ClientEntries(Config())) == ClientText(Config())
    {
      ghost var cfg := Config();
      ghost var entries := ClientHead(cfg);
      ClientTyped(cfg);
      ClientTextIs(cfg);
      conf := Ipc.WGConfig([
        Entry(PrivateKey, Bytes(private)), Entry(ReplacePeers, Constant), Entry(PublicKey, Bytes(public)),
        Entry(Endpoint, Addr(endpoint)), Entry(PresharedKey, Bytes(preShared))]);
      if persistentKeepalive.Some? {
        var text := Ipc.WGConfig([Entry(PersistentKeepalive, Num(persistentKeepalive.value))]);
        conf := conf + text;
      }
      ghost var front := entries + KeepaliveEntries(cfg.keepalive);
      EncodeGrows(entries, KeepaliveEntries(cfg.keepalive), front);
      assert cfg.keepalive.None? ==> front == entries;
      entries := front;
      var i := 0;
      while i < |allowedIPs|
        invariant 0 <= i <= |allowedIPs|
        invariant entries == front + AllowedEntries(allowedIPs[..i])
        invariant AllTyped(entries) && conf == Encode(entries)
      {
        AllowedTyped(allowedIPs[i]);
        var text := Ipc.WGConfig([Entry(AllowedIP, Net(allowedIPs[i]))]);
        NextAllowed(front, allowedIPs, i);
        ghost var more := entries + AllowedEntries([allowedIPs[i]]);
        EncodeGrows(entries, AllowedEntries([allowedIPs[i]]), more);
        conf, entries := conf + text, more;
        i := i + 1;
      }
      assert allowedIPs[..i] == allowedIPs;
    }
  }

  lemma AllowedTyped(net: Address.IPNet)
    requires Address.IsV4(net)
    ensures AllTyped(AllowedEntries([net]))
    ensures AllowedEntries([net]) == [Entry(AllowedIP, Net(net))]
  {
  }

  lemma NextAllowed(front: seq<Entry>, nets: seq<Address.IPNet>, i: nat)
    requires i < |nets|
    ensures front + AllowedEntries(nets[..i + 1]) == front + AllowedEntries(nets[..i]) + AllowedEntries([nets[i]])
  {
  }
}
