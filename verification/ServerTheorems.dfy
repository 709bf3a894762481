/** Reading back what Server.WGConfig prints. */
module ServerTheorems {
  import opened Prelude
  import opened Text
  import opened Ipc
  import opened IpcTheorems
  import opened WgConfig
  import Injective
  import Address
  import Decimal
  import Hex

  // ---- Grouping entries into peers ----

  /** How many entries stand before the next public_key. */
  function GroupLength(entries: seq<Entry>): (n: nat)
    ensures n <= |entries|
    ensures forall i :: 0 <= i < n ==> !entries[i].key.PublicKey?
    ensures n < |entries| ==> entries[n].key.PublicKey?
  {
    if entries == [] || entries[0].key.PublicKey? then 0 else 1 + GroupLength(entries[1..])
  }

  /** What an entry after public_key says about its peer. */
  function Attribute(p: PeerConfig, e: Entry): PeerConfig {
    if e.key.PresharedKey? && e.value.Bytes? then p.(preShared := e.value.key)
    else if e.key.AllowedIP? && e.value.Net? then p.(allowedIPs := p.allowedIPs + [e.value.net])
    else p
  }

  function Attributes(p: PeerConfig, entries: seq<Entry>): PeerConfig {
    if entries == [] then p else Attribute(Attributes(p, entries[..|entries| - 1]), entries[|entries| - 1])
  }

  /** Every public_key begins a peer; the entries up to the next one describe it. */
  function Groups(entries: seq<Entry>): Option<seq<PeerConfig>>
    decreases |entries|
  {
    if entries == [] then Some([])
    else if !(entries[0].key.PublicKey? && entries[0].value.Bytes?) then None
    else
      var rest := entries[1..];
      var n := GroupLength(rest);
      var peers := Groups(rest[n..]);
      if peers.None? then None
      else Some([Attributes(PeerConfig(entries[0].value.key, [], []), rest[..n])] + peers.value)
  }

  /** The server a list of entries describes. */
  function Regroup(entries: seq<Entry>): Option<ServerConfig> {
    if |entries| >= 2
       && entries[0].key.PrivateKey? && entries[0].value.Bytes?
       && entries[1].key.ListenPort? && entries[1].value.Num? && entries[1].value.n >= 0
       && Groups(entries[2..]).Some?
    then Some(ServerConfig(entries[0].value.key, entries[1].value.n, Groups(entries[2..]).value))
    else None
  }

  lemma {:induction false} GroupEnds(group: seq<Entry>, rest: seq<Entry>)
    requires forall i :: 0 <= i < |group| ==> !group[i].key.PublicKey?
    requires rest == [] || rest[0].key.PublicKey?
    ensures GroupLength(group + rest) == |group|
  {
    if group == [] {
      assert group + rest == rest;
    } else {
      GroupEnds(group[1..], rest);
      assert (group + rest)[1..] == group[1..] + rest;
    }
  }

  lemma {:induction false} AttributesOfAllowed(p: PeerConfig, nets: seq<Address.IPNet>)
    ensures Attributes(p, AllowedEntries(nets)) == p.(allowedIPs := p.allowedIPs + nets)
  {
    if nets == [] {
      assert p.allowedIPs + nets == p.allowedIPs;
    } else {
      var last := |nets| - 1;
      AttributesOfAllowed(p, nets[..last]);
      assert AllowedEntries(nets)[..last] == AllowedEntries(nets[..last]);
      assert p.allowedIPs + nets == p.allowedIPs + nets[..last] + [nets[last]];
    }
  }

  lemma {:induction false} AttributesAppend(p: PeerConfig, a: seq<Entry>, b: seq<Entry>)
    ensures Attributes(p, a + b) == Attributes(Attributes(p, a), b)
  {
    if b == [] {
      assert a + b == a;
    } else {
      var last := |b| - 1;
      assert (a + b)[..|a + b| - 1] == a + b[..last];
      AttributesAppend(p, a, b[..last]);
    }
  }

  lemma AttributesOfPeer(p: PeerConfig)
    ensures Attributes(PeerConfig(p.public, [], []), PeerEntries(p)[1..]) == p
  {
    var start := PeerConfig(p.public, [], []);
    var psk := [Entry(PresharedKey, Bytes(p.preShared))];
    assert PeerEntries(p)[1..] == psk + AllowedEntries(p.allowedIPs);
    AttributesAppend(start, psk, AllowedEntries(p.allowedIPs));
    assert psk[..0] == [];
    assert Attributes(start, psk) == start.(preShared := p.preShared);
    AttributesOfAllowed(start.(preShared := p.preShared), p.allowedIPs);
    assert [] + p.allowedIPs == p.allowedIPs;
  }

  lemma {:induction false} PeersFront(peers: seq<PeerConfig>)
    requires peers != []
    ensures PeersEntries(peers) == PeerEntries(peers[0]) + PeersEntries(peers[1..])
  {
    var last := |peers| - 1;
    if last == 0 {
      assert PeersEntries(peers[..0]) == [];
    } else {
      PeersFront(peers[..last]);
      var middle := peers[1..][..last - 1];
      assert peers[..last][1..] == middle && peers[1..][last - 1] == peers[last];
      PeersLast(peers);
      PeersLast(peers[1..]);
      Associate(PeerEntries(peers[0]), PeersEntries(middle), PeerEntries(peers[last]));
    }
  }

  lemma PeersLast(peers: seq<PeerConfig>)
    requires peers != []
    ensures PeersEntries(peers) == PeersEntries(peers[..|peers| - 1]) + PeerEntries(peers[|peers| - 1])
  {
  }

  lemma GroupsCons(p: PeerConfig, more: seq<Entry>, peers: seq<PeerConfig>, whole: seq<Entry>, all: seq<PeerConfig>)
    requires more == [] || more[0].key.PublicKey?
    requires Groups(more) == Some(peers)
    requires whole == PeerEntries(p) + more && all == [p] + peers
    ensures Groups(whole) == Some(all)
  {
    var head, group := Entry(PublicKey, Bytes(p.public)), PeerEntries(p)[1..];
    assert PeerEntries(p) == [head] + group;
    GroupsStep(head, group, more, peers, whole);
    AttributesOfPeer(p);
  }

  lemma GroupsStep(head: Entry, group: seq<Entry>, more: seq<Entry>, peers: seq<PeerConfig>, whole: seq<Entry>)
    requires head.key.PublicKey? && head.value.Bytes?
    requires forall i :: 0 <= i < |group| ==> !group[i].key.PublicKey?
    requires more == [] || more[0].key.PublicKey?
    requires Groups(more) == Some(peers) && whole == [head] + group + more
    ensures Groups(whole) == Some([Attributes(PeerConfig(head.value.key, [], []), group)] + peers)
  {
    GroupEnds(group, more);
    SliceTail(head, group, more);
    GroupsUnfold(whole, group + more, group, more);
  }

  lemma SliceTail(head: Entry, group: seq<Entry>, more: seq<Entry>)
    ensures ([head] + group + more)[1..] == group + more
    ensures (group + more)[..|group|] == group && (group + more)[|group|..] == more
  {
  }

  lemma GroupsUnfold(entries: seq<Entry>, rest: seq<Entry>, group: seq<Entry>, more: seq<Entry>)
    requires entries != [] && entries[0].key.PublicKey? && entries[0].value.Bytes?
    requires rest == entries[1..] && GroupLength(rest) == |group| <= |rest|
    requires rest[..|group|] == group && rest[|group|..] == more && Groups(more).Some?
    ensures Groups(entries) ==
            Some([Attributes(PeerConfig(entries[0].value.key, [], []), group)] + Groups(more).value)
  {
  }

  lemma PeersStart(peers: seq<PeerConfig>)
    ensures PeersEntries(peers) == [] || PeersEntries(peers)[0].key.PublicKey?
  {
    if peers != [] {
      PeersFront(peers);
    }
  }

  lemma {:induction false} GroupsOfPeers(peers: seq<PeerConfig>)
    ensures Groups(PeersEntries(peers)) == Some(peers)
    decreases |peers|
  {
    if peers == [] {
    } else {
      PeersFront(peers);
      GroupsOfPeers(peers[1..]);
      PeersStart(peers[1..]);
      assert peers == [peers[0]] + peers[1..];
      GroupsCons(peers[0], PeersEntries(peers[1..]), peers[1..], PeersEntries(peers), peers);
    }
  }

  /** Grouping the entries of a server gives the server back. */
  lemma RegroupEntries(cfg: ServerConfig)
    ensures Regroup(ServerEntries(cfg)) == Some(cfg)
  {
    GroupsOfPeers(cfg.peers);
    assert ServerEntries(cfg)[2..] == PeersEntries(cfg.peers);
  }

  // ---- The canonical form of a configuration ----

  function CanonicalNets(nets: seq<Address.IPNet>): (r: seq<Address.IPNet>)
    requires AreV4(nets)
    ensures |r| == |nets|
  {
    seq(|nets|, i requires 0 <= i < |nets| => Address.CanonicalNet(nets[i]))
  }

  function CanonicalPeer(p: PeerConfig): PeerConfig
    requires TypedPeer(p)
  {
    p.(allowedIPs := CanonicalNets(p.allowedIPs))
  }

  function CanonicalPeers(peers: seq<PeerConfig>): (r: seq<PeerConfig>)
    requires TypedPeers(peers)
    ensures |r| == |peers|
  {
    seq(|peers|, i requires 0 <= i < |peers| => CanonicalPeer(peers[i]))
  }

  /** Every subnet masked and in four bytes. */
  function CanonicalServer(cfg: ServerConfig): ServerConfig
    requires TypedServer(cfg)
  {
    cfg.(peers := CanonicalPeers(cfg.peers))
  }

  predicate AreContiguous(nets: seq<Address.IPNet>)
    requires AreV4(nets)
  {
    forall i :: 0 <= i < |nets| ==> Address.SimpleMaskLength(Address.Mask4(nets[i])).Some?
  }

  predicate ContiguousPeers(peers: seq<PeerConfig>)
    requires TypedPeers(peers)
  {
    forall i :: 0 <= i < |peers| ==> AreContiguous(peers[i].allowedIPs)
  }

  predicate ContiguousServer(cfg: ServerConfig)
    requires TypedServer(cfg)
  {
    ContiguousPeers(cfg.peers)
  }

  lemma ListAppend(a: seq<Entry>, b: seq<Entry>)
    requires AllTyped(a) && AllTyped(b)
    ensures AllTyped(a + b)
    ensures CanonicalList(a + b) == CanonicalList(a) + CanonicalList(b)
    ensures AllSurvive(a + b) <==> AllSurvive(a) && AllSurvive(b)
  {
    var whole := a + b;
    forall k | 0 <= k < |whole|
      ensures CanonicalList(whole)[k] == (CanonicalList(a) + CanonicalList(b))[k]
    {
      assert whole[k] == if k < |a| then a[k] else b[k - |a|];
    }
    SurviveAppend(a, b);
  }

  lemma SurviveAppend(a: seq<Entry>, b: seq<Entry>)
    requires AllTyped(a) && AllTyped(b) && AllTyped(a + b)
    ensures AllSurvive(a + b) <==> AllSurvive(a) && AllSurvive(b)
  {
    forall k | 0 <= k < |a|
      ensures (a + b)[k] == a[k]
    {
    }
    forall k | 0 <= k < |b|
      ensures (a + b)[|a| + k] == b[k]
    {
    }
    forall k | 0 <= k < |a + b|
      ensures (a + b)[k] == if k < |a| then a[k] else b[k - |a|]
    {
    }
  }

  lemma AllowedCanonical(nets: seq<Address.IPNet>)
    requires AreV4(nets)
    ensures AllTyped(AllowedEntries(nets))
    ensures CanonicalList(AllowedEntries(nets)) == AllowedEntries(CanonicalNets(nets))
    ensures AllSurvive(AllowedEntries(nets)) <==> AreContiguous(nets)
  {
    forall i | 0 <= i < |nets|
      ensures SurvivesEntry(AllowedEntries(nets)[i]) <==>
              Address.SimpleMaskLength(Address.Mask4(nets[i])).Some?
    {
    }
  }

  lemma KeysCanonical(keys: seq<Entry>)
    requires AllTyped(keys) && forall k :: 0 <= k < |keys| ==> KindOf(keys[k].key).KeyBytes?
    ensures CanonicalList(keys) == keys && AllSurvive(keys)
  {
    forall k | 0 <= k < |keys|
      ensures CanonicalEntry(keys[k]) == keys[k] && SurvivesEntry(keys[k])
    {
    }
  }

  lemma PeerCanonical(p: PeerConfig)
    requires TypedPeer(p)
    ensures AllTyped(PeerEntries(p))
    ensures CanonicalList(PeerEntries(p)) == PeerEntries(CanonicalPeer(p))
    ensures AllSurvive(PeerEntries(p)) <==> AreContiguous(p.allowedIPs)
  {
    var keys := [Entry(PublicKey, Bytes(p.public)), Entry(PresharedKey, Bytes(p.preShared))];
    KeysCanonical(keys);
    AllowedCanonical(p.allowedIPs);
    ListAppend(keys, AllowedEntries(p.allowedIPs));
  }

  lemma {:induction false} PeersCanonical(peers: seq<PeerConfig>)
    requires TypedPeers(peers)
    ensures AllTyped(PeersEntries(peers))
    ensures CanonicalList(PeersEntries(peers)) == PeersEntries(CanonicalPeers(peers))
    ensures AllSurvive(PeersEntries(peers)) <==> ContiguousPeers(peers)
  {
    if peers == [] {
    } else {
      var last := |peers| - 1;
      PeersCanonical(peers[..last]);
      PeerCanonical(peers[last]);
      PeersLast(peers);
      PeersLast(CanonicalPeers(peers));
      assert CanonicalPeers(peers)[..last] == CanonicalPeers(peers[..last]);
      BothCanonical(PeersEntries(peers[..last]), PeersEntries(CanonicalPeers(peers[..last])),
        PeerEntries(peers[last]), PeerEntries(CanonicalPeer(peers[last])));
      ContiguousLast(peers);
    }
  }

  lemma BothCanonical(a: seq<Entry>, a': seq<Entry>, b: seq<Entry>, b': seq<Entry>)
    requires AllTyped(a) && AllTyped(b) && CanonicalList(a) == a' && CanonicalList(b) == b'
    ensures AllTyped(a + b) && CanonicalList(a + b) == a' + b'
    ensures AllSurvive(a + b) <==> AllSurvive(a) && AllSurvive(b)
  {
    ListAppend(a, b);
  }

  lemma ContiguousLast(peers: seq<PeerConfig>)
    requires TypedPeers(peers) && peers != []
    ensures ContiguousPeers(peers) <==>
            ContiguousPeers(peers[..|peers| - 1]) && AreContiguous(peers[|peers| - 1].allowedIPs)
  {
    var front := peers[..|peers| - 1];
    if ContiguousPeers(peers) {
      forall i | 0 <= i < |front|
        ensures AreContiguous(front[i].allowedIPs)
      {
        assert front[i] == peers[i];
      }
    }
    if ContiguousPeers(front) && AreContiguous(peers[|peers| - 1].allowedIPs) {
      forall i | 0 <= i < |peers|
        ensures AreContiguous(peers[i].allowedIPs)
      {
        assert i < |front| ==> peers[i] == front[i];
      }
    }
  }

  lemma HeadCanonical(private: seq<byte>, listenPort: nat)
    requires IsKey(private) && listenPort < Decimal.TWO_TO_16
    ensures var head := ServerHead(private, listenPort);
      AllTyped(head) && CanonicalList(head) == head && AllSurvive(head)
  {
    var head := ServerHead(private, listenPort);
    assert head[0].WellTyped() && head[1].WellTyped();
    assert SurvivesEntry(head[0]) && SurvivesEntry(head[1]);
    assert CanonicalEntry(head[0]) == head[0] && CanonicalEntry(head[1]) == head[1];
  }

  lemma ServerCanonical(cfg: ServerConfig)
    requires TypedServer(cfg)
    ensures AllTyped(ServerEntries(cfg))
    ensures CanonicalList(ServerEntries(cfg)) == ServerEntries(CanonicalServer(cfg))
    ensures AllSurvive(ServerEntries(cfg)) <==> ContiguousServer(cfg)
  {
    HeadCanonical(cfg.private, cfg.listenPort);
    PeersCanonical(cfg.peers);
    ListAppend(ServerHead(cfg.private, cfg.listenPort), PeersEntries(cfg.peers));
  }

  /** A server's text reads back as its canonical entries exactly if every mask is contiguous. */
  lemma ServerReads(cfg: ServerConfig)
    requires TypedServer(cfg)
    ensures AllTyped(ServerEntries(cfg))
    ensures Decode(Encode(ServerEntries(cfg))) == Reading(ServerEntries(CanonicalServer(cfg)), None) <==>
            ContiguousServer(cfg)
  {
    ServerCanonical(cfg);
    RoundTrip(ServerEntries(cfg));
  }

  /** Servers that differ in canonical form have different texts, whatever their masks. */
  lemma DifferentServersDifferentTexts(a: ServerConfig, b: ServerConfig)
    requires TypedServer(a) && TypedServer(b)
    requires CanonicalServer(a) != CanonicalServer(b)
    ensures AllTyped(ServerEntries(a)) && AllTyped(ServerEntries(b))
    ensures Encode(ServerEntries(a)) != Encode(ServerEntries(b))
  {
    ServerCanonical(a);
    ServerCanonical(b);
    if Encode(ServerEntries(a)) == Encode(ServerEntries(b)) {
      Injective.OneTextOneForm(ServerEntries(a), ServerEntries(b));
      RegroupEntries(CanonicalServer(a));
      RegroupEntries(CanonicalServer(b));
    }
  }

  // ---- Reading and regrouping ----

  /** The same keys in the same order, with values of the types that the keys have. */
  ghost predicate SameKeys(x: seq<Entry>, y: seq<Entry>) {
    |x| == |y| && AllTyped(x) && forall k :: 0 <= k < |x| ==> x[k].key == y[k].key
  }

  /** What a reader accepts has the type of its key. */
  lemma ReadFits(kind: Kind, s: string)
    requires Read(kind, s).Success?
    ensures Fits(kind, Read(kind, s).value)
  {
    match kind
    case UDPAddr => Address.BothForms(Address.QuadOf(Cut(s, ':').0).value);
    case IPNet => Address.NetReadsContiguous(s);
    case _ =>
  }

  /** Without an error, one entry comes back for every entry printed, under the same key. */
  lemma {:induction false} DecodeKeepsKeys(entries: seq<Entry>)
    requires AllTyped(entries)
    ensures Decode(Encode(entries)).err.None? ==> SameKeys(Decode(Encode(entries)).ipc, entries)
  {
    if entries == [] {
      DecodeEnd("");
    } else if Decode(Encode(entries)).err.None? {
      var e, rest := entries[0], entries[1..];
      DecodeFirst(entries);
      ExtendSucceeds(ReadLine(LineOf(e)), Decode(Encode(rest)));
      DecodeKeepsKeys(rest);
      LineKeepsKey(e);
      KeysCons(ReadLine(LineOf(e)).value, Decode(Encode(rest)).ipc, e, rest);
      assert [e] + rest == entries;
    }
  }

  lemma LineKeepsKey(e: Entry)
    requires e.WellTyped()
    ensures var line := ReadLine(LineOf(e));
      line.Success? ==> line.value.key == e.key && line.value.WellTyped()
  {
    LineReads(e.key, Print(KindOf(e.key), e.value));
    if Read(KindOf(e.key), Print(KindOf(e.key), e.value)).Success? {
      ReadFits(KindOf(e.key), Print(KindOf(e.key), e.value));
    }
  }

  lemma KeysCons(a: Entry, x: seq<Entry>, b: Entry, y: seq<Entry>)
    requires a.key == b.key && a.WellTyped() && SameKeys(x, y)
    ensures SameKeys([a] + x, [b] + y)
  {
  }

  lemma NetsFrom(x: seq<Entry>, nets: seq<Address.IPNet>) returns (found: seq<Address.IPNet>)
    requires SameKeys(x, AllowedEntries(nets))
    ensures AllowedEntries(found) == x
  {
    forall k | 0 <= k < |x|
      ensures x[k].key == AllowedIP && x[k].value.Net?
    {
      assert x[k].WellTyped() && AllowedEntries(nets)[k].key == AllowedIP;
    }
    found := seq(|x|, k requires 0 <= k < |x| => x[k].value.net);
  }

  /** Entries under the keys of a peer are the entries of a peer. */
  lemma PeerFrom(x: seq<Entry>, p: PeerConfig) returns (q: PeerConfig)
    requires SameKeys(x, PeerEntries(p))
    ensures PeerEntries(q) == x
  {
    var keys := [Entry(PublicKey, Bytes(p.public)), Entry(PresharedKey, Bytes(p.preShared))];
    SplitKeys(x, keys, AllowedEntries(p.allowedIPs));
    var nets := NetsFrom(x[2..], p.allowedIPs);
    assert x[0].WellTyped() && x[1].WellTyped();
    q := PeerConfig(x[0].value.key, x[1].value.key, nets);
    assert x[..2] == [Entry(PublicKey, Bytes(q.public)), Entry(PresharedKey, Bytes(q.preShared))];
  }

  lemma SplitKeys(x: seq<Entry>, a: seq<Entry>, b: seq<Entry>)
    requires SameKeys(x, a + b)
    ensures |x| == |a| + |b| && x == x[..|a|] + x[|a|..]
    ensures SameKeys(x[..|a|], a) && SameKeys(x[|a|..], b)
  {
    forall k | 0 <= k < |b|
      ensures x[|a|..][k].key == b[k].key
    {
      assert (a + b)[|a| + k] == b[k];
    }
  }

  lemma {:induction false} PeersFrom(x: seq<Entry>, peers: seq<PeerConfig>) returns (found: seq<PeerConfig>)
    requires SameKeys(x, PeersEntries(peers))
    ensures PeersEntries(found) == x
  {
    if peers == [] {
      found := [];
    } else {
      var last := |peers| - 1;
      SplitKeys(x, PeersEntries(peers[..last]), PeerEntries(peers[last]));
      var front := PeersFrom(x[..|PeersEntries(peers[..last])|], peers[..last]);
      var q := PeerFrom(x[|PeersEntries(peers[..last])|..], peers[last]);
      found := front + [q];
      PeersLast(found);
      assert found[..|found| - 1] == front;
    }
  }

  lemma ServerFrom(x: seq<Entry>, cfg: ServerConfig) returns (found: ServerConfig)
    requires SameKeys(x, ServerEntries(cfg))
    ensures ServerEntries(found) == x
  {
    SplitKeys(x, ServerHead(cfg.private, cfg.listenPort), PeersEntries(cfg.peers));
    var peers := PeersFrom(x[2..], cfg.peers);
    assert x[0].WellTyped() && x[1].WellTyped();
    found := ServerConfig(x[0].value.key, x[1].value.n, peers);
    assert ServerHead(found.private, found.listenPort) == x[..2];
  }

  /**
   * Reading the text of a server and grouping at each public_key gives back its key, its port and
   * its peers in order, with all subnets in canonical form, exactly if every mask is contiguous.
   */
  lemma ServerRoundTrip(cfg: ServerConfig)
    requires TypedServer(cfg)
    ensures AllTyped(ServerEntries(cfg))
    ensures var r := Decode(Encode(ServerEntries(cfg)));
      (r.err == None && Regroup(r.ipc) == Some(CanonicalServer(cfg))) <==> ContiguousServer(cfg)
  {
    ServerReads(cfg);
    RegroupEntries(CanonicalServer(cfg));
    var r := Decode(Encode(ServerEntries(cfg)));
    if r.err == None && Regroup(r.ipc) == Some(CanonicalServer(cfg)) {
      DecodeKeepsKeys(ServerEntries(cfg));
      var found := ServerFrom(r.ipc, cfg);
      RegroupEntries(found);
    }
  }

  // ---- Servers filled by AddPeer ----

  datatype NewPeer = NewPeer(public: seq<byte>, preShared: seq<byte>, ip: seq<byte>)

  predicate TypedNewPeers(calls: seq<NewPeer>) {
    forall i :: 0 <= i < |calls| ==>
      IsKey(calls[i].public) && IsKey(calls[i].preShared) && Address.To4(calls[i].ip).Some?
  }

  function Added(calls: seq<NewPeer>): (peers: seq<PeerConfig>)
    ensures |peers| == |calls|
  {
    seq(|calls|, i requires 0 <= i < |calls| =>
      PeerConfig(calls[i].public, calls[i].preShared, [Address.IdentitySubnet(calls[i].ip)]))
  }

  /** A /32 subnet in the form the parser gives it. */
  function HostNet(ip: seq<byte>): Address.IPNet
    requires Address.To4(ip).Some?
  {
    Address.IPNet(Address.To4(ip).value, Address.CIDRMask(32, 4))
  }

  lemma AddedIsSound(calls: seq<NewPeer>)
    requires TypedNewPeers(calls)
    ensures TypedPeers(Added(calls))
    ensures forall i :: 0 <= i < |calls| ==>
      && AreContiguous(Added(calls)[i].allowedIPs)
      && CanonicalPeer(Added(calls)[i]).allowedIPs == [HostNet(calls[i].ip)]
  {
    forall i | 0 <= i < |calls|
      ensures TypedPeer(Added(calls)[i]) && AreContiguous(Added(calls)[i].allowedIPs)
      ensures CanonicalPeer(Added(calls)[i]).allowedIPs == [HostNet(calls[i].ip)]
    {
      IdentityIsSound(calls[i].ip);
    }
  }

  lemma IdentityIsSound(ip: seq<byte>)
    requires Address.To4(ip).Some?
    ensures var net := Address.IdentitySubnet(ip);
      && Address.IsV4(net)
      && Address.SimpleMaskLength(Address.Mask4(net)).Some?
      && Address.CanonicalNet(net) == HostNet(ip)
  {
    var net := Address.IdentitySubnet(ip);
    Address.IdentityMask(ip);
    Address.MaskRoundTrip(32, 4);
    Address.MaskedByFull(Address.To4(ip).value);
  }

  lemma AddedNext(calls: seq<NewPeer>, i: nat)
    requires i < |calls|
    ensures Added(calls[..i + 1]) == Added(calls[..i])
      + [PeerConfig(calls[i].public, calls[i].preShared, [Address.IdentitySubnet(calls[i].ip)])]
  {
  }

  /** Any sequence of AddPeer calls on a new server. */
  method AddPeers(private: seq<byte>, listenPort: nat, calls: seq<NewPeer>) returns (server: Server)
    ensures fresh(server) && server.Config() == ServerConfig(private, listenPort, Added(calls))
  {
    server := new Server(private, listenPort);
    var i := 0;
    while i < |calls|
      invariant 0 <= i <= |calls| && fresh(server)
      invariant server.Config() == ServerConfig(private, listenPort, Added(calls[..i]))
    {
      server.AddPeer(calls[i].public, calls[i].preShared, calls[i].ip);
      AddedNext(calls, i);
      i := i + 1;
    }
    assert calls[..i] == calls;
  }

  /** One peer per call, in call order, each allowed its own address as a /32. */
  ghost predicate Holds(cfg: ServerConfig, private: seq<byte>, listenPort: nat, calls: seq<NewPeer>)
    requires TypedNewPeers(calls)
  {
    && cfg.private == private && cfg.listenPort == listenPort && |cfg.peers| == |calls|
    && forall i :: 0 <= i < |calls| ==>
         cfg.peers[i] == PeerConfig(calls[i].public, calls[i].preShared, [HostNet(calls[i].ip)])
  }

  lemma AddedReadsBack(private: seq<byte>, listenPort: nat, calls: seq<NewPeer>)
    requires IsKey(private) && listenPort < Decimal.TWO_TO_16 && TypedNewPeers(calls)
    ensures var cfg := ServerConfig(private, listenPort, Added(calls));
      && TypedServer(cfg) && AllTyped(ServerEntries(cfg))
      && var r := Decode(Encode(ServerEntries(cfg)));
         r.err == None && Regroup(r.ipc).Some? && Holds(Regroup(r.ipc).value, private, listenPort, calls)
  {
    AddedIsSound(calls);
    ServerRoundTrip(ServerConfig(private, listenPort, Added(calls)));
  }

  /** AddPeer calls, printed by WGConfig and read back from a buffer, give the same peers. */
  method AddPeersAndReadBack(private: seq<byte>, listenPort: nat, calls: seq<NewPeer>) returns (r: Reading)
    requires IsKey(private) && listenPort < Decimal.TWO_TO_16 && TypedNewPeers(calls)
    ensures r.err == None && Regroup(r.ipc).Some?
    ensures Holds(Regroup(r.ipc).value, private, listenPort, calls)
  {
    AddedReadsBack(private, listenPort, calls);
    var server := AddPeers(private, listenPort, calls);
    var text := server.WGConfig();
    var get := new IPCGet();
    get.Write(text);
    assert get.buf.data == text;
    var ipc, err := get.Value();
    r := Reading(ipc, err);
  }
}
