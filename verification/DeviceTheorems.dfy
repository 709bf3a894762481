/**
 * What a client configuration does to a device under the set operation of the WireGuard
 * cross-platform "Configuration Protocol".
 */
module DeviceTheorems {
  import opened Prelude
  import opened Ipc
  import opened IpcTheorems
  import opened WgConfig
  import opened ServerTheorems
  import Injective
  import Address
  import Decimal
  import Hex

  type byte = Hex.byte

  /** The preshared key of a peer that was given none. */
  function NoKey(): seq<byte> {
    seq(Hex.KEY_LENGTH, _ => 0)
  }

  datatype DevicePeer = DevicePeer(preShared: seq<byte>, endpoint: Option<Address.UDPAddr>, keepalive: int,
    allowed: seq<Address.IPNet>)

  function NewDevicePeer(): DevicePeer {
    DevicePeer(NoKey(), None, 0, [])
  }

  datatype Device = Device(private: seq<byte>, listenPort: int, fwmark: int, peers: map<seq<byte>, DevicePeer>)

  /** Which section the next line belongs to; Nobody is a peer that is removed or not to be created. */
  datatype Section = Interface | Of(peer: seq<byte>, created: bool) | Nobody

  datatype State = State(device: Device, section: Section)

  /** An allowed IP moves to its new peer from any other that had it. */
  function Without(nets: seq<Address.IPNet>, net: Address.IPNet): seq<Address.IPNet> {
    if nets == [] then []
    else Without(nets[..|nets| - 1], net) + (if nets[|nets| - 1] == net then [] else [nets[|nets| - 1]])
  }

  function Allow(peers: map<seq<byte>, DevicePeer>, peer: seq<byte>, net: Address.IPNet): map<seq<byte>, DevicePeer> {
    map k | k in peers ::
      if k == peer then peers[k].(allowed := peers[k].allowed + [net])
      else peers[k].(allowed := Without(peers[k].allowed, net))
  }

  /** Interface keys are for the first section. */
  function SetInterface(d: Device, e: Entry): Option<Device> {
    if e.key.PrivateKey? && e.value.Bytes? then Some(d.(private := e.value.key))
    else if e.key.ListenPort? && e.value.Num? then Some(d.(listenPort := e.value.n))
    else if e.key.FWMark? && e.value.Num? then Some(d.(fwmark := e.value.n))
    else if e.key.ReplacePeers? && e.value.Constant? then Some(d.(peers := map[]))
    else None
  }

  /** Peer keys that only change the peer of the section. */
  function SetPeer(p: DevicePeer, e: Entry): Option<DevicePeer> {
    if e.key.PresharedKey? && e.value.Bytes? then Some(p.(preShared := e.value.key))
    else if e.key.Endpoint? && e.value.Addr? then Some(p.(endpoint := Some(e.value.addr)))
    else if e.key.PersistentKeepalive? && e.value.Num? then Some(p.(keepalive := e.value.n))
    else if e.key.ReplaceAllowedIPs? && e.value.Constant? then Some(p.(allowed := []))
    else None
  }

  function ApplyToPeer(s: State, e: Entry): Option<State>
    requires s.section.Of?
  {
    var k, peers := s.section.peer, s.device.peers;
    if k !in peers then None
    else if SetPeer(peers[k], e).Some? then Some(WithPeer(s, SetPeer(peers[k], e).value))
    else if e.key.AllowedIP? && e.value.Net? then Some(s.(device := s.device.(peers := Allow(peers, k, e.value.net))))
    else if e.key.UpdateOnly? && e.value.Constant? && !s.section.created then Some(s)
    else if (e.key.Remove? || e.key.UpdateOnly?) && e.value.Constant? then
      Some(State(s.device.(peers := peers - {k}), Nobody))
    else None
  }

  function WithPeer(s: State, p: DevicePeer): State
    requires s.section.Of?
  {
    s.(device := s.device.(peers := s.device.peers[s.section.peer := p]))
  }

  predicate IsPeerKey(key: Key) {
    key in {PresharedKey, Endpoint, PersistentKeepalive, ReplaceAllowedIPs, AllowedIP, Remove, UpdateOnly}
  }

  /** One line of a set operation; None is a rejected operation. */
  function Apply(s: State, e: Entry): Option<State> {
    if e.key.PublicKey? then
      if !e.value.Bytes? then None
      else
        var created := e.value.key !in s.device.peers;
        var peers := if created then s.device.peers[e.value.key := NewDevicePeer()] else s.device.peers;
        Some(State(s.device.(peers := peers), Of(e.value.key, created)))
    else
      match s.section
      case Interface =>
        var d := SetInterface(s.device, e);
        if d.Some? then Some(s.(device := d.value)) else None
      case Of(_, _) => ApplyToPeer(s, e)
      case Nobody => if IsPeerKey(e.key) then Some(s) else None
  }

  function ApplyAll(s: State, entries: seq<Entry>): Option<State> {
    if entries == [] then Some(s)
    else
      var before := ApplyAll(s, entries[..|entries| - 1]);
      if before.Some? then Apply(before.value, entries[|entries| - 1]) else None
  }

  lemma ApplyNext(s: State, entries: seq<Entry>, e: Entry)
    ensures ApplyAll(s, entries + [e]) ==
      if ApplyAll(s, entries).Some? then Apply(ApplyAll(s, entries).value, e) else None
  {
    assert (entries + [e])[..|entries|] == entries;
  }

  lemma {:induction false} ApplyAppend(s: State, a: seq<Entry>, b: seq<Entry>)
    requires ApplyAll(s, a).Some?
    ensures ApplyAll(s, a + b) == ApplyAll(ApplyAll(s, a).value, b)
  {
    if b == [] {
      assert a + b == a;
    } else {
      var last := |b| - 1;
      assert (a + b)[..|a + b| - 1] == a + b[..last];
      ApplyAppend(s, a, b[..last]);
    }
  }

  // ---- What the protocol's peer keys do to a device ----

  lemma TwoLines(s: State, a: Entry, b: Entry)
    requires Apply(s, a).Some?
    ensures ApplyAll(s, [a, b]) == Apply(Apply(s, a).value, b)
  {
    ApplyNext(s, [], a);
    ApplyNext(s, [a], b);
    assert [] + [a] == [a] && [a] + [b] == [a, b];
  }

  /** remove: the peer is gone, whether or not it was there, and nothing else changes. */
  lemma RemoveRemoves(d: Device, k: seq<byte>)
    ensures var end := ApplyAll(State(d, Interface), [Entry(PublicKey, Bytes(k)), Entry(Remove, Constant)]);
      end.Some? && end.value.device == d.(peers := d.peers - {k})
  {
    TwoLines(State(d, Interface), Entry(PublicKey, Bytes(k)), Entry(Remove, Constant));
  }

  /** update_only: a peer that was not there is not created. */
  lemma UpdateOnlyCreatesNothing(d: Device, k: seq<byte>)
    ensures var end := ApplyAll(State(d, Interface), [Entry(PublicKey, Bytes(k)), Entry(UpdateOnly, Constant)]);
      end.Some? && end.value.device == d
  {
    TwoLines(State(d, Interface), Entry(PublicKey, Bytes(k)), Entry(UpdateOnly, Constant));
    if k !in d.peers {
      assert d.peers[k := NewDevicePeer()] - {k} == d.peers;
    }
  }

  /** replace_allowed_ips: the peer keeps everything but its allowed IPs. */
  lemma ReplaceAllowedClears(d: Device, k: seq<byte>)
    requires k in d.peers
    ensures var end := ApplyAll(State(d, Interface), [Entry(PublicKey, Bytes(k)), Entry(ReplaceAllowedIPs, Constant)]);
      end.Some? && end.value.device == d.(peers := d.peers[k := d.peers[k].(allowed := [])])
  {
    TwoLines(State(d, Interface), Entry(PublicKey, Bytes(k)), Entry(ReplaceAllowedIPs, Constant));
  }

  lemma {:induction false} WithoutOne(nets: seq<Address.IPNet>, net: Address.IPNet, other: Address.IPNet)
    ensures other in Without(nets, net) <==> other in nets && other != net
  {
    if nets == [] {
    } else {
      var last := |nets| - 1;
      WithoutOne(nets[..last], net, other);
      assert nets == nets[..last] + [nets[last]];
    }
  }

  /** allowed_ip: the subnet goes to the end of its peer's list and leaves every other peer's. */
  lemma AllowedMoves(d: Device, k: seq<byte>, net: Address.IPNet, other: seq<byte>)
    requires k in d.peers && other in d.peers && other != k
    ensures var end := ApplyAll(State(d, Interface), [Entry(PublicKey, Bytes(k)), Entry(AllowedIP, Net(net))]);
      && end.Some? && end.value.device.peers.Keys == d.peers.Keys
      && end.value.device.peers[k].allowed == d.peers[k].allowed + [net]
      && forall n :: n in end.value.device.peers[other].allowed <==> n in d.peers[other].allowed && n != net
  {
    TwoLines(State(d, Interface), Entry(PublicKey, Bytes(k)), Entry(AllowedIP, Net(net)));
    assert Allow(d.peers, k, net).Keys == d.peers.Keys;
    forall n: Address.IPNet
      ensures n in Without(d.peers[other].allowed, net) <==> n in d.peers[other].allowed && n != net
    {
      WithoutOne(d.peers[other].allowed, net, n);
    }
  }

  // ---- The client's texts ----

  function CanonicalClient(cfg: ClientConfig): ClientConfig
    requires TypedClient(cfg)
  {
    cfg.(endpoint := Address.CanonicalAddr(cfg.endpoint), allowedIPs := CanonicalNets(cfg.allowedIPs))
  }

  predicate SoundClient(cfg: ClientConfig)
    requires TypedClient(cfg)
  {
    0 <= cfg.endpoint.port < Decimal.TWO_TO_16 && AreContiguous(cfg.allowedIPs)
  }

  lemma ClientHeadCanonical(cfg: ClientConfig)
    requires TypedClient(cfg)
    ensures AllTyped(ClientHead(cfg))
    ensures AllSurvive(ClientHead(cfg)) <==> 0 <= cfg.endpoint.port < Decimal.TWO_TO_16
    ensures CanonicalList(ClientHead(cfg)) == ClientHead(CanonicalClient(cfg))
  {
    var head, canonical := ClientHead(cfg), ClientHead(CanonicalClient(cfg));
    forall k | 0 <= k < 5
      ensures head[k].WellTyped() && CanonicalEntry(head[k]) == canonical[k]
      ensures SurvivesEntry(head[k]) <==> k != 3 || 0 <= cfg.endpoint.port < Decimal.TWO_TO_16
    {
    }
    assert AllSurvive(head) ==> SurvivesEntry(head[3]);
  }

  lemma KeepaliveCanonical(keepalive: Option<nat>)
    requires keepalive.Some? ==> keepalive.value < Decimal.TWO_TO_16
    ensures var entries := KeepaliveEntries(keepalive);
      AllTyped(entries) && AllSurvive(entries) && CanonicalList(entries) == entries
  {
    if keepalive.Some? {
      var e := KeepaliveEntries(keepalive)[0];
      assert e.WellTyped() && SurvivesEntry(e) && CanonicalEntry(e) == e;
    }
  }

  lemma ClientListCanonical(cfg: ClientConfig)
    requires TypedClient(cfg)
    ensures AllTyped(ClientEntries(cfg))
    ensures CanonicalList(ClientEntries(cfg)) == ClientEntries(CanonicalClient(cfg))
    ensures AllSurvive(ClientEntries(cfg)) <==> SoundClient(cfg)
  {
    ClientHeadCanonical(cfg);
    KeepaliveCanonical(cfg.keepalive);
    AllowedCanonical(cfg.allowedIPs);
    var front := ClientHead(cfg) + KeepaliveEntries(cfg.keepalive);
    ListAppend(ClientHead(cfg), KeepaliveEntries(cfg.keepalive));
    ListAppend(front, AllowedEntries(cfg.allowedIPs));
  }

  /** A client's text reads back as its canonical entries exactly if its port and masks are sound. */
  lemma ClientDecodes(cfg: ClientConfig)
    requires TypedClient(cfg)
    ensures AllTyped(ClientEntries(cfg))
    ensures Decode(Encode(ClientEntries(cfg))) == Reading(ClientEntries(CanonicalClient(cfg)), None) <==>
            SoundClient(cfg)
  {
    ClientListCanonical(cfg);
    RoundTrip(ClientEntries(cfg));
  }

  lemma AllowedUnique(a: seq<Address.IPNet>, b: seq<Address.IPNet>)
    requires AllowedEntries(a) == AllowedEntries(b)
    ensures a == b
  {
    assert |a| == |b|;
    forall k | 0 <= k < |a|
      ensures a[k] == b[k]
    {
      assert AllowedEntries(a)[k] == AllowedEntries(b)[k];
    }
  }

  lemma ClientEntriesUnique(a: ClientConfig, b: ClientConfig)
    requires ClientEntries(a) == ClientEntries(b)
    ensures a == b
  {
    Associate(ClientHead(a), KeepaliveEntries(a.keepalive), AllowedEntries(a.allowedIPs));
    Associate(ClientHead(b), KeepaliveEntries(b.keepalive), AllowedEntries(b.allowedIPs));
    AppendUnique(ClientHead(a), KeepaliveEntries(a.keepalive) + AllowedEntries(a.allowedIPs),
      ClientHead(b), KeepaliveEntries(b.keepalive) + AllowedEntries(b.allowedIPs));
    HeadUnique(a, b);
    TailUnique(a.keepalive, a.allowedIPs, b.keepalive, b.allowedIPs);
  }

  lemma AppendUnique(h: seq<Entry>, t: seq<Entry>, h': seq<Entry>, t': seq<Entry>)
    requires |h| == |h'| && h + t == h' + t'
    ensures h == h' && t == t'
  {
    assert (h + t)[..|h|] == h && (h' + t')[..|h|] == h';
    assert (h + t)[|h|..] == t && (h' + t')[|h|..] == t';
  }

  lemma HeadUnique(a: ClientConfig, b: ClientConfig)
    requires ClientHead(a) == ClientHead(b)
    ensures a.private == b.private && a.public == b.public
    ensures a.endpoint == b.endpoint && a.preShared == b.preShared
  {
    assert ClientHead(a)[0] == ClientHead(b)[0] && ClientHead(a)[2] == ClientHead(b)[2];
    assert ClientHead(a)[3] == ClientHead(b)[3] && ClientHead(a)[4] == ClientHead(b)[4];
  }

  lemma TailUnique(k: Option<nat>, nets: seq<Address.IPNet>, k': Option<nat>, nets': seq<Address.IPNet>)
    requires KeepaliveEntries(k) + AllowedEntries(nets) == KeepaliveEntries(k') + AllowedEntries(nets')
    ensures k == k' && nets == nets'
  {
    var x, y := KeepaliveEntries(k) + AllowedEntries(nets), KeepaliveEntries(k') + AllowedEntries(nets');
    assert k.Some? ==> x[0] == Entry(PersistentKeepalive, Num(k.value));
    assert k'.Some? ==> y[0] == Entry(PersistentKeepalive, Num(k'.value));
    assert k.None? && nets != [] ==> x[0].key == AllowedIP;
    assert k'.None? && nets' != [] ==> y[0].key == AllowedIP;
    assert x[|KeepaliveEntries(k)|..] == AllowedEntries(nets);
    assert y[|KeepaliveEntries(k')|..] == AllowedEntries(nets');
    AllowedUnique(nets, nets');
  }

  /** Clients that differ in canonical form have different texts, whatever their ports and masks. */
  lemma DifferentClientsDifferentTexts(a: ClientConfig, b: ClientConfig)
    requires TypedClient(a) && TypedClient(b)
    requires CanonicalClient(a) != CanonicalClient(b)
    ensures AllTyped(ClientEntries(a)) && AllTyped(ClientEntries(b))
    ensures Encode(ClientEntries(a)) != Encode(ClientEntries(b))
  {
    ClientListCanonical(a);
    ClientListCanonical(b);
    if Encode(ClientEntries(a)) == Encode(ClientEntries(b)) {
      Injective.OneTextOneForm(ClientEntries(a), ClientEntries(b));
      ClientEntriesUnique(CanonicalClient(a), CanonicalClient(b));
    }
  }

  // ---- Their effect ----

  function OnlyPeer(device: Device, cfg: ClientConfig, p: DevicePeer): State {
    State(device.(private := cfg.private, peers := map[cfg.public := p]), Of(cfg.public, true))
  }

  lemma WithOnlyPeer(device: Device, cfg: ClientConfig, p: DevicePeer, q: DevicePeer)
    ensures WithPeer(OnlyPeer(device, cfg, p), q) == OnlyPeer(device, cfg, q)
  {
  }

  lemma HeadApplies(device: Device, cfg: ClientConfig)
    ensures ApplyAll(State(device, Interface), ClientHead(cfg)) ==
      Some(OnlyPeer(device, cfg, DevicePeer(cfg.preShared, Some(cfg.endpoint), 0, [])))
  {
    var s, e := State(device, Interface), ClientHead(cfg);
    var unset := NewDevicePeer();
    var reached := unset.(endpoint := Some(cfg.endpoint));
    var d1 := device.(private := cfg.private);
    assert ApplyAll(s, e[..1]) == Some(State(d1, Interface)) by {
      assert [] + [e[0]] == e[..1];
      ApplyNext(s, [], e[0]);
    }
    assert ApplyAll(s, e[..2]) == Some(State(d1.(peers := map[]), Interface)) by {
      assert e[..1] + [e[1]] == e[..2];
      ApplyNext(s, e[..1], e[1]);
    }
    assert ApplyAll(s, e[..3]) == Some(OnlyPeer(device, cfg, unset)) by {
      assert e[..2] + [e[2]] == e[..3];
      ApplyNext(s, e[..2], e[2]);
    }
    assert ApplyAll(s, e[..4]) == Some(OnlyPeer(device, cfg, reached)) by {
      assert e[..3] + [e[3]] == e[..4];
      ApplyNext(s, e[..3], e[3]);
      WithOnlyPeer(device, cfg, unset, reached);
    }
    assert e[..4] + [e[4]] == e;
    ApplyNext(s, e[..4], e[4]);
    WithOnlyPeer(device, cfg, reached, reached.(preShared := cfg.preShared));
  }

  lemma KeepaliveApplies(device: Device, cfg: ClientConfig, p: DevicePeer)
    ensures ApplyAll(OnlyPeer(device, cfg, p), KeepaliveEntries(cfg.keepalive)) ==
      Some(OnlyPeer(device, cfg, if cfg.keepalive.Some? then p.(keepalive := cfg.keepalive.value) else p))
  {
    if cfg.keepalive.Some? {
      var e := KeepaliveEntries(cfg.keepalive)[0];
      ApplyNext(OnlyPeer(device, cfg, p), [], e);
      assert [] + [e] == KeepaliveEntries(cfg.keepalive);
      WithOnlyPeer(device, cfg, p, p.(keepalive := cfg.keepalive.value));
    }
  }

  /** The configured peer as the device holds it. */
  function Configured(cfg: ClientConfig): DevicePeer {
    DevicePeer(cfg.preShared, Some(cfg.endpoint), if cfg.keepalive.Some? then cfg.keepalive.value else 0, cfg.allowedIPs)
  }

  lemma ClientApplies(device: Device, cfg: ClientConfig)
    ensures ApplyAll(State(device, Interface), ClientEntries(cfg)) == Some(OnlyPeer(device, cfg, Configured(cfg)))
  {
    var s := State(device, Interface);
    var p := DevicePeer(cfg.preShared, Some(cfg.endpoint), 0, []);
    HeadApplies(device, cfg);
    ApplyAppend(s, ClientHead(cfg), KeepaliveEntries(cfg.keepalive));
    KeepaliveApplies(device, cfg, p);
    ApplyAppend(s, ClientHead(cfg) + KeepaliveEntries(cfg.keepalive), AllowedEntries(cfg.allowedIPs));
    AllowedApply(device, cfg, Configured(cfg.(allowedIPs := [])), cfg.allowedIPs);
    assert [] + cfg.allowedIPs == cfg.allowedIPs;
  }

  lemma {:induction false} AllowedApply(device: Device, cfg: ClientConfig, p: DevicePeer, nets: seq<Address.IPNet>)
    ensures ApplyAll(OnlyPeer(device, cfg, p), AllowedEntries(nets)) ==
      Some(OnlyPeer(device, cfg, p.(allowed := p.allowed + nets)))
  {
    if nets == [] {
      assert p.allowed + nets == p.allowed;
    } else {
      var last := |nets| - 1;
      AllowedApply(device, cfg, p, nets[..last]);
      assert AllowedEntries(nets)[..last] == AllowedEntries(nets[..last]);
      var before := p.(allowed := p.allowed + nets[..last]);
      var after := p.(allowed := p.allowed + nets);
      assert before.allowed + [nets[last]] == after.allowed;
      assert Allow(map[cfg.public := before], cfg.public, nets[last]) == map[cfg.public := after];
    }
  }

  /**
   * Whatever the device was, the text of a client configuration leaves it with the client's key
   * and exactly one peer: the configured one, with its endpoint, preshared key, keepalive (0 if
   * none is configured) and allowed IPs in order. It does so exactly if its port is one and its
   * masks are contiguous.
   */
  lemma ClientLeavesOnePeer(device: Device, cfg: ClientConfig)
    requires TypedClient(cfg)
    ensures AllTyped(ClientEntries(cfg))
    ensures (var r := Decode(Encode(ClientEntries(cfg)));
        r.err == None && LeavesOnly(device, r.ipc, CanonicalClient(cfg))) <==> SoundClient(cfg)
  {
    ClientDecodes(cfg);
    ClientApplies(device, CanonicalClient(cfg));
    var r := Decode(Encode(ClientEntries(cfg)));
    if r.err == None && LeavesOnly(device, r.ipc, CanonicalClient(cfg)) {
      DecodeKeepsKeys(ClientEntries(cfg));
      var found := ClientFrom(r.ipc, cfg);
      ClientApplies(device, found);
      OnlyPeerUnique(device, found, CanonicalClient(cfg));
    }
  }

  /** Applying the entries succeeds and leaves the client's key and the client's one peer. */
  predicate LeavesOnly(device: Device, ipc: seq<Entry>, cfg: ClientConfig) {
    var end := ApplyAll(State(device, Interface), ipc);
    end.Some? && end.value.device == device.(private := cfg.private, peers := map[cfg.public := Configured(cfg)])
  }

  /** Entries under the keys of a client are the entries of a client. */
  lemma ClientFrom(x: seq<Entry>, cfg: ClientConfig) returns (found: ClientConfig)
    requires SameKeys(x, ClientEntries(cfg))
    ensures ClientEntries(found) == x && found.keepalive.Some? == cfg.keepalive.Some?
  {
    var front := ClientHead(cfg) + KeepaliveEntries(cfg.keepalive);
    SplitKeys(x, front, AllowedEntries(cfg.allowedIPs));
    var x' := x[..|front|];
    SplitKeys(x', ClientHead(cfg), KeepaliveEntries(cfg.keepalive));
    var nets := NetsFrom(x[|front|..], cfg.allowedIPs);
    found := ClientConfig([], [], [], cfg.endpoint, None, nets);
    found := HeadFrom(x'[..5], cfg, found);
    found := KeepaliveFrom(x'[5..], cfg.keepalive, found);
  }

  lemma HeadFrom(x: seq<Entry>, cfg: ClientConfig, before: ClientConfig) returns (found: ClientConfig)
    requires SameKeys(x, ClientHead(cfg))
    ensures ClientHead(found) == x && found.allowedIPs == before.allowedIPs
  {
    forall k | 0 <= k < 5
      ensures x[k].WellTyped() && x[k].key == ClientHead(cfg)[k].key
    {
    }
    assert x[1].value == Constant;
    found := before.(private := x[0].value.key, public := x[2].value.key, endpoint := x[3].value.addr,
      preShared := x[4].value.key);
  }

  lemma KeepaliveFrom(x: seq<Entry>, keepalive: Option<nat>, before: ClientConfig) returns (found: ClientConfig)
    requires SameKeys(x, KeepaliveEntries(keepalive))
    ensures KeepaliveEntries(found.keepalive) == x && found.keepalive.Some? == keepalive.Some?
    ensures ClientHead(found) == ClientHead(before) && found.allowedIPs == before.allowedIPs
  {
    if keepalive.Some? {
      assert x[0].WellTyped() && x[0].key == PersistentKeepalive;
      found := before.(keepalive := Some(x[0].value.n));
    } else {
      found := before.(keepalive := None);
    }
  }

  lemma OnlyPeerUnique(device: Device, a: ClientConfig, b: ClientConfig)
    requires OnlyPeer(device, a, Configured(a)).device == OnlyPeer(device, b, Configured(b)).device
    requires a.keepalive.Some? == b.keepalive.Some?
    ensures a == b
  {
    var peers := map[a.public := Configured(a)];
    assert a.public in peers && peers[a.public] == Configured(b);
  }
}
