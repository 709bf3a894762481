/** The texts of the configuration protocol themselves: every key's line, as printed and as read. */
module IpcText {
  import opened Prelude
  import opened Text
  import opened Ipc
  import opened IpcTheorems
  import Decimal
  import Hex
  import Address

  // ---- As printed ----

  lemma Line(e: Entry, prefix: string, value: string)
    requires e.WellTyped() && prefix == Name(e.key) + ['='] && value == Print(KindOf(e.key), e.value)
    ensures AllTyped([e]) && Encode([e]) == prefix + value + "\n"
  {
    EncodeOne(e);
  }

  lemma KeyLines(k: seq<byte>)
    requires |k| == 32
    ensures AllTyped([Entry(PrivateKey, Bytes(k))]) && AllTyped([Entry(PublicKey, Bytes(k))])
    ensures AllTyped([Entry(PresharedKey, Bytes(k))])
    ensures Encode([Entry(PrivateKey, Bytes(k))]) == "private_key=" + Hex.Encode(k) + "\n"
    ensures Encode([Entry(PublicKey, Bytes(k))]) == "public_key=" + Hex.Encode(k) + "\n"
    ensures Encode([Entry(PresharedKey, Bytes(k))]) == "preshared_key=" + Hex.Encode(k) + "\n"
  {
    Line(Entry(PrivateKey, Bytes(k)), "private_key=", Hex.Encode(k));
    Line(Entry(PublicKey, Bytes(k)), "public_key=", Hex.Encode(k));
    Line(Entry(PresharedKey, Bytes(k)), "preshared_key=", Hex.Encode(k));
  }

  lemma UnsignedLines(n: nat)
    requires n < Decimal.TWO_TO_16
    ensures AllTyped([Entry(ListenPort, Num(n))]) && AllTyped([Entry(PersistentKeepalive, Num(n))])
    ensures AllTyped([Entry(FWMark, Num(n))])
    ensures Encode([Entry(ListenPort, Num(n))]) == "listen_port=" + Decimal.Print(n) + "\n"
    ensures Encode([Entry(PersistentKeepalive, Num(n))]) == "persistent_keepalive_interval=" + Decimal.Print(n) + "\n"
  {
    Line(Entry(ListenPort, Num(n)), "listen_port=", Decimal.Print(n));
    Line(Entry(PersistentKeepalive, Num(n)), "persistent_keepalive_interval=", Decimal.Print(n));
  }

  lemma MarkLine(n: nat)
    requires n < Decimal.TWO_TO_32
    ensures AllTyped([Entry(FWMark, Num(n))])
    ensures Encode([Entry(FWMark, Num(n))]) == "fwmark=" + Decimal.Print(n) + "\n"
  {
    Line(Entry(FWMark, Num(n)), "fwmark=", Decimal.Print(n));
  }

  lemma CounterLines(n: nat)
    requires n < Decimal.TWO_TO_64
    ensures AllTyped([Entry(RXBytes, Num(n))]) && AllTyped([Entry(TXBytes, Num(n))])
    ensures Encode([Entry(RXBytes, Num(n))]) == "rx_bytes=" + Decimal.NumString(n) + "\n"
    ensures Encode([Entry(TXBytes, Num(n))]) == "tx_bytes=" + Decimal.NumString(n) + "\n"
  {
    Line(Entry(RXBytes, Num(n)), "rx_bytes=", Decimal.NumString(n));
    Line(Entry(TXBytes, Num(n)), "tx_bytes=", Decimal.NumString(n));
  }

  lemma SignedLines(n: int)
    requires -Decimal.TWO_TO_63 <= n < Decimal.TWO_TO_63
    ensures AllTyped([Entry(Errno, Num(n))])
    ensures AllTyped([Entry(LastHandshakeTimeSec, Num(n))]) && AllTyped([Entry(LastHandshakeTimeNSec, Num(n))])
    ensures Encode([Entry(Errno, Num(n))]) == "errno=" + Decimal.NumString(n) + "\n"
    ensures Encode([Entry(LastHandshakeTimeSec, Num(n))]) == "last_handshake_time_sec=" + Decimal.NumString(n) + "\n"
    ensures Encode([Entry(LastHandshakeTimeNSec, Num(n))]) == "last_handshake_time_nsec=" + Decimal.NumString(n) + "\n"
  {
    Line(Entry(Errno, Num(n)), "errno=", Decimal.NumString(n));
    Line(Entry(LastHandshakeTimeSec, Num(n)), "last_handshake_time_sec=", Decimal.NumString(n));
    Line(Entry(LastHandshakeTimeNSec, Num(n)), "last_handshake_time_nsec=", Decimal.NumString(n));
  }

  lemma TrueLines()
    ensures AllTyped([Entry(ReplacePeers, Constant)]) && AllTyped([Entry(Remove, Constant)])
    ensures AllTyped([Entry(UpdateOnly, Constant)]) && AllTyped([Entry(ReplaceAllowedIPs, Constant)])
    ensures Encode([Entry(ReplacePeers, Constant)]) == "replace_peers=true\n"
    ensures Encode([Entry(Remove, Constant)]) == "remove=true\n"
    ensures Encode([Entry(UpdateOnly, Constant)]) == "update_only=true\n"
    ensures Encode([Entry(ReplaceAllowedIPs, Constant)]) == "replace_allowed_ips=true\n"
  {
    Line(Entry(ReplacePeers, Constant), "replace_peers=", "true");
    Line(Entry(Remove, Constant), "remove=", "true");
    Line(Entry(UpdateOnly, Constant), "update_only=", "true");
    Line(Entry(ReplaceAllowedIPs, Constant), "replace_allowed_ips=", "true");
  }

  lemma OneLines()
    ensures AllTyped([Entry(ProtocolVersion, Constant)]) && AllTyped([Entry(Get, Constant)]) && AllTyped([Entry(Set, Constant)])
    ensures Encode([Entry(ProtocolVersion, Constant)]) == "protocol_version=1\n"
    ensures Encode([Entry(Get, Constant)]) == "get=1\n"
    ensures Encode([Entry(Set, Constant)]) == "set=1\n"
  {
    Decimal.Numerals(1);
    Line(Entry(ProtocolVersion, Constant), "protocol_version=", "1");
    Line(Entry(Get, Constant), "get=", "1");
    Line(Entry(Set, Constant), "set=", "1");
  }

  lemma EndpointLine(addr: Address.UDPAddr)
    requires Address.To4(addr.ip).Some?
    ensures AllTyped([Entry(Endpoint, Addr(addr))])
    ensures Encode([Entry(Endpoint, Addr(addr))]) == "endpoint=" + Address.PrintAddr(addr) + "\n"
  {
    Line(Entry(Endpoint, Addr(addr)), "endpoint=", Address.PrintAddr(addr));
  }

  lemma AllowedLine(net: Address.IPNet)
    requires Address.IsV4(net)
    ensures AllTyped([Entry(AllowedIP, Net(net))])
    ensures Encode([Entry(AllowedIP, Net(net))]) == "allowed_ip=" + Address.PrintNet(net) + "\n"
  {
    Line(Entry(AllowedIP, Net(net)), "allowed_ip=", Address.PrintNet(net));
  }

  // ---- As read ----

  /** The line is read as the entry, or fails if there is none. */
  ghost predicate Reads(line: string, e: Option<Entry>) {
    if e.Some? then ReadLine(line) == Success(e.value) else ReadLine(line).Failure?
  }

  lemma Named(key: Key, prefix: string, v: string, e: Option<Entry>)
    requires prefix == Name(key) + ['=']
    requires if e.Some? then ReadEntry(key, v) == Success(e.value) else ReadEntry(key, v).Failure?
    ensures Reads(prefix + v, e)
  {
    LineReads(key, v);
  }

  /** A key line gives the bytes of exactly 64 hex digits. */
  function KeyFrom(key: Key, v: string): Option<Entry> {
    if |v| == 64 && Hex.AllHex(v) then Some(Entry(key, Bytes(Hex.Bytes(v)))) else None
  }

  lemma KeyReads(key: Key, v: string)
    requires KindOf(key) == KeyBytes
    ensures if KeyFrom(key, v).Some? then ReadEntry(key, v) == Success(KeyFrom(key, v).value) else ReadEntry(key, v).Failure?
  {
  }

  /** A number line gives the value of a non-empty digit string that is below the bound. */
  function NumberFrom(key: Key, v: string, bound: nat): Option<Entry> {
    if v != "" && Decimal.AllDigits(v) && Decimal.Value(v) < bound then Some(Entry(key, Num(Decimal.Value(v)))) else None
  }

  lemma NumberReads(key: Key, v: string, width: Width, bound: nat)
    requires KindOf(key) == Uint(width)
    requires bound == match width case W16 => 65536 case W32 => 4294967296 case W64 => 18446744073709551616
    ensures var e := NumberFrom(key, v, bound);
      if e.Some? then ReadEntry(key, v) == Success(e.value) else ReadEntry(key, v).Failure?
  {
  }

  /** A signed number line: digits after at most one sign, from -2^63 up to below 2^63. */
  function SignedFrom(key: Key, v: string): Option<Entry> {
    var digits := if v != "" && (v[0] == '-' || v[0] == '+') then v[1..] else v;
    if digits == "" || !Decimal.AllDigits(digits) then None
    else
      var n: int := (if v[0] == '-' then -1 else 1) * Decimal.Value(digits);
      if -9223372036854775808 <= n < 9223372036854775808 then Some(Entry(key, Num(n))) else None
  }

  lemma SignedReads(key: Key, v: string)
    requires KindOf(key) == Kind.Int64
    ensures var e := SignedFrom(key, v);
      if e.Some? then ReadEntry(key, v) == Success(e.value) else ReadEntry(key, v).Failure?
  {
  }

  function ConstantFrom(key: Key, v: string, constant: string): Option<Entry> {
    if v == constant then Some(Entry(key, Constant)) else None
  }

  lemma ConstantReads(key: Key, v: string, constant: string)
    requires (KindOf(key) == True && constant == "true") || (KindOf(key) == One && constant == "1")
    ensures var e := ConstantFrom(key, v, constant);
      if e.Some? then ReadEntry(key, v) == Success(e.value) else ReadEntry(key, v).Failure?
  {
  }

  lemma ReadsPrivateKey(v: string)
    ensures Reads("private_key=" + v, KeyFrom(PrivateKey, v))
  {
    KeyReads(PrivateKey, v);
    Named(PrivateKey, "private_key=", v, KeyFrom(PrivateKey, v));
  }

  lemma ReadsPublicKey(v: string)
    ensures Reads("public_key=" + v, KeyFrom(PublicKey, v))
  {
    KeyReads(PublicKey, v);
    Named(PublicKey, "public_key=", v, KeyFrom(PublicKey, v));
  }

  lemma ReadsPresharedKey(v: string)
    ensures Reads("preshared_key=" + v, KeyFrom(PresharedKey, v))
  {
    KeyReads(PresharedKey, v);
    Named(PresharedKey, "preshared_key=", v, KeyFrom(PresharedKey, v));
  }

  lemma ReadsListenPort(v: string)
    ensures Reads("listen_port=" + v, NumberFrom(ListenPort, v, 65536))
  {
    NumberReads(ListenPort, v, W16, 65536);
    Named(ListenPort, "listen_port=", v, NumberFrom(ListenPort, v, 65536));
  }

  lemma ReadsPersistentKeepalive(v: string)
    ensures Reads("persistent_keepalive_interval=" + v, NumberFrom(PersistentKeepalive, v, 65536))
  {
    NumberReads(PersistentKeepalive, v, W16, 65536);
    Named(PersistentKeepalive, "persistent_keepalive_interval=", v, NumberFrom(PersistentKeepalive, v, 65536));
  }

  lemma ReadsFWMark(v: string)
    ensures Reads("fwmark=" + v, NumberFrom(FWMark, v, 4294967296))
  {
    NumberReads(FWMark, v, W32, 4294967296);
    Named(FWMark, "fwmark=", v, NumberFrom(FWMark, v, 4294967296));
  }

  lemma ReadsRXBytes(v: string)
    ensures Reads("rx_bytes=" + v, NumberFrom(RXBytes, v, 18446744073709551616))
  {
    NumberReads(RXBytes, v, W64, 18446744073709551616);
    Named(RXBytes, "rx_bytes=", v, NumberFrom(RXBytes, v, 18446744073709551616));
  }

  lemma ReadsTXBytes(v: string)
    ensures Reads("tx_bytes=" + v, NumberFrom(TXBytes, v, 18446744073709551616))
  {
    NumberReads(TXBytes, v, W64, 18446744073709551616);
    Named(TXBytes, "tx_bytes=", v, NumberFrom(TXBytes, v, 18446744073709551616));
  }

  lemma ReadsErrno(v: string)
    ensures Reads("errno=" + v, SignedFrom(Errno, v))
  {
    SignedReads(Errno, v);
    Named(Errno, "errno=", v, SignedFrom(Errno, v));
  }

  lemma ReadsLastHandshakeTimeSec(v: string)
    ensures Reads("last_handshake_time_sec=" + v, SignedFrom(LastHandshakeTimeSec, v))
  {
    SignedReads(LastHandshakeTimeSec, v);
    Named(LastHandshakeTimeSec, "last_handshake_time_sec=", v, SignedFrom(LastHandshakeTimeSec, v));
  }

  lemma ReadsLastHandshakeTimeNSec(v: string)
    ensures Reads("last_handshake_time_nsec=" + v, SignedFrom(LastHandshakeTimeNSec, v))
  {
    SignedReads(LastHandshakeTimeNSec, v);
    Named(LastHandshakeTimeNSec, "last_handshake_time_nsec=", v, SignedFrom(LastHandshakeTimeNSec, v));
  }

  lemma ReadsReplacePeers(v: string)
    ensures Reads("replace_peers=" + v, ConstantFrom(ReplacePeers, v, "true"))
  {
    ConstantReads(ReplacePeers, v, "true");
    Named(ReplacePeers, "replace_peers=", v, ConstantFrom(ReplacePeers, v, "true"));
  }

  lemma ReadsRemove(v: string)
    ensures Reads("remove=" + v, ConstantFrom(Remove, v, "true"))
  {
    ConstantReads(Remove, v, "true");
    Named(Remove, "remove=", v, ConstantFrom(Remove, v, "true"));
  }

  lemma ReadsUpdateOnly(v: string)
    ensures Reads("update_only=" + v, ConstantFrom(UpdateOnly, v, "true"))
  {
    ConstantReads(UpdateOnly, v, "true");
    Named(UpdateOnly, "update_only=", v, ConstantFrom(UpdateOnly, v, "true"));
  }

  lemma ReadsReplaceAllowedIPs(v: string)
    ensures Reads("replace_allowed_ips=" + v, ConstantFrom(ReplaceAllowedIPs, v, "true"))
  {
    ConstantReads(ReplaceAllowedIPs, v, "true");
    Named(ReplaceAllowedIPs, "replace_allowed_ips=", v, ConstantFrom(ReplaceAllowedIPs, v, "true"));
  }

  lemma ReadsProtocolVersion(v: string)
    ensures Reads("protocol_version=" + v, ConstantFrom(ProtocolVersion, v, "1"))
  {
    ConstantReads(ProtocolVersion, v, "1");
    Named(ProtocolVersion, "protocol_version=", v, ConstantFrom(ProtocolVersion, v, "1"));
  }

  lemma ReadsGet(v: string)
    ensures Reads("get=" + v, ConstantFrom(Get, v, "1"))
  {
    ConstantReads(Get, v, "1");
    Named(Get, "get=", v, ConstantFrom(Get, v, "1"));
  }

  lemma ReadsSet(v: string)
    ensures Reads("set=" + v, ConstantFrom(Set, v, "1"))
  {
    ConstantReads(Set, v, "1");
    Named(Set, "set=", v, ConstantFrom(Set, v, "1"));
  }

  lemma ReadsEndpoint(v: string)
    ensures Reads("endpoint=" + v,
      if Address.AddrOf(v).Some? then Some(Entry(Endpoint, Addr(Address.AddrOf(v).value))) else None)
  {
    Named(Endpoint, "endpoint=", v,
      if Address.AddrOf(v).Some? then Some(Entry(Endpoint, Addr(Address.AddrOf(v).value))) else None);
  }

  lemma ReadsAllowedIP(v: string)
    ensures Reads("allowed_ip=" + v,
      if Address.NetOf(v).Some? then Some(Entry(AllowedIP, Net(Address.NetOf(v).value))) else None)
  {
    Named(AllowedIP, "allowed_ip=", v,
      if Address.NetOf(v).Some? then Some(Entry(AllowedIP, Net(Address.NetOf(v).value))) else None);
  }
}
