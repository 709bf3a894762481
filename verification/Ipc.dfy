/** pkg/wg/wgapi: the entries of the WireGuard configuration protocol, their printer and reader. */
module Ipc {
  import opened Prelude
  import opened Text
  import opened Scanner
  import Decimal
  import Hex
  import Address

  type byte = Hex.byte

  // ---- Keys ----

  datatype Key =
    | PrivateKey | PublicKey | PresharedKey | PersistentKeepalive | ReplacePeers | Remove | UpdateOnly
    | FWMark | ProtocolVersion | ReplaceAllowedIPs | ListenPort | Errno | LastHandshakeTimeSec
    | LastHandshakeTimeNSec | RXBytes | TXBytes | Endpoint | AllowedIP | Get | Set

  function Name(key: Key): string {
    match key
    case PrivateKey => "private_key"
    case PublicKey => "public_key"
    case PresharedKey => "preshared_key"
    case PersistentKeepalive => "persistent_keepalive_interval"
    case ReplacePeers => "replace_peers"
    case Remove => "remove"
    case UpdateOnly => "update_only"
    case FWMark => "fwmark"
    case ProtocolVersion => "protocol_version"
    case ReplaceAllowedIPs => "replace_allowed_ips"
    case ListenPort => "listen_port"
    case Errno => "errno"
    case LastHandshakeTimeSec => "last_handshake_time_sec"
    case LastHandshakeTimeNSec => "last_handshake_time_nsec"
    case RXBytes => "rx_bytes"
    case TXBytes => "tx_bytes"
    case Endpoint => "endpoint"
    case AllowedIP => "allowed_ip"
    case Get => "get"
    case Set => "set"
  }

  /** The keys of the parsers table, under the names it lists them by. */
  const PARSERS: map<string, Key> := map[
    "endpoint" := Endpoint,
    "allowed_ip" := AllowedIP,
    "replace_peers" := ReplacePeers,
    "remove" := Remove,
    "update_only" := UpdateOnly,
    "replace_allowed_ips" := ReplaceAllowedIPs,
    "get" := Get,
    "set" := Set,
    "protocol_version" := ProtocolVersion,
    "rx_bytes" := RXBytes,
    "tx_bytes" := TXBytes,
    "fwmark" := FWMark,
    "listen_port" := ListenPort,
    "persistent_keepalive_interval" := PersistentKeepalive,
    "errno" := Errno,
    "last_handshake_time_sec" := LastHandshakeTimeSec,
    "last_handshake_time_nsec" := LastHandshakeTimeNSec,
    "private_key" := PrivateKey,
    "public_key" := PublicKey,
    "preshared_key" := PresharedKey]

  lemma NamesAreFound(key: Key)
    ensures Name(key) in PARSERS && PARSERS[Name(key)] == key
  {
  }

  lemma ParsersNameKeys(name: string)
    requires name in PARSERS
    ensures Name(PARSERS[name]) == name
  {
  }

  /** The key a name names. */
  ghost function Lookup(name: string): (key: Option<Key>)
    ensures key.Some? ==> Name(key.value) == name
    ensures key.None? ==> forall k :: Name(k) != name
  {
    if exists k :: Name(k) == name then (var k :| Name(k) == name; Some(k)) else None
  }

  method FindParser(name: string) returns (key: Option<Key>)
    ensures key == Lookup(name)
  {
    if name in PARSERS {
      ParsersNameKeys(name);
      NamesAreFound(Lookup(name).value);
      key := Some(PARSERS[name]);
    } else {
      if Lookup(name).Some? {
        NamesAreFound(Lookup(name).value);
      }
      key := None;
    }
  }

  // ---- Values ----

  /** The value type of a key, which fixes its printer and its parser. */
  datatype Kind = KeyBytes | Uint(width: Width) | Int64 | True | One | UDPAddr | IPNet

  datatype Width = W16 | W32 | W64

  /** The first number a width has no room for. */
  function Bound(width: Width): (b: nat)
    ensures 0 < b <= Decimal.TWO_TO_64
  {
    match width case W16 => Decimal.TWO_TO_16 case W32 => Decimal.TWO_TO_32 case W64 => Decimal.TWO_TO_64
  }

  function KindOf(key: Key): Kind {
    match key
    case PrivateKey => KeyBytes
    case PublicKey => KeyBytes
    case PresharedKey => KeyBytes
    case PersistentKeepalive => Uint(W16)
    case ListenPort => Uint(W16)
    case FWMark => Uint(W32)
    case RXBytes => Uint(W64)
    case TXBytes => Uint(W64)
    case Errno => Int64
    case LastHandshakeTimeSec => Int64
    case LastHandshakeTimeNSec => Int64
    case ReplacePeers => True
    case Remove => True
    case UpdateOnly => True
    case ReplaceAllowedIPs => True
    case ProtocolVersion => One
    case Get => One
    case Set => One
    case Endpoint => UDPAddr
    case AllowedIP => IPNet
  }

  predicate PlainName(key: Key) {
    '=' !in Name(key) && '\n' !in Name(key)
  }

  lemma UnsignedNamesArePlain(key: Key)
    requires KindOf(key).Uint?
    ensures PlainName(key)
  {
  }

  lemma SignedNamesArePlain(key: Key)
    requires KindOf(key).Int64?
    ensures PlainName(key)
  {
  }

  lemma ConstantNamesArePlain(key: Key)
    requires KindOf(key).True? || KindOf(key).One?
    ensures PlainName(key)
  {
  }

  lemma OtherNamesArePlain(key: Key)
    requires KindOf(key).KeyBytes? || KindOf(key).UDPAddr? || KindOf(key).IPNet?
    ensures PlainName(key)
  {
  }

  /** Every key is in the table, under its own name only, and no name can break or cut a line. */
  lemma KeysAreDistinct(key: Key)
    ensures Name(key) in PARSERS && PARSERS[Name(key)] == key
    ensures '=' !in Name(key) && '\n' !in Name(key)
  {
    NamesAreFound(key);
    match KindOf(key)
    case Uint(_) => UnsignedNamesArePlain(key);
    case Int64 => SignedNamesArePlain(key);
    case True => ConstantNamesArePlain(key);
    case One => ConstantNamesArePlain(key);
    case _ => OtherNamesArePlain(key);
  }

  datatype Value =
    | Bytes(key: seq<byte>)
    | Num(n: int)
    | Constant
    | Addr(addr: Address.UDPAddr)
    | Net(net: Address.IPNet)

  /** The values Go's types admit, with IPv4 addresses only. */
  predicate Fits(kind: Kind, v: Value) {
    match kind
    case KeyBytes => v.Bytes? && |v.key| == Hex.KEY_LENGTH
    case Uint(width) => v.Num? && 0 <= v.n < Bound(width)
    case Int64 => v.Num? && -Decimal.TWO_TO_63 <= v.n < Decimal.TWO_TO_63
    case True => v.Constant?
    case One => v.Constant?
    case UDPAddr => v.Addr? && Address.To4(v.addr.ip).Some?
    case IPNet => v.Net? && Address.IsV4(v.net)
  }

  function Print(kind: Kind, v: Value): string
    requires Fits(kind, v)
  {
    match kind
    case KeyBytes => Hex.Encode(v.key)
    case Uint(_) => Decimal.NumString(v.n)
    case Int64 => Decimal.NumString(v.n)
    case True => "true"
    case One => Decimal.NumString(1)
    case UDPAddr => Address.PrintAddr(v.addr)
    case IPNet => Address.PrintNet(v.net)
  }

  /** Why Value stops; BoundsPanic is the runtime's check inside ParseKey. */
  datatype Error = NoEquals | UnknownKey | BadValue | BoundsPanic | Unterminated

  function Wrap<T>(parsed: Option<T>, value: T -> Value): Result<Value, Error> {
    if parsed.Some? then Success(value(parsed.value)) else Failure(BadValue)
  }

  /** What the parser of a kind makes of a text. */
  function Read(kind: Kind, s: string): (r: Result<Value, Error>)
    ensures r.Failure? ==> r.error == BadValue || r.error == BoundsPanic
  {
    match kind
    case KeyBytes =>
      if |s| >= 66 && Hex.AllHex(s[..66]) then Failure(BoundsPanic) else Wrap(Hex.KeyOf(s), k => Bytes(k))
    case Uint(width) => Wrap(Decimal.UintOf(s, Bound(width)), n => Num(n))
    case Int64 => Wrap(Decimal.Int64Of(s), n => Num(n))
    case True => if s == "true" then Success(Constant) else Failure(BadValue)
    case One => if s == "1" then Success(Constant) else Failure(BadValue)
    case UDPAddr => Wrap(Address.AddrOf(s), a => Addr(a))
    case IPNet => Wrap(Address.NetOf(s), n => Net(n))
  }

  /** The parsers of the table, run as the code runs them. */
  method Parse(kind: Kind, s: string) returns (r: Result<Value, Error>)
    ensures r == Read(kind, s)
  {
    match kind
    case KeyBytes =>
      var k := Hex.ParseKey(s);
      if k.Success? {
        r := Success(Bytes(k.value));
      } else {
        r := Failure(if k.error == Hex.BoundsPanic then BoundsPanic else BadValue);
      }
    case Uint(width) =>
      var n, err := Decimal.ParseUint(s, Bound(width));
      r := if err == Decimal.NoError then Success(Num(n)) else Failure(BadValue);
    case Int64 =>
      var n, err := Decimal.ParseInt64(s);
      r := if err == Decimal.NoError then Success(Num(n)) else Failure(BadValue);
    case _ =>
      r := Read(kind, s);
  }

  /** The value a reader gets for a printed one: addresses and subnets come in the parser's form. */
  function CanonicalValue(kind: Kind, v: Value): Value
    requires Fits(kind, v)
  {
    match kind
    case UDPAddr => Addr(Address.CanonicalAddr(v.addr))
    case IPNet => Net(Address.CanonicalNet(v.net))
    case _ => v
  }

  /** What survives printing and reading: numbers below 2^63, real ports and contiguous masks. */
  predicate Survives(kind: Kind, v: Value)
    requires Fits(kind, v)
  {
    match kind
    case Uint(_) => v.n < Decimal.TWO_TO_63
    case UDPAddr => 0 <= v.addr.port < Decimal.TWO_TO_16
    case IPNet => Address.SimpleMaskLength(Address.Mask4(v.net)).Some?
    case _ => true
  }

  predicate RoundTrips(kind: Kind, v: Value)
    requires Fits(kind, v)
  {
    Read(kind, Print(kind, v)) == Success(CanonicalValue(kind, v))
  }

  lemma KeyReads(v: Value)
    requires Fits(KeyBytes, v)
    ensures RoundTrips(KeyBytes, v)
  {
    Hex.KeyRoundTrip(v.key);
  }

  lemma NumberRoundTrips(kind: Kind, v: Value)
    requires (kind.Uint? || kind.Int64?) && Fits(kind, v)
    ensures RoundTrips(kind, v) <==> Survives(kind, v)
  {
    if kind.Uint? {
      Decimal.UintRoundTrip(v.n, Bound(kind.width));
    } else {
      Decimal.Int64RoundTrip(v.n);
    }
  }

  lemma EndpointRoundTrips(v: Value)
    requires Fits(UDPAddr, v)
    ensures RoundTrips(UDPAddr, v) <==> Survives(UDPAddr, v)
  {
    Address.AddrRoundTrip(v.addr);
  }

  lemma SubnetRoundTrips(v: Value)
    requires Fits(IPNet, v)
    ensures RoundTrips(IPNet, v) <==> Survives(IPNet, v)
  {
    Address.NetRoundTrip(v.net);
  }

  lemma ValueRoundTrip(kind: Kind, v: Value)
    requires Fits(kind, v)
    ensures Read(kind, Print(kind, v)) == Success(CanonicalValue(kind, v)) <==> Survives(kind, v)
  {
    match kind
    case KeyBytes => KeyReads(v);
    case Uint(_) => NumberRoundTrips(kind, v);
    case Int64 => NumberRoundTrips(kind, v);
    case UDPAddr => EndpointRoundTrips(v);
    case IPNet => SubnetRoundTrips(v);
    case _ =>
  }

  /** A value reads back as itself exactly if it survives and is in the parser's own form. */
  lemma ValueReadsItself(kind: Kind, v: Value)
    requires Fits(kind, v)
    ensures Read(kind, Print(kind, v)) == Success(v) <==> Survives(kind, v) && CanonicalValue(kind, v) == v
  {
    ValueRoundTrip(kind, v);
    match kind
    case Uint(width) => Decimal.UintRoundTrip(v.n, Bound(width));
    case UDPAddr => Address.AddrRoundTrip(v.addr);
    case IPNet =>
      var read := Address.NetOf(Address.PrintNet(v.net));
      if read == Some(v.net) {
        Address.NetReadsContiguous(Address.PrintNet(v.net));
      }
    case _ =>
  }

  lemma PrintStaysOnLine(kind: Kind, v: Value)
    requires Fits(kind, v)
    ensures '\n' !in Print(kind, v)
  {
    match kind
    case Uint(_) => Decimal.NumStringIsPlain(v.n);
    case Int64 => Decimal.NumStringIsPlain(v.n);
    case UDPAddr =>
      Address.QuadIsPlain(Address.To4(v.addr.ip).value);
      Address.ItoaIsPlain(v.addr.port);
    case IPNet =>
      Address.QuadIsPlain(Address.To4(v.net.ip).value);
      Address.MaskIsPlain(Address.Mask4(v.net));
    case _ =>
  }

  // ---- The printer ----

  datatype Entry = Entry(key: Key, value: Value) {
    predicate WellTyped() { Fits(KindOf(key), value) }
  }

  predicate AllTyped(entries: seq<Entry>) {
    forall k :: 0 <= k < |entries| ==> entries[k].WellTyped()
  }

  function LineOf(e: Entry): string
    requires e.WellTyped()
  {
    Name(e.key) + ['='] + Print(KindOf(e.key), e.value)
  }

  function LinesOf(entries: seq<Entry>): (lines: seq<string>)
    requires AllTyped(entries)
    ensures |lines| == |entries|
  {
    seq(|entries|, k requires 0 <= k < |entries| => LineOf(entries[k]))
  }

  /** key=value lines, one per entry */
  function Encode(entries: seq<Entry>): string
    requires AllTyped(entries)
  {
    Unlines(LinesOf(entries))
  }

  lemma LinesOfAppend(a: seq<Entry>, b: seq<Entry>)
    requires AllTyped(a) && AllTyped(b)
    ensures AllTyped(a + b) && LinesOf(a + b) == LinesOf(a) + LinesOf(b)
  {
  }

  lemma EncodeAppend(a: seq<Entry>, b: seq<Entry>)
    requires AllTyped(a) && AllTyped(b)
    ensures AllTyped(a + b) && Encode(a + b) == Encode(a) + Encode(b)
  {
    LinesOfAppend(a, b);
    UnlinesAppend(LinesOf(a), LinesOf(b));
  }

  lemma EncodeGrows(front: seq<Entry>, more: seq<Entry>, whole: seq<Entry>)
    requires AllTyped(front) && AllTyped(more) && whole == front + more
    ensures AllTyped(whole) && Encode(whole) == Encode(front) + Encode(more)
  {
    EncodeAppend(front, more);
  }

  lemma EncodeOne(e: Entry)
    requires e.WellTyped()
    ensures AllTyped([e]) && Encode([e]) == LineOf(e) + ['\n']
  {
    UnlinesCons(LineOf(e), []);
    assert LinesOf([e]) == [LineOf(e)] + [];
  }

  lemma EncodeNext(ipc: seq<Entry>, i: nat, buf: string, buf': string)
    requires AllTyped(ipc) && i < |ipc|
    requires buf == Encode(ipc[..i]) && buf' == buf + Encode([ipc[i]])
    ensures buf' == Encode(ipc[..i + 1])
  {
    TakeNext(ipc, i);
    EncodeGrows(ipc[..i], [ipc[i]], ipc[..i + 1]);
  }

  /** IPC.WGConfig writes every entry to a buffer, piece by piece. */
  method WGConfig(ipc: seq<Entry>) returns (buf: string)
    requires AllTyped(ipc)
    ensures buf == Encode(ipc)
  {
    buf := "";
    var i := 0;
    while i < |ipc|
      invariant 0 <= i <= |ipc|
      invariant buf == Encode(ipc[..i])
    {
      ghost var before := buf;
      buf := WriteEntry(buf, ipc[i]);
      EncodeNext(ipc, i, before, buf);
      i := i + 1;
    }
    assert ipc[..i] == ipc;
  }

  /** One round of WGConfig's loop. */
  method WriteEntry(buf: string, e: Entry) returns (buf': string)
    requires e.WellTyped()
    ensures AllTyped([e]) && buf' == buf + Encode([e])
  {
    var value := Print(KindOf(e.key), e.value);
    buf' := buf + Name(e.key);
    buf' := buf' + ['='];
    buf' := buf' + value;
    buf' := buf' + ['\n'];
    JoinPieces(buf, Name(e.key), value);
    EncodeOne(e);
  }

  lemma JoinPieces(buf: string, name: string, value: string)
    ensures buf + name + ['='] + value + ['\n'] == buf + (name + ['='] + value + ['\n'])
  {
  }

  // ---- The reader ----

  /** One line: cut at the first '=', look the key up, parse the rest. */
  ghost function ReadLine(line: string): (r: Result<Entry, Error>)
    ensures r.Failure? ==> r.error != Unterminated
  {
    var cut := Cut(line, '=');
    if !cut.2 then Failure(NoEquals)
    else if Lookup(cut.0).None? then Failure(UnknownKey)
    else ReadEntry(Lookup(cut.0).value, cut.1)
  }

  function ReadEntry(key: Key, s: string): (r: Result<Entry, Error>)
    ensures r.Failure? ==> r.error != Unterminated
  {
    match Read(KindOf(key), s)
    case Success(v) => Success(Entry(key, v))
    case Failure(e) => Failure(e)
  }

  /** What Value returns: an unterminated end comes with the entries before it, other errors alone. */
  datatype Reading = Reading(ipc: seq<Entry>, err: Option<Error>)

  /** The entries `front` before a reading; an error other than the missing end discards them. */
  function After(front: seq<Entry>, r: Reading): Reading {
    if r.err.None? || r.err == Some(Unterminated) then r.(ipc := front + r.ipc) else r
  }

  function Extend(line: Result<Entry, Error>, rest: Reading): Reading {
    if line.Failure? then Reading([], Some(line.error)) else After([line.value], rest)
  }

  /** Reads lines up to a blank one or to the end. */
  ghost function Decode(text: string): Reading
    decreases |text|
  {
    var i := IndexOf(text, '\n');
    if i == |text| then Reading([], if text == "" then None else Some(Unterminated))
    else if i == 0 then Reading([], None)
    else Extend(ReadLine(text[..i]), Decode(text[i + 1..]))
  }

  lemma DecodeLine(line: string, rest: string)
    requires '\n' !in line
    ensures Decode(line + ['\n'] + rest) ==
      if line == "" then Reading([], None) else Extend(ReadLine(line), Decode(rest))
  {
    FirstLine(line, rest);
  }

  lemma DecodeEnd(rest: string)
    requires '\n' !in rest
    ensures Decode(rest) == Reading([], if rest == "" then None else Some(Unterminated))
  {
    assert IndexOf(rest, '\n') == |rest|;
  }

  ghost predicate IsSuffix(rest: string, whole: string) {
    |rest| <= |whole| && rest == whole[|whole| - |rest|..]
  }

  lemma SuffixOf(whole: string, rest: string, front: string, back: string)
    requires IsSuffix(rest, whole) && rest == front + back
    ensures IsSuffix(back, whole)
  {
    assert back == rest[|rest| - |back|..];
  }

  /** `lines` have been read as `ipc`, and `rest` is left. */
  ghost predicate ReadSoFar(whole: string, lines: seq<string>, ipc: seq<Entry>, rest: string) {
    Decode(whole) == After(ipc, Decode(rest)) && Scanned(whole, lines, rest)
  }

  lemma ReadOn(whole: string, lines: seq<string>, ipc: seq<Entry>, before: string, line: string, rest: string)
    requires ReadSoFar(whole, lines, ipc, before)
    requires before == line + ['\n'] + rest && '\n' !in line
    ensures line == "" ==> Decode(whole) == Reading(ipc, None) && "" in Lines(whole)
    ensures line != "" && ReadLine(line).Failure? ==> Decode(whole) == Reading([], Some(ReadLine(line).error))
    ensures line != "" && ReadLine(line).Success? ==>
      ReadSoFar(whole, lines + [line], ipc + [ReadLine(line).value], rest)
  {
    DecodeLine(line, rest);
    ScanOn(whole, lines, before, line, rest);
    if line != "" && ReadLine(line).Success? {
      AfterOne(ipc, ReadLine(line).value, Decode(rest));
    } else {
      assert (lines + [line])[|lines|] == line;
      assert ipc + [] == ipc;
    }
  }

  lemma ReadToEnd(whole: string, lines: seq<string>, ipc: seq<Entry>, rest: string)
    requires ReadSoFar(whole, lines, ipc, rest) && '\n' !in rest
    ensures Decode(whole) == Reading(ipc, if rest == "" then None else Some(Unterminated))
  {
    DecodeEnd(rest);
    assert ipc + [] == ipc;
  }

  class IPCGet {
    const buf: Buffer

    constructor ()
      ensures fresh(buf) && buf.data == ""
    {
      buf := new Buffer();
    }

    method Write(b: string)
      modifies buf
      ensures buf.data == old(buf.data) + b
    {
      buf.Write(b);
    }

    method Reset()
      modifies buf
      ensures buf.data == ""
    {
      buf.Reset();
    }

    /**
     * Value reads what Decode reads, however the scanner's reads cut the buffer. It consumes
     * from the buffer, and all of it when it reads to the end.
     */
    method Value() returns (ipc: seq<Entry>, err: Option<Error>)
      modifies buf
      ensures Reading(ipc, err) == Decode(old(buf.data))
      ensures IsSuffix(buf.data, old(buf.data))
      ensures "" !in Lines(old(buf.data)) && (err.None? || err == Some(Unterminated)) ==> buf.data == ""
    {
      var sc := new LineScanner(buf);
      ghost var whole, lines := buf.data, [];
      ipc := [];
      while true
        invariant sc.Valid() && sc.src == buf && fresh(sc)
        invariant ReadSoFar(whole, lines, ipc, sc.Remaining())
        invariant IsSuffix(sc.Remaining(), whole)
        decreases |sc.Remaining()|
      {
        ghost var before := sc.Remaining();
        var more := sc.Scan();
        if !more {
          ReadToEnd(whole, lines, ipc, before);
          SuffixOf(whole, before, sc.buf, buf.data);
          var failed := sc.Err();
          err := if failed then Some(Unterminated) else None;
          return;
        }
        ghost var rest := sc.Remaining();
        SuffixOf(whole, before, sc.token + ['\n'], rest);
        SuffixOf(whole, rest, sc.buf, buf.data);
        var stop;
        ipc, err, stop := ParseLine(sc.token, ipc, whole, lines, before, rest);
        if stop {
          return;
        }
        lines := lines + [sc.token];
      }
    }
  }

  lemma AfterOne(front: seq<Entry>, e: Entry, rest: Reading)
    ensures After(front, After([e], rest)) == After(front + [e], rest)
  {
    assert front + ([e] + rest.ipc) == front + [e] + rest.ipc;
  }

  /** One round of Value's loop: it returns, or goes on with one more entry. */
  method ParseLine(line: string, ipc: seq<Entry>, ghost whole: string, ghost lines: seq<string>,
      ghost before: string, ghost rest: string)
    returns (ipc': seq<Entry>, err: Option<Error>, stop: bool)
    requires ReadSoFar(whole, lines, ipc, before)
    requires before == line + ['\n'] + rest && '\n' !in line
    ensures stop ==> Decode(whole) == Reading(ipc', err)
    ensures stop && (err.None? || err == Some(Unterminated)) ==> "" in Lines(whole)
    ensures !stop ==> ReadSoFar(whole, lines + [line], ipc', rest)
  {
    ReadOn(whole, lines, ipc, before, line, rest);
    if |line| == 0 {
      return ipc, None, true;
    }
    var cut := Cut(line, '=');
    if !cut.2 {
      return [], Some(NoEquals), true;
    }
    var key := FindParser(cut.0);
    if key.None? {
      return [], Some(UnknownKey), true;
    }
    var v := Parse(KindOf(key.value), cut.1);
    if v.Failure? {
      return [], Some(v.error), true;
    }
    return ipc + [Entry(key.value, v.value)], None, false;
  }
}
