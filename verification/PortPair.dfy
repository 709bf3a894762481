/** forward.go, PortPair: the texts [<host>:]<src>:<dst>[/<tcp|udp>]. */
module PortPair {
  import opened Prelude
  import opened Text
  import Decimal
  import Address
  import Hex

  type byte = Hex.byte

  /** configvalues.Port reads a text as a bounded decimal number. */
  function PortOf(s: string): Option<nat> {
    Decimal.UintOf(s, Decimal.TWO_TO_16)
  }

  /** configvalues.IP: an empty text is the nil address, any other must be a dotted quad. */
  function HostOf(s: string): Option<seq<byte>> {
    if s == "" then Some([])
    else if Address.QuadOf(s).Some? then Some(Address.To16(Address.QuadOf(s).value))
    else None
  }

  predicate IsProto(s: string) {
    s == "tcp" || s == "udp"
  }

  /** The fields; host is nil without a host part, and proto is what was last set. */
  datatype Fields = Fields(src: nat, dst: nat, proto: string, host: Option<seq<byte>>)

  const FRESH := Fields(0, 0, "", None)

  // ---- The grammar ----

  /** The parts of a text. */
  datatype Parts = Parts(host: Option<string>, src: string, dst: string, proto: Option<string>)

  function Target(p: Parts): string {
    if p.proto.Some? then p.dst + ['/'] + p.proto.value else p.dst
  }

  function Ports(p: Parts): string {
    p.src + [':'] + Target(p)
  }

  function Render(p: Parts): string {
    if p.host.Some? then p.host.value + [':'] + Ports(p) else Ports(p)
  }

  predicate Legal(p: Parts) {
    && (p.host.Some? ==> HostOf(p.host.value).Some?)
    && PortOf(p.src).Some? && PortOf(p.dst).Some?
    && (p.proto.Some? ==> IsProto(p.proto.value))
  }

  /** What legal parts set; a missing protocol leaves the one from before. */
  function Meaning(before: Fields, p: Parts): Fields
    requires Legal(p)
  {
    Fields(PortOf(p.src).value, PortOf(p.dst).value,
      if p.proto.Some? then p.proto.value else before.proto,
      if p.host.Some? then HostOf(p.host.value) else None)
  }

  // ---- The code's successive cuts ----

  /** One or two colons from the left, then a slash in what is left; None without any colon. */
  function Cuts(text: string): Option<Parts> {
    var first := Cut(text, ':');
    if !first.2 then None
    else
      var second := Cut(first.1, ':');
      var target := if second.2 then second.1 else first.1;
      Some(Parts(
        if second.2 then Some(first.0) else None,
        if second.2 then second.0 else first.0,
        Cut(target, '/').0,
        SlashPart(target)))
  }

  /** The fields after UnmarshalText and whether it succeeded: it stops at the first bad part. */
  function Unmarshal(before: Fields, text: string): (Fields, bool) {
    var cuts := Cuts(text);
    if cuts.None? then (before, false)
    else
      var p := cuts.value;
      var hosted := before.(host := HostField(p.host));
      if p.host.Some? && HostOf(p.host.value).None? then (hosted, false)
      else Targeted(hosted, p.src, p.dst, p.proto)
  }

  /** The nil address stands where a host did not read. */
  function HostField(host: Option<string>): Option<seq<byte>> {
    if host.None? then None else Some(HostOf(host.value).GetOr([]))
  }

  function Targeted(before: Fields, src: string, dst: string, proto: Option<string>): (Fields, bool) {
    if proto.None? then Numbered(before, src, dst)
    else if !IsProto(proto.value) then (before.(proto := proto.value), false)
    else Numbered(before.(proto := proto.value), src, dst)
  }

  function SlashPart(target: string): Option<string> {
    if Cut(target, '/').2 then Some(Cut(target, '/').1) else None
  }

  /** Each port that reads is set; the result is good if both do. */
  function Numbered(before: Fields, src: string, dst: string): (Fields, bool) {
    (before.(src := PortOf(src).GetOr(before.src), dst := PortOf(dst).GetOr(before.dst)),
     PortOf(src).Some? && PortOf(dst).Some?)
  }

  class PortPair {
    var src: nat
    var dst: nat
    var proto: string
    var host: Option<seq<byte>>

    function View(): Fields
      reads this
    {
      Fields(src, dst, proto, host)
    }

    constructor ()
      ensures View() == FRESH
    {
      src, dst, proto, host := 0, 0, "", None;
    }

    method UnmarshalText(b: string) returns (ok: bool)
      modifies this
      ensures (View(), ok) == Unmarshal(old(View()), b)
    {
      var first := Cut(b, ':');
      if !first.2 {
        return false;
      }
      var src', dst' := first.0, first.1;
      var second := Cut(first.1, ':');
      if second.2 {
        src', dst' := second.0, second.1;
        var hostOk := SetHost(first.0);
        if !hostOk {
          return false;
        }
      } else {
        host := None;
      }
      ok := SetTarget(src', dst');
    }

    /** The protocol after the first slash, if there is one, and then the ports. */
    method SetTarget(src': string, target: string) returns (ok: bool)
      modifies this`src, this`dst, this`proto
      ensures (View(), ok) == Targeted(old(View()), src', Cut(target, '/').0, SlashPart(target))
    {
      var slash := Cut(target, '/');
      if slash.2 {
        proto := slash.1;
        if !IsProto(proto) {
          return false;
        }
      }
      ok := SetPorts(src', slash.0);
    }

    /** Both ports are read, whether or not the first one was good. */
    method SetPorts(src': string, dst': string) returns (ok: bool)
      modifies this`src, this`dst
      ensures (View(), ok) == Numbered(old(View()), src', dst')
    {
      var s, srcErr := Decimal.ParseUint(src', Decimal.TWO_TO_16);
      var d, dstErr := Decimal.ParseUint(dst', Decimal.TWO_TO_16);
      if srcErr == Decimal.NoError {
        src := s;
      }
      if dstErr == Decimal.NoError {
        dst := d;
      }
      ok := srcErr == Decimal.NoError && dstErr == Decimal.NoError;
    }

    method SetHost(text: string) returns (ok: bool)
      modifies this`host
      ensures ok <==> HostOf(text).Some?
      ensures host == HostField(Some(text))
    {
      host := Some(HostOf(text).GetOr([]));
      ok := HostOf(text).Some?;
    }
  }

  // ---- The code accepts exactly the grammar ----

  lemma CutsRender(text: string)
    requires Cuts(text).Some?
    ensures Render(Cuts(text).value) == text
  {
    var first := Cut(text, ':');
    var second := Cut(first.1, ':');
    var target := if second.2 then second.1 else first.1;
    assert Target(Cuts(text).value) == target;
  }

  lemma PortLacks(s: string, c: char)
    requires PortOf(s).Some? && !Decimal.IsDigit(c)
    ensures c !in s
  {
    Address.DigitsLack(s, c);
  }

  lemma HostLacksColon(s: string)
    requires HostOf(s).Some?
    ensures ':' !in s
  {
    if s != "" {
      Address.QuadUnique(s);
      Address.QuadIsPlain(Address.QuadOf(s).value);
    }
  }

  lemma ProtoLacksColon(s: string)
    requires IsProto(s)
    ensures ':' !in s
  {
  }

  lemma CutNothing(s: string, sep: char)
    requires sep !in s
    ensures Cut(s, sep) == (s, "", false)
  {
  }

  /** Where the separators may stand: none but the last part can hold one that was passed over. */
  predicate Shaped(p: Parts) {
    && ':' !in p.src && '/' !in p.dst
    && if p.host.Some? then ':' !in p.host.value else ':' !in Target(p)
  }

  lemma TargetCuts(p: Parts)
    requires '/' !in p.dst
    ensures Cut(Target(p), '/') == (p.dst, if p.proto.Some? then p.proto.value else "", p.proto.Some?)
  {
    if p.proto.Some? {
      CutAt(p.dst, '/', p.proto.value);
    } else {
      CutNothing(p.dst, '/');
    }
  }

  /** Cutting the rendering of parts gives the parts back: a text has at most one reading. */
  lemma RenderCuts(p: Parts)
    requires Shaped(p)
    ensures Cuts(Render(p)) == Some(p)
  {
    TargetCuts(p);
    CutAt(p.src, ':', Target(p));
    if p.host.Some? {
      CutAt(p.host.value, ':', Ports(p));
    } else {
      CutNothing(Target(p), ':');
    }
  }

  lemma LegalIsShaped(p: Parts)
    requires Legal(p)
    ensures Shaped(p)
  {
    PortLacks(p.src, ':');
    PortLacks(p.dst, '/');
    PortLacks(p.dst, ':');
    if p.host.Some? {
      HostLacksColon(p.host.value);
    }
    if p.proto.Some? {
      ProtoLacksColon(p.proto.value);
    }
  }

  /** Exactly the texts with a colon have a reading. */
  lemma ReadingExists(text: string)
    ensures (exists p :: Shaped(p) && Render(p) == text) <==> ':' in text
  {
    if ':' in text {
      CutsRender(text);
      assert Shaped(Cuts(text).value);
    }
    forall p | Shaped(p) && Render(p) == text
      ensures ':' in text
    {
      RenderCuts(p);
    }
  }

  lemma ReadingIsUnique(p: Parts, q: Parts)
    requires Shaped(p) && Shaped(q) && Render(p) == Render(q)
    ensures p == q
  {
    RenderCuts(p);
    RenderCuts(q);
  }

  /** UnmarshalText accepts exactly the renderings of legal parts, and reads them as they mean. */
  lemma AcceptsExactly(before: Fields, text: string)
    ensures Unmarshal(before, text).1 <==> exists p :: Legal(p) && Render(p) == text
    ensures forall p :: Legal(p) && Render(p) == text ==> Unmarshal(before, text) == (Meaning(before, p), true)
  {
    if Unmarshal(before, text).1 {
      CutsRender(text);
      assert Legal(Cuts(text).value);
    }
    forall p | Legal(p) && Render(p) == text
      ensures Unmarshal(before, text) == (Meaning(before, p), true)
    {
      LegalIsShaped(p);
      RenderCuts(p);
    }
  }

  // ---- The grammar, spelled out ----

  /** A port: decimal digits up to 65535. */
  predicate PortText(s: string) {
    s != "" && Decimal.AllDigits(s) && Decimal.Value(s) < 65536
  }

  /** The host part: none, an empty one, or a dotted quad, with its colon. */
  ghost predicate HostText(s: string) {
    s == "" || s == ":" || exists q :: |q| == 4 && s == Address.PrintQuad(q) + ":"
  }

  ghost predicate Grammar(text: string, host: string, src: string, dst: string, proto: string) {
    && text == host + src + ":" + dst + proto
    && HostText(host) && PortText(src) && PortText(dst)
    && (proto == "" || proto == "/tcp" || proto == "/udp")
  }

  /** UnmarshalText accepts exactly the texts [<host>:]<src>:<dst>[/<tcp|udp>]. */
  lemma AcceptsGrammar(before: Fields, text: string)
    ensures Unmarshal(before, text).1 <==> exists host, src, dst, proto :: Grammar(text, host, src, dst, proto)
  {
    AcceptsExactly(before, text);
    if Unmarshal(before, text).1 {
      var p :| Legal(p) && Render(p) == text;
      LegalIsGrammar(p);
    }
    forall host, src, dst, proto | Grammar(text, host, src, dst, proto)
      ensures exists p :: Legal(p) && Render(p) == text
    {
      var p := GrammarIsLegal(text, host, src, dst, proto);
    }
  }

  lemma LegalIsGrammar(p: Parts)
    requires Legal(p)
    ensures exists host, src, dst, proto :: Grammar(Render(p), host, src, dst, proto)
  {
    var host := if p.host.Some? then p.host.value + ":" else "";
    var proto := if p.proto.Some? then "/" + p.proto.value else "";
    if p.host.Some? && p.host.value != "" {
      Address.QuadUnique(p.host.value);
      var q := Address.QuadOf(p.host.value).value;
      assert |q| == 4 && host == Address.PrintQuad(q) + ":";
    }
    RenderText(p, host, proto);
    assert Grammar(Render(p), host, p.src, p.dst, proto);
  }

  lemma RenderText(p: Parts, host: string, proto: string)
    requires host == if p.host.Some? then p.host.value + ":" else ""
    requires proto == if p.proto.Some? then "/" + p.proto.value else ""
    ensures Render(p) == host + p.src + ":" + p.dst + proto
  {
    assert Target(p) == p.dst + proto;
    assert Ports(p) == p.src + ":" + p.dst + proto;
  }

  lemma HostFrom(host: string) returns (h: Option<string>)
    requires HostText(host)
    ensures host == if h.Some? then h.value + ":" else ""
    ensures h.Some? ==> HostOf(h.value).Some?
  {
    if host == "" {
      h := None;
    } else if host == ":" {
      h := Some("");
    } else {
      var q :| |q| == 4 && host == Address.PrintQuad(q) + ":";
      h := Some(Address.PrintQuad(q));
      HostReads(q);
    }
  }

  lemma ProtoFrom(proto: string) returns (p: Option<string>)
    requires proto == "" || proto == "/tcp" || proto == "/udp"
    ensures proto == if p.Some? then "/" + p.value else ""
    ensures p.Some? ==> IsProto(p.value)
  {
    p := if proto == "" then None else Some(if proto == "/tcp" then "tcp" else "udp");
  }

  lemma GrammarIsLegal(text: string, host: string, src: string, dst: string, proto: string) returns (p: Parts)
    requires Grammar(text, host, src, dst, proto)
    ensures Legal(p) && Render(p) == text
  {
    var h := HostFrom(host);
    var named := ProtoFrom(proto);
    p := Parts(h, src, dst, named);
    RenderText(p, host, proto);
  }

  lemma PortReads(n: nat)
    requires n < Decimal.TWO_TO_16
    ensures PortOf(Decimal.Print(n)) == Some(n)
  {
    Decimal.ValueOfPrint(n);
  }

  lemma HostReads(quad: seq<byte>)
    requires |quad| == 4
    ensures HostOf(Address.PrintQuad(quad)) == Some(Address.To16(quad))
  {
    Address.QuadRoundTrip(quad);
    assert Address.QuadOf("").None?;
  }

  lemma LegalReads(before: Fields, p: Parts)
    requires Legal(p)
    ensures Unmarshal(before, Render(p)) == (Meaning(before, p), true)
  {
    AcceptsExactly(before, Render(p));
  }

  /** Ports, host and protocol come back from their own rendering. */
  lemma RoundTrip(before: Fields, host: Option<seq<byte>>, src: nat, dst: nat, proto: Option<string>)
    requires src < Decimal.TWO_TO_16 && dst < Decimal.TWO_TO_16
    requires host.Some? ==> |host.value| == 4
    requires proto.Some? ==> IsProto(proto.value)
    ensures var p := Parts(if host.Some? then Some(Address.PrintQuad(host.value)) else None,
        Decimal.Print(src), Decimal.Print(dst), proto);
      Unmarshal(before, Render(p)) == (
        Fields(src, dst, if proto.Some? then proto.value else before.proto,
          if host.Some? then Some(Address.To16(host.value)) else None), true)
  {
    PortReads(src);
    PortReads(dst);
    if host.Some? {
      HostReads(host.value);
    }
    LegalReads(before, Parts(if host.Some? then Some(Address.PrintQuad(host.value)) else None,
      Decimal.Print(src), Decimal.Print(dst), proto));
  }

  /**
   * An accepted text gives the fields it gives to a fresh value, whatever was there before,
   * exactly if it names a protocol or none had been set.
   */
  lemma ProtoExactly(before: Fields, p: Parts)
    requires Legal(p)
    ensures Unmarshal(before, Render(p)) == Unmarshal(FRESH, Render(p)) <==> p.proto.Some? || before.proto == ""
  {
    LegalReads(before, p);
    LegalReads(FRESH, p);
  }

  /** A text with no reading changes nothing. */
  lemma NoColonChangesNothing(before: Fields, text: string)
    requires ':' !in text
    ensures Unmarshal(before, text) == (before, false)
  {
  }

  predicate HostIsGood(p: Parts) {
    p.host.None? || HostOf(p.host.value).Some?
  }

  predicate ProtoIsGood(p: Parts) {
    p.proto.None? || IsProto(p.proto.value)
  }

  /**
   * What a text that is read but not accepted leaves behind. The host is always overwritten; the
   * protocol is overwritten, even by a bad one, exactly if one is named and the host was good; a
   * port is overwritten exactly if it is good and everything before it was.
   */
  lemma RejectedLeaves(before: Fields, p: Parts)
    requires Shaped(p) && !Legal(p)
    ensures var (after, ok) := Unmarshal(before, Render(p));
      && !ok
      && after.host == HostField(p.host)
      && after.proto == (if HostIsGood(p) && p.proto.Some? then p.proto.value else before.proto)
      && (after.src == if HostIsGood(p) && ProtoIsGood(p) then PortOf(p.src).GetOr(before.src) else before.src)
      && (after.dst == if HostIsGood(p) && ProtoIsGood(p) then PortOf(p.dst).GetOr(before.dst) else before.dst)
  {
    RenderCuts(p);
    if HostIsGood(p) {
      TargetLeaves(before.(host := HostField(p.host)), p);
    }
  }

  lemma TargetLeaves(before: Fields, p: Parts)
    requires HostIsGood(p) && !Legal(p)
    ensures var (after, ok) := Targeted(before, p.src, p.dst, p.proto);
      && !ok
      && after.host == before.host
      && after.proto == p.proto.GetOr(before.proto)
      && (after.src == if ProtoIsGood(p) then PortOf(p.src).GetOr(before.src) else before.src)
      && (after.dst == if ProtoIsGood(p) then PortOf(p.dst).GetOr(before.dst) else before.dst)
  {
  }

  /**
   * A rejected text leaves what it leaves on a fresh value, whatever was there before, exactly if
   * every field it does not overwrite held its first value.
   */
  lemma RejectedExactly(before: Fields, p: Parts)
    requires Shaped(p) && !Legal(p)
    ensures Unmarshal(before, Render(p)) == Unmarshal(FRESH, Render(p)) <==>
      && (before.proto == "" || (HostIsGood(p) && p.proto.Some?))
      && (before.src == 0 || (HostIsGood(p) && ProtoIsGood(p) && PortOf(p.src).Some?))
      && (before.dst == 0 || (HostIsGood(p) && ProtoIsGood(p) && PortOf(p.dst).Some?))
  {
    RejectedLeaves(before, p);
    RejectedLeaves(FRESH, p);
  }

  /** A protocol once set stays if the next text names none: the result depends on the object. */
  lemma ProtoIsKept()
    ensures var used := Unmarshal(FRESH, "1:2/udp").0;
      Unmarshal(used, "1:2").0.proto == "udp" && Unmarshal(FRESH, "1:2").0.proto == ""
  {
    var with, without := Parts(None, "1", "2", Some("udp")), Parts(None, "1", "2", None);
    assert Render(with) == "1:2/udp" && Render(without) == "1:2";
    assert Legal(with) && Legal(without) by {
      assert Decimal.Value("1"[..0]) == 0 && Decimal.Value("2"[..0]) == 0;
    }
    AcceptsExactly(FRESH, "1:2/udp");
    AcceptsExactly(Meaning(FRESH, with), "1:2");
    AcceptsExactly(FRESH, "1:2");
  }
}
