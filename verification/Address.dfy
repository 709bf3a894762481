/** IPv4 addresses, subnets and endpoints as the net package prints and reads them. */
module Address {
  import opened Prelude
  import opened Decimal
  import opened Text
  import Hex

  type byte = Hex.byte

  // ---- Addresses ----

  /** The prefix of an IPv4 address in its 16-byte form. */
  const V4_IN_V6: seq<byte> := [0, 0, 0, 0, 0, 0, 0, 0, 0, 0, 255, 255]

  /** net.IP.To4: the four bytes of an IPv4 address in either form. */
  function To4(ip: seq<byte>): (r: Option<seq<byte>>)
    ensures r.Some? ==> |r.value| == 4
  {
    if |ip| == 4 then Some(ip)
    else if |ip| == 16 && ip[..12] == V4_IN_V6 then Some(ip[12..])
    else None
  }

  /** net.IP.To16 */
  function To16(ip: seq<byte>): seq<byte> {
    if |ip| == 4 then V4_IN_V6 + ip else ip
  }

  lemma BothForms(quad: seq<byte>)
    requires |quad| == 4
    ensures To4(quad) == Some(quad) && To4(To16(quad)) == Some(quad)
  {
  }

  /** The two forms of an IPv4 address, and nothing else, are IPv4 addresses. */
  lemma FormsOfAddress(ip: seq<byte>, quad: seq<byte>)
    requires |quad| == 4
    ensures To4(ip) == Some(quad) <==> ip == quad || ip == [0, 0, 0, 0, 0, 0, 0, 0, 0, 0, 255, 255] + quad
    ensures To16(quad) == [0, 0, 0, 0, 0, 0, 0, 0, 0, 0, 255, 255] + quad
  {
    if |ip| == 16 {
      assert ip == ip[..12] + ip[12..];
    }
    var long := [0, 0, 0, 0, 0, 0, 0, 0, 0, 0, 255, 255] + quad;
    assert long[..12] == V4_IN_V6 && long[12..] == quad;
  }

  function Dotted(b: byte, rest: string): string {
    Print(b) + ['.'] + rest
  }

  function PrintFields(q: seq<byte>): string
    requires q != []
  {
    if |q| == 1 then Print(q[0]) else Dotted(q[0], PrintFields(q[1..]))
  }

  function PrintQuad(q: seq<byte>): string
    requires |q| == 4
  {
    PrintFields(q)
  }

  /** One field of a dotted quad: a decimal number up to 255 without leading zeros. */
  function OctetOf(s: string): Option<byte> {
    if AllDigits(s) && NoLeadingZero(s) && Value(s) < 256 then Some(Value(s)) else None
  }

  function Prepend(first: Option<byte>, rest: Option<seq<byte>>): Option<seq<byte>> {
    if first.Some? && rest.Some? then Some([first.value] + rest.value) else None
  }

  /** n octets between dots. */
  function FieldsOf(s: string, n: nat): (r: Option<seq<byte>>)
    requires n > 0
    ensures r.Some? ==> |r.value| == n
  {
    if n == 1 then Prepend(OctetOf(s), Some([]))
    else
      var cut := Cut(s, '.');
      if cut.2 then Prepend(OctetOf(cut.0), FieldsOf(cut.1, n - 1)) else None
  }

  /** netip.ParseAddr on texts without a colon. */
  function QuadOf(s: string): (r: Option<seq<byte>>)
    ensures r.Some? ==> |r.value| == 4
  {
    FieldsOf(s, 4)
  }

  lemma DigitsLack(s: string, c: char)
    requires AllDigits(s) && !IsDigit(c)
    ensures c !in s
  {
  }

  lemma OctetRoundTrip(b: byte, rest: string)
    ensures OctetOf(Print(b)) == Some(b)
    ensures Cut(Dotted(b, rest), '.') == (Print(b), rest, true)
  {
    ValueOfPrint(b);
    DigitsLack(Print(b), '.');
    CutAt(Print(b), '.', rest);
  }

  lemma OctetUnique(s: string)
    requires OctetOf(s).Some?
    ensures Print(OctetOf(s).value) == s
  {
    PrintOfValue(s);
  }

  lemma {:induction false} FieldsRoundTrip(q: seq<byte>)
    requires q != []
    ensures FieldsOf(PrintFields(q), |q|) == Some(q)
  {
    var rest := q[1..];
    assert q == [q[0]] + rest;
    if rest == [] {
      OctetRoundTrip(q[0], "");
    } else {
      OctetRoundTrip(q[0], PrintFields(rest));
      FieldsRoundTrip(rest);
      assert PrintFields(q) == Dotted(q[0], PrintFields(rest));
      assert FieldsOf(PrintFields(q), |q|) == Prepend(Some(q[0]), Some(rest));
    }
  }

  lemma {:induction false} FieldsUnique(s: string, n: nat)
    requires n > 0 && FieldsOf(s, n).Some?
    ensures PrintFields(FieldsOf(s, n).value) == s
  {
    if n == 1 {
      OctetUnique(s);
    } else {
      var first, rest := Cut(s, '.').0, Cut(s, '.').1;
      OctetUnique(first);
      FieldsUnique(rest, n - 1);
      var q := FieldsOf(rest, n - 1).value;
      assert FieldsOf(s, n).value == [OctetOf(first).value] + q;
      FieldsCons(OctetOf(first).value, q);
    }
  }

  lemma FieldsCons(b: byte, q: seq<byte>)
    requires q != []
    ensures PrintFields([b] + q) == Dotted(b, PrintFields(q))
  {
    assert ([b] + q)[1..] == q;
  }

  /** Dotted quads are exactly the printed addresses, and name one address each. */
  lemma QuadRoundTrip(q: seq<byte>)
    requires |q| == 4
    ensures QuadOf(PrintQuad(q)) == Some(q)
  {
    FieldsRoundTrip(q);
  }

  lemma QuadUnique(s: string)
    requires QuadOf(s).Some?
    ensures PrintQuad(QuadOf(s).value) == s
  {
    FieldsUnique(s, 4);
  }

  /** The four fields in order, with dots between them. */
  lemma QuadText(a: byte, b: byte, c: byte, d: byte)
    ensures PrintQuad([a, b, c, d]) == Print(a) + "." + Print(b) + "." + Print(c) + "." + Print(d)
  {
    FieldsCons(a, [b, c, d]);
    FieldsCons(b, [c, d]);
    FieldsCons(c, [d]);
    assert [a] + [b, c, d] == [a, b, c, d] && [b] + [c, d] == [b, c, d] && [c] + [d] == [c, d];
    FourFields(Print(a), Print(b), Print(c), Print(d));
  }

  lemma FourFields(a: string, b: string, c: string, d: string)
    ensures a + ['.'] + (b + ['.'] + (c + ['.'] + d)) == a + "." + b + "." + c + "." + d
  {
  }

  predicate AddressChar(c: char) {
    IsDigit(c) || c == '.'
  }

  lemma {:induction false} FieldsArePlain(q: seq<byte>)
    requires q != []
    ensures forall c :: c in PrintFields(q) ==> AddressChar(c)
  {
    forall c | !AddressChar(c)
      ensures c !in Print(q[0])
    {
      DigitsLack(Print(q[0]), c);
    }
    if |q| > 1 {
      FieldsArePlain(q[1..]);
    }
  }

  lemma QuadIsPlain(q: seq<byte>)
    requires |q| == 4
    ensures forall c :: c in PrintQuad(q) ==> AddressChar(c)
  {
    FieldsArePlain(q);
  }

  // ---- Subnets ----

  /** net.IPNet */
  datatype IPNet = IPNet(ip: seq<byte>, mask: seq<byte>)

  /** Bitwise and. */
  function And(x: nat, m: nat): nat {
    if x == 0 || m == 0 then 0
    else 2 * And(x / 2, m / 2) + (if x % 2 == 1 && m % 2 == 1 then 1 else 0)
  }

  lemma {:induction false} AndBound(x: nat, m: nat)
    ensures And(x, m) <= x
  {
    if x != 0 && m != 0 {
      AndBound(x / 2, m / 2);
    }
  }

  function Pow2(n: nat): (p: nat)
    ensures p > 0
  {
    if n == 0 then 1 else 2 * Pow2(n - 1)
  }

  /** The byte of `ones` one bits followed by zeros, for fewer than eight. */
  function MaskByte(ones: nat): (b: byte)
    requires ones < 8
  {
    [0, 128, 192, 224, 240, 248, 252, 254][ones]
  }

  /** net.CIDRMask, by its length in bytes. */
  function CIDRMask(ones: nat, length: nat): (m: seq<byte>)
    requires ones <= 8 * length
    ensures |m| == length
  {
    if length == 0 then []
    else if ones >= 8 then [255 as byte] + CIDRMask(ones - 8, length - 1)
    else [MaskByte(ones)] + CIDRMask(0, length - 1)
  }

  /** net.IP.Mask on an address and a mask of one length. */
  function ApplyMask(ip: seq<byte>, mask: seq<byte>): (r: seq<byte>)
    requires |ip| == |mask|
    ensures |r| == |ip|
  {
    if ip == [] then []
    else
      AndBound(ip[0], mask[0]);
      var b: byte := And(ip[0], mask[0]);
      [b] + ApplyMask(ip[1..], mask[1..])
  }

  /** The leading ones of a last mask byte, if nothing but zeros follows them. */
  function LeadingOnes(b: byte): (n: Option<nat>)
    ensures n.Some? ==> n.value < 8 && MaskByte(n.value) == b
  {
    if b == 0 then Some(0) else if b == 128 then Some(1) else if b == 192 then Some(2)
    else if b == 224 then Some(3) else if b == 240 then Some(4) else if b == 248 then Some(5)
    else if b == 252 then Some(6) else if b == 254 then Some(7) else None
  }

  /** net's simpleMaskLength: the number of ones of a contiguous mask. */
  function SimpleMaskLength(mask: seq<byte>): Option<nat> {
    if mask == [] then Some(0)
    else if mask[0] == 255 then
      match SimpleMaskLength(mask[1..])
      case Some(n) => Some(n + 8)
      case None => None
    else if forall i :: 1 <= i < |mask| ==> mask[i] == 0 then LeadingOnes(mask[0])
    else None
  }

  lemma {:induction false} ZeroMask(length: nat)
    ensures forall i :: 0 <= i < length ==> CIDRMask(0, length)[i] == 0
  {
    if length == 0 {
    } else {
      ZeroMask(length - 1);
    }
  }

  lemma {:induction false} MaskRoundTrip(ones: nat, length: nat)
    requires ones <= 8 * length
    ensures SimpleMaskLength(CIDRMask(ones, length)) == Some(ones)
  {
    if length == 0 {
    } else {
      var rest := if ones >= 8 then ones - 8 else 0;
      assert CIDRMask(ones, length)[1..] == CIDRMask(rest, length - 1);
      if ones >= 8 {
        MaskRoundTrip(ones - 8, length - 1);
      } else {
        ZeroMask(length - 1);
      }
    }
  }

  /** A mask with a length is the CIDR mask of that length. */
  lemma {:induction false} ContiguousMask(mask: seq<byte>)
    requires SimpleMaskLength(mask).Some?
    ensures SimpleMaskLength(mask).value <= 8 * |mask|
    ensures mask == CIDRMask(SimpleMaskLength(mask).value, |mask|)
  {
    if mask == [] {
    } else {
      if mask[0] == 255 {
        ContiguousMask(mask[1..]);
      } else {
        ZeroMask(|mask| - 1);
        assert mask[1..] == CIDRMask(0, |mask| - 1);
      }
    }
  }

  /** net's networkNumberAndMask for the subnets of IPv4 addresses. */
  predicate IsV4(net: IPNet) {
    To4(net.ip).Some? && (|net.mask| == 4 || |net.mask| == 16)
  }

  function Mask4(net: IPNet): (m: seq<byte>)
    requires IsV4(net)
    ensures |m| == 4
  {
    if |net.mask| == 4 then net.mask else net.mask[12..]
  }

  /** net.IPNet.String: a contiguous mask prints as its length, any other in hexadecimal. */
  function PrintNet(net: IPNet): string
    requires IsV4(net)
  {
    var mask := Mask4(net);
    PrintQuad(To4(net.ip).value) + ['/'] + PrintMask(mask)
  }

  function PrintMask(mask: seq<byte>): string {
    match SimpleMaskLength(mask)
    case Some(ones) => Print(ones)
    case None => Hex.Encode(mask)
  }

  /** The prefix length a text denotes. */
  function LengthOf(s: string): (n: Option<nat>)
    ensures n.Some? ==> n.value <= 32
  {
    if s != "" && AllDigits(s) && Value(s) <= 32 then Some(Value(s)) else None
  }

  /** net.ParseCIDR on IPv4 texts; the subnet carries the masked address in four bytes. */
  function NetOf(s: string): Option<IPNet> {
    var (addr, len, slash) := Cut(s, '/');
    if slash && QuadOf(addr).Some? && LengthOf(len).Some?
    then Some(Subnet(QuadOf(addr).value, LengthOf(len).value))
    else None
  }

  function Subnet(quad: seq<byte>, ones: nat): IPNet
    requires |quad| == 4 && ones <= 32
  {
    IPNet(ApplyMask(quad, CIDRMask(ones, 4)), CIDRMask(ones, 4))
  }

  /** The subnet as ParseCIDR would build it. */
  function CanonicalNet(net: IPNet): IPNet
    requires IsV4(net)
  {
    IPNet(ApplyMask(To4(net.ip).value, Mask4(net)), Mask4(net))
  }

  lemma PrintNetCuts(net: IPNet)
    requires IsV4(net)
    ensures Cut(PrintNet(net), '/') == (PrintQuad(To4(net.ip).value), PrintMask(Mask4(net)), true)
    ensures QuadOf(PrintQuad(To4(net.ip).value)) == To4(net.ip)
  {
    var quad := To4(net.ip).value;
    QuadRoundTrip(quad);
    QuadIsPlain(quad);
    CutAt(PrintQuad(quad), '/', PrintMask(Mask4(net)));
  }

  lemma NetOfPrinted(net: IPNet)
    requires IsV4(net)
    ensures var ones := LengthOf(PrintMask(Mask4(net)));
      NetOf(PrintNet(net)) == if ones.Some? then Some(Subnet(To4(net.ip).value, ones.value)) else None
  {
    PrintNetCuts(net);
  }

  lemma LengthOfMask(mask: seq<byte>)
    requires |mask| == 4
    ensures LengthOf(PrintMask(mask)).Some? && CIDRMask(LengthOf(PrintMask(mask)).value, 4) == mask
      <==> SimpleMaskLength(mask).Some?
  {
    if SimpleMaskLength(mask).Some? {
      ContiguousMask(mask);
      ValueOfPrint(SimpleMaskLength(mask).value);
    } else if LengthOf(PrintMask(mask)).Some? {
      MaskRoundTrip(LengthOf(PrintMask(mask)).value, 4);
    }
  }

  /** A printed subnet reads back as its canonical form exactly if its mask is contiguous. */
  lemma NetRoundTrip(net: IPNet)
    requires IsV4(net)
    ensures NetOf(PrintNet(net)) == Some(CanonicalNet(net)) <==> SimpleMaskLength(Mask4(net)).Some?
  {
    NetOfPrinted(net);
    LengthOfMask(Mask4(net));
  }

  lemma NetReadsContiguous(s: string)
    requires NetOf(s).Some?
    ensures |NetOf(s).value.mask| == 4 && SimpleMaskLength(NetOf(s).value.mask).Some?
  {
    MaskRoundTrip(LengthOf(Cut(s, '/').1).value, 4);
  }

  /** A subnet's text: a prefix mask as its length, any other in hexadecimal. */
  lemma NetText(net: IPNet, ones: nat)
    requires IsV4(net) && ones <= 32
    ensures Mask4(net) == CIDRMask(ones, 4) ==> PrintNet(net) == PrintQuad(To4(net.ip).value) + "/" + Print(ones)
    ensures (forall n :: 0 <= n <= 32 ==> Mask4(net) != CIDRMask(n, 4)) ==>
      PrintNet(net) == PrintQuad(To4(net.ip).value) + "/" + Hex.Encode(Mask4(net))
  {
    MaskRoundTrip(ones, 4);
    if SimpleMaskLength(Mask4(net)).Some? {
      ContiguousMask(Mask4(net));
    }
  }

  lemma HexOfOne(hex: string)
    requires hex == Hex.Encode([0, 0, 0, 1])
    ensures hex != "" && AllDigits(hex) && Value(hex) == 1
  {
    var front := hex[..7];
    assert hex[0] == '0' && hex[1] == '0' && hex[2] == '0' && hex[3] == '0';
    assert hex[4] == '0' && hex[5] == '0' && hex[6] == '0' && hex[7] == '1';
    ValueOfZeros(front);
  }

  /** A mask with a gap prints in hexadecimal, and that may read as a prefix length: 0.0.0.1 does. */
  lemma GappedMaskMisreads(net: IPNet)
    requires IsV4(net) && Mask4(net) == [0, 0, 0, 1]
    ensures NetOf(PrintNet(net)).Some? && NetOf(PrintNet(net)).value.mask == CIDRMask(1, 4) != Mask4(net)
  {
    var mask := Mask4(net);
    assert SimpleMaskLength(mask).None? by {
      assert mask[3] == 1;
    }
    NetOfPrinted(net);
    HexOfOne(PrintMask(mask));
    MaskRoundTrip(1, 4);
  }

  lemma {:induction false} ValueOfZeros(s: string)
    requires forall i :: 0 <= i < |s| ==> s[i] == '0'
    ensures Value(s) == 0
  {
    if s == "" {
    } else {
      ValueOfZeros(s[..|s| - 1]);
    }
  }

  /** Reading and printing again changes nothing exactly if the address has no host bits. */
  lemma PrintedNetIsStable(net: IPNet)
    requires IsV4(net)
    ensures PrintNet(CanonicalNet(net)) == PrintNet(net) <==>
            ApplyMask(To4(net.ip).value, Mask4(net)) == To4(net.ip).value
  {
    PrintNetCuts(net);
    PrintNetCuts(CanonicalNet(net));
  }

  /** wgapi.IdentitySubnet */
  function IdentitySubnet(ip: seq<byte>): IPNet {
    IPNet(To16(ip), CIDRMask(128, 16))
  }

  // ---- Masks bit by bit ----

  /** Bit j of a byte, the lowest being 0. */
  function ByteBit(b: nat, j: nat): (bit: nat)
    ensures bit < 2
  {
    if j == 0 then b % 2 else ByteBit(b / 2, j - 1)
  }

  /** Bit i of an address, the highest being 0. */
  function Bit(ip: seq<byte>, i: nat): nat
    requires i < 8 * |ip|
  {
    ByteBit(ip[i / 8], 7 - i % 8)
  }

  lemma {:induction false} AndBit(x: nat, m: nat, j: nat)
    ensures ByteBit(And(x, m), j) == if ByteBit(m, j) == 1 then ByteBit(x, j) else 0
    decreases j
  {
    if x == 0 || m == 0 {
      NoBits(j);
    } else if j > 0 {
      AndBit(x / 2, m / 2, j - 1);
    }
  }

  lemma {:induction false} NoBits(j: nat)
    ensures ByteBit(0, j) == 0
  {
    if j == 0 {
    } else {
      NoBits(j - 1);
    }
  }

  lemma {:induction false} Pow2Grows(a: nat, b: nat)
    requires a <= b
    ensures Pow2(a) <= Pow2(b)
  {
    if a < b {
      Pow2Grows(a, b - 1);
    }
  }

  lemma {:induction false} OnesThenZeros(top: nat, zeros: nat, j: nat)
    requires zeros <= top && j < top && Pow2(zeros) <= Pow2(top)
    ensures ByteBit(Pow2(top) - Pow2(zeros), j) == if j >= zeros then 1 else 0
    decreases top
  {
    if zeros == top {
      NoBits(j);
    } else if j > 0 {
      var fewer := if zeros == 0 then 0 else zeros - 1;
      Pow2Grows(fewer, top - 1);
      assert (Pow2(top) - Pow2(zeros)) / 2 == Pow2(top - 1) - Pow2(fewer);
      OnesThenZeros(top - 1, fewer, j - 1);
    }
  }

  lemma MaskByteBit(ones: nat, j: nat)
    requires ones < 8 && j < 8
    ensures ByteBit(MaskByte(ones), j) == if j >= 8 - ones then 1 else 0
    ensures ByteBit(255, j) == 1
  {
    assert Pow2(0) == 1 && Pow2(1) == 2 && Pow2(2) == 4 && Pow2(3) == 8 && Pow2(4) == 16;
    assert Pow2(5) == 32 && Pow2(6) == 64 && Pow2(7) == 128 && Pow2(8) == 256;
    OnesThenZeros(8, 8 - ones, j);
    OnesThenZeros(8, 0, j);
  }

  /** CIDRMask(ones) has exactly its first `ones` bits set. */
  lemma {:induction false} MaskBit(ones: nat, length: nat, i: nat)
    requires ones <= 8 * length && i < 8 * length
    ensures Bit(CIDRMask(ones, length), i) == if i < ones then 1 else 0
  {
    var mask := CIDRMask(ones, length);
    if i < 8 {
      MaskByteBit(if ones < 8 then ones else 0, 7 - i);
    } else {
      var rest := if ones >= 8 then ones - 8 else 0;
      MaskBit(rest, length - 1, i - 8);
      assert mask[1..] == CIDRMask(rest, length - 1);
      assert i / 8 == (i - 8) / 8 + 1 && mask[i / 8] == mask[1..][(i - 8) / 8];
    }
  }

  lemma {:induction false} MaskedAt(ip: seq<byte>, mask: seq<byte>, k: nat)
    requires |ip| == |mask| && k < |ip|
    ensures ApplyMask(ip, mask)[k] == And(ip[k], mask[k])
  {
    if k == 0 {
    } else {
      MaskedAt(ip[1..], mask[1..], k - 1);
    }
  }

  /** A masked address keeps its network bits and has all host bits zero. */
  lemma MaskedBits(ip: seq<byte>, ones: nat, i: nat)
    requires ones <= 8 * |ip| && i < 8 * |ip|
    ensures Bit(ApplyMask(ip, CIDRMask(ones, |ip|)), i) == if i < ones then Bit(ip, i) else 0
  {
    var mask := CIDRMask(ones, |ip|);
    MaskedAt(ip, mask, i / 8);
    AndBit(ip[i / 8], mask[i / 8], 7 - i % 8);
    MaskBit(ones, |ip|, i);
  }

  /** What ParseCIDR returns: the named address cut down to its prefix, with the prefix's mask. */
  lemma ParsedNetBits(s: string, i: nat)
    requires NetOf(s).Some? && i < 32
    ensures var (addr, len, _) := Cut(s, '/');
      && QuadOf(addr).Some? && LengthOf(len).Some?
      && |NetOf(s).value.ip| == |NetOf(s).value.mask| == 4
      && Bit(NetOf(s).value.ip, i) == (if i < LengthOf(len).value then Bit(QuadOf(addr).value, i) else 0)
      && Bit(NetOf(s).value.mask, i) == (if i < LengthOf(len).value then 1 else 0)
  {
    var (addr, len, _) := Cut(s, '/');
    MaskedBits(QuadOf(addr).value, LengthOf(len).value, i);
    MaskBit(LengthOf(len).value, 4, i);
  }

  lemma {:induction false} FullMask(length: nat)
    ensures CIDRMask(8 * length, length) == seq(length, _ => 255)
  {
    if length == 0 {
    } else {
      FullMask(length - 1);
      assert 8 * length - 8 == 8 * (length - 1);
    }
  }

  lemma {:induction false} AndFull(x: nat, ones: nat)
    requires x < Pow2(ones)
    ensures And(x, Pow2(ones) - 1) == x
  {
    if ones > 0 && x > 0 {
      AndFull(x / 2, ones - 1);
      assert (Pow2(ones) - 1) / 2 == Pow2(ones - 1) - 1 && (Pow2(ones) - 1) % 2 == 1;
    }
  }

  lemma {:induction false} MaskedByFull(ip: seq<byte>)
    ensures ApplyMask(ip, seq(|ip|, _ => 255)) == ip
  {
    if ip == [] {
    } else {
      assert seq(|ip|, _ => 255 as byte)[1..] == seq(|ip[1..]|, _ => 255 as byte);
      MaskedByFull(ip[1..]);
      assert Pow2(8) == 256;
      AndFull(ip[0], 8);
    }
  }

  lemma IdentityMask(ip: seq<byte>)
    requires To4(ip).Some?
    ensures IsV4(IdentitySubnet(ip)) && To4(IdentitySubnet(ip).ip) == To4(ip)
    ensures Mask4(IdentitySubnet(ip)) == CIDRMask(32, 4) == seq(4, _ => 255)
  {
    BothForms(To4(ip).value);
    FullMask(16);
    FullMask(4);
    assert IdentitySubnet(ip).mask[12..] == seq(4, _ => 255 as byte);
  }

  /**
   * IdentitySubnet stores a 128-bit mask, yet for an IPv4 address prints as /32 and reads back
   * as that one address.
   */
  lemma IdentitySubnetIsOneAddress(ip: seq<byte>)
    requires To4(ip).Some?
    ensures |IdentitySubnet(ip).mask| == 16 && IsV4(IdentitySubnet(ip))
    ensures PrintNet(IdentitySubnet(ip)) == PrintQuad(To4(ip).value) + "/32"
    ensures NetOf(PrintNet(IdentitySubnet(ip))) == Some(IPNet(To4(ip).value, CIDRMask(32, 4)))
  {
    IdentityMask(ip);
    FullMaskNet(IdentitySubnet(ip));
  }

  lemma FullMaskNet(net: IPNet)
    requires IsV4(net) && Mask4(net) == CIDRMask(32, 4) == seq(4, _ => 255)
    ensures PrintNet(net) == PrintQuad(To4(net.ip).value) + "/32"
    ensures NetOf(PrintNet(net)) == Some(IPNet(To4(net.ip).value, CIDRMask(32, 4)))
  {
    var mask, quad := Mask4(net), To4(net.ip).value;
    assert SimpleMaskLength(mask) == Some(32) by {
      MaskRoundTrip(32, 4);
    }
    assert PrintNet(net) == PrintQuad(quad) + "/32" by {
      assert PrintMask(mask) == Print(32);
      PrintThirtyTwo();
      AppendSlash(PrintQuad(quad));
    }
    assert ApplyMask(quad, mask) == quad by {
      MaskedByFull(quad);
    }
    NetRoundTrip(net);
  }

  lemma AppendSlash(s: string)
    ensures s + ['/'] + "32" == s + "/32"
  {
  }

  lemma PrintThirtyTwo()
    ensures Print(32) == "32"
  {
    assert Print(3) == "3";
  }

  // ---- Endpoints ----

  /** net.UDPAddr; the port is an int. */
  datatype UDPAddr = UDPAddr(ip: seq<byte>, port: int)

  /** net.UDPAddr.String for IPv4 addresses */
  function PrintAddr(addr: UDPAddr): string
    requires To4(addr.ip).Some?
  {
    PrintQuad(To4(addr.ip).value) + [':'] + Itoa(addr.port)
  }

  /** net's parsePort: digits after an optional sign, in the range of a port; nothing at all is 0. */
  function PortOf(s: string): Option<nat> {
    var (neg, digits) := Unsigned(s);
    if AllDigits(digits) && (if neg then Value(digits) == 0 else Value(digits) < TWO_TO_16) then Some(Value(digits))
    else None
  }

  /** net.ResolveUDPAddr on literal IPv4 endpoints; the address comes in 16 bytes. */
  function AddrOf(s: string): Option<UDPAddr> {
    var (host, port, colon) := Cut(s, ':');
    if colon && QuadOf(host).Some? && PortOf(port).Some?
    then Some(UDPAddr(To16(QuadOf(host).value), PortOf(port).value))
    else None
  }

  function CanonicalAddr(addr: UDPAddr): UDPAddr
    requires To4(addr.ip).Some?
  {
    addr.(ip := To16(To4(addr.ip).value))
  }

  lemma PortRoundTrip(port: int)
    ensures (if PortOf(Itoa(port)).Some? then PortOf(Itoa(port)).value == port else !(0 <= port < TWO_TO_16))
    ensures PortOf(Itoa(port)).Some? ==> 0 <= port < TWO_TO_16
  {
    UnsignedItoa(port);
    ValueOfPrint(if port < 0 then -port else port);
  }

  /** The other texts that parsePort takes: a plus sign, and nothing at all. */
  lemma PortForms(port: nat)
    ensures PortOf("") == Some(0)
    ensures PortOf("+" + Print(port)) == PortOf(Print(port))
    ensures port > 0 ==> PortOf("-" + Print(port)) == None
  {
    ValueOfPrint(port);
    assert ("+" + Print(port))[1..] == Print(port) && ("-" + Print(port))[1..] == Print(port);
    assert IsDigit(Print(port)[0]);
  }

  lemma UnsignedItoa(n: int)
    ensures Unsigned(Itoa(n)) == if n < 0 then (true, Print(-n)) else (false, Print(n))
  {
    if n < 0 {
      assert ("-" + Print(-n))[1..] == Print(-n);
    } else {
      assert IsDigit(Print(n)[0]);
    }
  }

  /** A printed endpoint reads back, in its 16-byte form, exactly if its port is one. */
  lemma AddrRoundTrip(addr: UDPAddr)
    requires To4(addr.ip).Some?
    ensures AddrOf(PrintAddr(addr)) == Some(CanonicalAddr(addr)) <==> 0 <= addr.port < TWO_TO_16
    ensures AddrOf(PrintAddr(addr)).Some? ==> 0 <= addr.port < TWO_TO_16
  {
    AddrCuts(addr);
    PortRoundTrip(addr.port);
  }

  lemma AddrCuts(addr: UDPAddr)
    requires To4(addr.ip).Some?
    ensures Cut(PrintAddr(addr), ':') == (PrintQuad(To4(addr.ip).value), Itoa(addr.port), true)
    ensures QuadOf(PrintQuad(To4(addr.ip).value)) == To4(addr.ip)
  {
    var quad := To4(addr.ip).value;
    QuadRoundTrip(quad);
    QuadIsPlain(quad);
    CutAt(PrintQuad(quad), ':', Itoa(addr.port));
  }

  /** An endpoint's text. */
  lemma AddrText(addr: UDPAddr)
    requires To4(addr.ip).Some?
    ensures PrintAddr(addr) == PrintQuad(To4(addr.ip).value) + ":" + (if addr.port < 0 then "-" + Print(-addr.port) else Print(addr.port))
  {
  }

  lemma ItoaIsPlain(i: int)
    ensures forall c :: c in Itoa(i) ==> c == '-' || IsDigit(c)
  {
    var digits := Print(if i < 0 then -i else i);
    forall c | c != '-' && !IsDigit(c)
      ensures c !in Itoa(i)
    {
      DigitsLack(digits, c);
    }
  }

  lemma MaskIsPlain(mask: seq<byte>)
    ensures forall c :: c in PrintMask(mask) ==> Hex.IsHex(c)
  {
    forall c | c in PrintMask(mask)
      ensures Hex.IsHex(c)
    {
      var i :| 0 <= i < |PrintMask(mask)| && PrintMask(mask)[i] == c;
    }
  }
}
