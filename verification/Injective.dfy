/** Different entries have different texts: what the text of a list of entries says about it. */
module Injective {
  import opened Prelude
  import opened Text
  import opened Scanner
  import opened Ipc
  import opened IpcTheorems
  import Decimal
  import Hex
  import Address

  // ---- Values that print alike ----

  /** The same IPv4 address and the same last four mask bytes, in whatever lengths they are stored. */
  predicate SameNet(a: Address.IPNet, b: Address.IPNet)
    requires Address.IsV4(a) && Address.IsV4(b)
  {
    Address.To4(a.ip) == Address.To4(b.ip) && Address.Mask4(a) == Address.Mask4(b)
  }

  predicate SameAddr(a: Address.UDPAddr, b: Address.UDPAddr)
    requires Address.To4(a.ip).Some? && Address.To4(b.ip).Some?
  {
    Address.To4(a.ip) == Address.To4(b.ip) && a.port == b.port
  }

  /** Equal but for the length in which an address or a mask is stored. */
  predicate SameValue(kind: Kind, a: Value, b: Value)
    requires Fits(kind, a) && Fits(kind, b)
  {
    match kind
    case UDPAddr => SameAddr(a.addr, b.addr)
    case IPNet => SameNet(a.net, b.net)
    case _ => a == b
  }

  lemma HexInjective(a: seq<byte>, b: seq<byte>)
    requires Hex.Encode(a) == Hex.Encode(b)
    ensures a == b
  {
    Hex.BytesOfEncode(a);
    Hex.BytesOfEncode(b);
  }

  lemma ItoaInjective(m: int, n: int)
    requires Decimal.Itoa(m) == Decimal.Itoa(n)
    ensures m == n
  {
    Address.UnsignedItoa(m);
    Address.UnsignedItoa(n);
    Decimal.ValueOfPrint(if m < 0 then -m else m);
    Decimal.ValueOfPrint(if n < 0 then -n else n);
  }

  lemma {:induction false} ShortPrint(n: nat)
    requires n < 100
    ensures |Decimal.Print(n)| <= 2
  {
    if n >= 10 {
      ShortPrint(n / 10);
      assert n / 10 < 10;
    }
  }

  /** A length has at most two digits and a mask in hexadecimal has eight: no text is both. */
  lemma MaskInjective(a: seq<byte>, b: seq<byte>)
    requires |a| == |b| == 4 && Address.PrintMask(a) == Address.PrintMask(b)
    ensures a == b
  {
    var m, n := Address.SimpleMaskLength(a), Address.SimpleMaskLength(b);
    if m.Some? {
      Address.ContiguousMask(a);
      ShortPrint(m.value);
    }
    if n.Some? {
      Address.ContiguousMask(b);
      ShortPrint(n.value);
    }
    if m.Some? && n.Some? {
      Decimal.ValueOfPrint(m.value);
      Decimal.ValueOfPrint(n.value);
    } else if m.None? && n.None? {
      HexInjective(a, b);
    }
  }

  lemma NetInjective(a: Address.IPNet, b: Address.IPNet)
    requires Address.IsV4(a) && Address.IsV4(b)
    ensures Address.PrintNet(a) == Address.PrintNet(b) <==> SameNet(a, b)
  {
    Address.PrintNetCuts(a);
    Address.PrintNetCuts(b);
    if Address.PrintNet(a) == Address.PrintNet(b) {
      MaskInjective(Address.Mask4(a), Address.Mask4(b));
    }
  }

  lemma AddrInjective(a: Address.UDPAddr, b: Address.UDPAddr)
    requires Address.To4(a.ip).Some? && Address.To4(b.ip).Some?
    ensures Address.PrintAddr(a) == Address.PrintAddr(b) <==> SameAddr(a, b)
  {
    Address.AddrCuts(a);
    Address.AddrCuts(b);
    if Address.PrintAddr(a) == Address.PrintAddr(b) {
      ItoaInjective(a.port, b.port);
    }
  }

  /** Two numbers of one width print alike only if equal, although the larger ones print negative. */
  lemma NumInjective(kind: Kind, a: Value, b: Value)
    requires (kind.Uint? || kind.Int64?) && Fits(kind, a) && Fits(kind, b)
    ensures Print(kind, a) == Print(kind, b) <==> a == b
  {
    if Print(kind, a) == Print(kind, b) {
      ItoaInjective(Decimal.ToInt(a.n), Decimal.ToInt(b.n));
    }
  }

  lemma ValueInjective(kind: Kind, a: Value, b: Value)
    requires Fits(kind, a) && Fits(kind, b)
    ensures Print(kind, a) == Print(kind, b) <==> SameValue(kind, a, b)
  {
    match kind
    case KeyBytes =>
      if Print(kind, a) == Print(kind, b) {
        HexInjective(a.key, b.key);
      }
    case Uint(_) => NumInjective(kind, a, b);
    case Int64 => NumInjective(kind, a, b);
    case UDPAddr => AddrInjective(a.addr, b.addr);
    case IPNet => NetInjective(a.net, b.net);
    case _ =>
  }

  // ---- Entries and lists ----

  predicate SameEntry(a: Entry, b: Entry)
    requires a.WellTyped() && b.WellTyped()
  {
    a.key == b.key && SameValue(KindOf(a.key), a.value, b.value)
  }

  predicate SameEntries(x: seq<Entry>, y: seq<Entry>)
    requires AllTyped(x) && AllTyped(y)
  {
    |x| == |y| && forall k :: 0 <= k < |x| ==> SameEntry(x[k], y[k])
  }

  lemma LineCuts(key: Key, value: string)
    ensures Cut(Name(key) + ['='] + value, '=') == (Name(key), value, true)
  {
    KeysAreDistinct(key);
    CutAt(Name(key), '=', value);
  }

  lemma NameInjective(a: Key, b: Key)
    requires Name(a) == Name(b)
    ensures a == b
  {
    NamesAreFound(a);
    NamesAreFound(b);
  }

  lemma EntryInjective(a: Entry, b: Entry)
    requires a.WellTyped() && b.WellTyped()
    ensures LineOf(a) == LineOf(b) <==> SameEntry(a, b)
  {
    LineCuts(a.key, Print(KindOf(a.key), a.value));
    LineCuts(b.key, Print(KindOf(b.key), b.value));
    if LineOf(a) == LineOf(b) {
      NameInjective(a.key, b.key);
    }
    if a.key == b.key {
      ValueInjective(KindOf(a.key), a.value, b.value);
    }
  }

  lemma LinesOfAreLines(entries: seq<Entry>)
    requires AllTyped(entries)
    ensures AreLines(LinesOf(entries))
  {
    forall k | 0 <= k < |entries|
      ensures '\n' !in LinesOf(entries)[k]
    {
      EntryRoundTrip(entries[k]);
    }
  }

  lemma EncodeSplits(entries: seq<Entry>)
    requires AllTyped(entries)
    ensures Lines(Encode(entries)) == LinesOf(entries)
  {
    LinesOfAreLines(entries);
    SplitUnique(LinesOf(entries), "");
    assert Encode(entries) + "" == Encode(entries);
  }

  /**
   * Two lists have one text exactly if they hold the same keys and values in the same order. This
   * needs nothing that reading back needs: it covers numbers from 2^63 on, ports out of range and
   * masks with gaps.
   */
  lemma EncodeInjective(x: seq<Entry>, y: seq<Entry>)
    requires AllTyped(x) && AllTyped(y)
    ensures Encode(x) == Encode(y) <==> SameEntries(x, y)
  {
    if Encode(x) == Encode(y) {
      EncodeSplits(x);
      EncodeSplits(y);
      SameLines(x, y);
    }
    if SameEntries(x, y) {
      forall k | 0 <= k < |x|
        ensures LinesOf(x)[k] == LinesOf(y)[k]
      {
        EntryInjective(x[k], y[k]);
      }
      assert LinesOf(x) == LinesOf(y);
    }
  }

  lemma SameLines(x: seq<Entry>, y: seq<Entry>)
    requires AllTyped(x) && AllTyped(y) && LinesOf(x) == LinesOf(y)
    ensures SameEntries(x, y)
  {
    forall k | 0 <= k < |x|
      ensures SameEntry(x[k], y[k])
    {
      assert LinesOf(x)[k] == LineOf(x[k]) && LinesOf(y)[k] == LineOf(y[k]);
      EntryInjective(x[k], y[k]);
    }
  }

  lemma SameIsCanonical(a: Entry, b: Entry)
    requires a.WellTyped() && b.WellTyped() && SameEntry(a, b)
    ensures CanonicalEntry(a) == CanonicalEntry(b)
  {
  }

  /** Lists with one text have one canonical form. */
  lemma OneTextOneForm(x: seq<Entry>, y: seq<Entry>)
    requires AllTyped(x) && AllTyped(y) && Encode(x) == Encode(y)
    ensures CanonicalList(x) == CanonicalList(y)
  {
    EncodeInjective(x, y);
    forall k | 0 <= k < |x|
      ensures CanonicalList(x)[k] == CanonicalList(y)[k]
    {
      SameIsCanonical(x[k], y[k]);
    }
  }
}
