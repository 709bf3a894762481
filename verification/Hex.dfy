/** Keys in hexadecimal: encoding/hex and parser.ParseKey. */
module Hex {
  import opened Prelude

  type byte = b: int | 0 <= b < 256

  const KEY_LENGTH := 32

  predicate IsHex(c: char) {
    '0' <= c <= '9' || 'a' <= c <= 'f' || 'A' <= c <= 'F'
  }

  predicate AllHex(s: string) {
    forall i :: 0 <= i < |s| ==> IsHex(s[i])
  }

  function Nibble(c: char): (n: nat)
    requires IsHex(c)
    ensures n < 16
  {
    if c <= '9' then c as int - '0' as int
    else if c <= 'F' then c as int - 'A' as int + 10
    else c as int - 'a' as int + 10
  }

  function HexDigit(n: nat): (c: char)
    requires n < 16
    ensures IsHex(c) && Nibble(c) == n
  {
    if n < 10 then ('0' as int + n) as char else ('a' as int + n - 10) as char
  }

  function Pair(p: char, q: char): (b: byte)
    requires IsHex(p) && IsHex(q)
  {
    16 * Nibble(p) + Nibble(q)
  }

  /** The high digit of a byte comes first. */
  function DigitOf(b: byte, low: bool): (c: char)
    ensures IsHex(c)
  {
    HexDigit(if low then b % 16 else b / 16)
  }

  /** hex.EncodeToString */
  function Encode(bytes: seq<byte>): (s: string)
    ensures |s| == 2 * |bytes| && AllHex(s)
  {
    seq(2 * |bytes|, i requires 0 <= i < 2 * |bytes| => DigitOf(bytes[i / 2], i % 2 == 1))
  }

  /** The bytes of an even number of hex digits. */
  function Bytes(s: string): (b: seq<byte>)
    requires AllHex(s) && |s| % 2 == 0
    ensures |b| == |s| / 2
  {
    seq(|s| / 2, i requires 0 <= i < |s| / 2 => Pair(s[2 * i], s[2 * i + 1]))
  }

  lemma BytesAppend(s: string, p: char, q: char)
    requires AllHex(s) && |s| % 2 == 0 && IsHex(p) && IsHex(q)
    ensures AllHex(s + [p, q]) && Bytes(s + [p, q]) == Bytes(s) + [Pair(p, q)]
  {
    var t := s + [p, q];
    forall i | 0 <= i < |t| / 2
      ensures Bytes(t)[i] == (Bytes(s) + [Pair(p, q)])[i]
    {
      assert Bytes(t)[i] == Pair(t[2 * i], t[2 * i + 1]);
    }
  }

  lemma PairOfDigits(b: byte)
    ensures Pair(DigitOf(b, false), DigitOf(b, true)) == b
  {
  }

  lemma EncodeAt(bytes: seq<byte>, i: nat)
    requires i < |bytes|
    ensures Encode(bytes)[2 * i] == DigitOf(bytes[i], false)
    ensures Encode(bytes)[2 * i + 1] == DigitOf(bytes[i], true)
  {
    assert (2 * i) / 2 == i && (2 * i + 1) / 2 == i && (2 * i + 1) % 2 == 1;
  }

  lemma BytesAt(s: string, i: nat)
    requires AllHex(s) && |s| % 2 == 0 && i < |s| / 2
    ensures Bytes(s)[i] == Pair(s[2 * i], s[2 * i + 1])
  {
  }

  lemma BytesOfEncode(bytes: seq<byte>)
    ensures Bytes(Encode(bytes)) == bytes
  {
    var s := Encode(bytes);
    var decoded := Bytes(s);
    forall i | 0 <= i < |bytes|
      ensures decoded[i] == bytes[i]
    {
      BytesAt(s, i);
      EncodeAt(bytes, i);
      PairOfDigits(bytes[i]);
    }
  }

  /** The sixteen digits: the printer's are in lower case, the reader takes both cases. */
  lemma SixteenDigits(n: nat)
    requires n < 16
    ensures HexDigit(n) == "0123456789abcdef"[n]
    ensures IsHex("0123456789ABCDEF"[n]) && Nibble("0123456789ABCDEF"[n]) == n
    ensures IsHex("0123456789abcdef"[n]) && Nibble("0123456789abcdef"[n]) == n
  {
  }

  lemma {:induction false} OnlyHexDigits(c: char)
    ensures IsHex(c) <==> c in "0123456789abcdef" || c in "0123456789ABCDEF"
  {
    if IsHex(c) {
      SixteenDigits(Nibble(c));
      if 'A' <= c <= 'F' {
        assert "0123456789ABCDEF"[Nibble(c)] == c;
      } else {
        assert "0123456789abcdef"[Nibble(c)] == c;
      }
    }
  }

  /** Two digits for every byte, the high one first, in order. */
  lemma EncodeText(bytes: seq<byte>, b: byte)
    ensures Encode(bytes + [b]) == Encode(bytes) + ["0123456789abcdef"[b / 16], "0123456789abcdef"[b % 16]]
    ensures Encode([]) == ""
  {
    SixteenDigits(b / 16);
    SixteenDigits(b % 16);
    var whole := bytes + [b];
    forall i | 0 <= i < 2 * |whole|
      ensures Encode(whole)[i] ==
        (Encode(bytes) + ["0123456789abcdef"[b / 16], "0123456789abcdef"[b % 16]])[i]
    {
      EncodeAt(whole, i / 2);
      if i / 2 < |bytes| {
        EncodeAt(bytes, i / 2);
      }
    }
  }

  function LowerChar(c: char): char {
    if 'A' <= c <= 'F' then (c as int + 32) as char else c
  }

  function Lower(s: string): string {
    seq(|s|, i requires 0 <= i < |s| => LowerChar(s[i]))
  }

  lemma DigitsOfPair(p: char, q: char)
    requires IsHex(p) && IsHex(q)
    ensures DigitOf(Pair(p, q), false) == LowerChar(p) && DigitOf(Pair(p, q), true) == LowerChar(q)
  {
  }

  lemma EncodeOfBytes(s: string)
    requires AllHex(s) && |s| % 2 == 0
    ensures Encode(Bytes(s)) == Lower(s)
  {
    forall i | 0 <= i < |s|
      ensures Encode(Bytes(s))[i] == Lower(s)[i]
    {
      DigitsOfPair(s[i / 2 * 2], s[i / 2 * 2 + 1]);
    }
  }

  // ---- hex.Decode into a fixed array ----

  /** BoundsPanic is the runtime's index check on the destination array. */
  datatype DecodeError = InvalidByte(c: char) | ErrLength | WrongSize | BoundsPanic

  /** Reads pairs of digits and writes bytes in place, in step, until one of them ends it. */
  method Decode(dst: array<byte>, src: string) returns (n: nat, err: Option<DecodeError>)
    modifies dst
    ensures n <= dst.Length && dst[n..] == old(dst[n..])
    ensures err.None? <==> |src| % 2 == 0 && |src| <= 2 * dst.Length && AllHex(src)
    ensures err.None? ==> 2 * n == |src| && dst[..n] == Bytes(src)
    ensures err == Some(BoundsPanic) <==> |src| >= 2 * dst.Length + 2 && AllHex(src[..2 * dst.Length + 2])
  {
    var i, j := 0, 1;
    while j < |src|
      invariant j == 2 * i + 1 && 2 * i <= |src| && i <= dst.Length
      invariant AllHex(src[..2 * i]) && dst[..i] == Bytes(src[..2 * i])
      invariant dst[i..] == old(dst[i..])
    {
      var p, q := src[j - 1], src[j];
      if !IsHex(p) {
        return i, Some(InvalidByte(p));
      }
      if !IsHex(q) {
        return i, Some(InvalidByte(q));
      }
      if i == dst.Length {
        return i, Some(BoundsPanic);
      }
      dst[i] := Pair(p, q);
      BytesAppend(src[..2 * i], p, q);
      assert src[..2 * i] + [p, q] == src[..2 * i + 2];
      i := i + 1;
      j := j + 2;
    }
    if |src| % 2 == 1 {
      if !IsHex(src[j - 1]) {
        return i, Some(InvalidByte(src[j - 1]));
      }
      return i, Some(ErrLength);
    }
    assert src[..2 * i] == src;
    return i, None;
  }

  /** The key a value denotes: exactly 64 hex digits do. */
  function KeyOf(value: string): Option<seq<byte>> {
    if |value| == 2 * KEY_LENGTH && AllHex(value) then Some(Bytes(value)) else None
  }

  /**
   * ParseKey succeeds exactly on 64 hex digits. The runtime's bounds check fires exactly on
   * values whose first 66 characters are all hex digits.
   */
  method ParseKey(value: string) returns (r: Result<seq<byte>, DecodeError>)
    ensures r.Success? <==> KeyOf(value).Some?
    ensures r.Success? ==> KeyOf(value) == Some(r.value) && |r.value| == KEY_LENGTH
    ensures r == Failure(BoundsPanic) <==> |value| >= 66 && AllHex(value[..66])
  {
    var k := new byte[KEY_LENGTH];
    var n, err := Decode(k, value);
    if err.Some? {
      return Failure(err.value);
    } else if n != k.Length {
      return Failure(WrongSize);
    }
    assert k[..n] == k[..];
    return Success(k[..]);
  }

  /** Any 32 bytes come back from their printed form, and printing a parsed key lower-cases it. */
  lemma KeyRoundTrip(key: seq<byte>)
    requires |key| == KEY_LENGTH
    ensures KeyOf(Encode(key)) == Some(key)
  {
    BytesOfEncode(key);
  }

  lemma PrintParsedKey(value: string)
    requires KeyOf(value).Some?
    ensures Encode(KeyOf(value).value) == Lower(value)
  {
    EncodeOfBytes(value);
  }
}
