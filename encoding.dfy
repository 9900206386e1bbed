/** The raw bytes an integer field occupies in memory, and base::HexEncode,
    which spells a byte buffer as upper-case hexadecimal. The width of a field
    and the machine's byte order are explicit parameters. */
module Encoding {
  import opened Wrappers

  type byte = x: int | 0 <= x < 256

  datatype ByteOrder = LittleEndian | BigEndian

  function Pow256(n: nat): (p: nat)
    ensures p >= 1
  {
    if n == 0 then 1 else 256 * Pow256(n - 1)
  }

  /** An unsigned integer of `width` bytes holds exactly the values below 256^width. */
  predicate Fits(v: nat, width: nat)
  {
    v < Pow256(width)
  }

  function LittleEndianBytes(v: nat, width: nat): (bytes: seq<byte>)
    ensures |bytes| == width
  {
    if width == 0 then [] else [v % 256] + LittleEndianBytes(v / 256, width - 1)
  }

  function BigEndianBytes(v: nat, width: nat): (bytes: seq<byte>)
    ensures |bytes| == width
  {
    if width == 0 then [] else BigEndianBytes(v / 256, width - 1) + [v % 256]
  }

  /** The memory image of a `width`-byte unsigned integer holding `v`. */
  function IntBytes(v: nat, width: nat, order: ByteOrder): (bytes: seq<byte>)
    ensures |bytes| == width
  {
    match order
    case LittleEndian => LittleEndianBytes(v, width)
    case BigEndian => BigEndianBytes(v, width)
  }

  function LittleEndianValue(bytes: seq<byte>): nat
  {
    if bytes == [] then 0 else bytes[0] + 256 * LittleEndianValue(bytes[1..])
  }

  function BigEndianValue(bytes: seq<byte>): nat
  {
    if bytes == [] then 0 else 256 * BigEndianValue(bytes[..|bytes| - 1]) + bytes[|bytes| - 1]
  }

  /** The integer a memory image stands for. */
  function BytesValue(bytes: seq<byte>, order: ByteOrder): nat
  {
    match order
    case LittleEndian => LittleEndianValue(bytes)
    case BigEndian => BigEndianValue(bytes)
  }

  lemma DivBound(v: nat, width: nat)
    requires width >= 1 && Fits(v, width)
    ensures Fits(v / 256, width - 1)
  {
    assert v < 256 * Pow256(width - 1);
  }

  lemma {:induction false} LittleEndianRoundTrip(v: nat, width: nat)
    requires Fits(v, width)
    ensures LittleEndianValue(LittleEndianBytes(v, width)) == v
  {
    if width > 0 {
      DivBound(v, width);
      LittleEndianRoundTrip(v / 256, width - 1);
      var bytes := LittleEndianBytes(v, width);
      assert bytes[1..] == LittleEndianBytes(v / 256, width - 1);
    }
  }

  lemma {:induction false} BigEndianRoundTrip(v: nat, width: nat)
    requires Fits(v, width)
    ensures BigEndianValue(BigEndianBytes(v, width)) == v
  {
    if width > 0 {
      DivBound(v, width);
      BigEndianRoundTrip(v / 256, width - 1);
      var bytes := BigEndianBytes(v, width);
      assert bytes[..width - 1] == BigEndianBytes(v / 256, width - 1);
    }
  }

  /** Reading back the memory image of a value that fits its field gives the
      value, whichever the byte order. */
  lemma IntBytesRoundTrip(v: nat, width: nat, order: ByteOrder)
    requires Fits(v, width)
    ensures BytesValue(IntBytes(v, width, order), order) == v
  {
    match order
    case LittleEndian => LittleEndianRoundTrip(v, width);
    case BigEndian => BigEndianRoundTrip(v, width);
  }

  /** The upper-case hexadecimal digit for a nibble. */
  function HexDigit(n: nat): (c: char)
    requires n < 16
  {
    if n < 10 then (48 + n) as char else (55 + n) as char
  }

  /** The nibble an upper-case hexadecimal digit stands for. */
  function HexValue(c: char): Option<nat>
  {
    if '0' <= c <= '9' then Some(c as int - 48)
    else if 'A' <= c <= 'F' then Some(c as int - 55)
    else None
  }

  predicate IsHexDigit(c: char)
  {
    '0' <= c <= '9' || 'A' <= c <= 'F'
  }

  /** base::HexEncode: two upper-case digits per byte, high nibble first,
      bytes in buffer order. */
  function HexEncode(bytes: seq<byte>): (s: string)
    ensures |s| == 2 * |bytes|
  {
    if bytes == [] then ""
    else [HexDigit(bytes[0] / 16), HexDigit(bytes[0] % 16)] + HexEncode(bytes[1..])
  }

  /** The inverse of HexEncode: pairs of digits back to bytes. */
  function HexDecode(s: string): Option<seq<byte>>
  {
    if s == [] then Some([])
    else if |s| == 1 then None
    else
      match (HexValue(s[0]), HexValue(s[1]), HexDecode(s[2..]))
      case (Some(hi), Some(lo), Some(rest)) =>
        if hi < 16 && lo < 16 then Some([16 * hi + lo] + rest) else None
      case _ => None
  }

  /** HexEncode writes only hexadecimal digits, so in particular never a
      space or a colon. */
  lemma {:induction false} HexEncodeDigits(bytes: seq<byte>)
    ensures forall i :: 0 <= i < |HexEncode(bytes)| ==> IsHexDigit(HexEncode(bytes)[i])
  {
    if bytes != [] {
      HexEncodeDigits(bytes[1..]);
      var s := HexEncode(bytes);
      forall i | 0 <= i < |s| ensures IsHexDigit(s[i]) {
        if i >= 2 {
          assert s[i] == HexEncode(bytes[1..])[i - 2];
        }
      }
    }
  }

  /** Decoding the hexadecimal spelling of a buffer gives the buffer back. */
  lemma {:induction false} HexRoundTrip(bytes: seq<byte>)
    ensures HexDecode(HexEncode(bytes)) == Some(bytes)
  {
    if bytes != [] {
      var s := HexEncode(bytes);
      var b := bytes[0];
      assert HexValue(HexDigit(b / 16)) == Some(b / 16);
      assert HexValue(HexDigit(b % 16)) == Some(b % 16);
      assert s[2..] == HexEncode(bytes[1..]);
      HexRoundTrip(bytes[1..]);
      assert [b] + bytes[1..] == bytes;
    }
  }
}
