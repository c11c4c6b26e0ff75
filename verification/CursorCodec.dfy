/** The resumption cursor on the wire: 8-byte big-endian height, 32-byte block id, in hex. */
module CursorCodec {
  import opened Types

  function ToBytes(c: Cursor): (b: seq<byte>)
    ensures |b| == 40
  {
    ToBigEndian(c.height, 8) + c.blockId.bytes
  }

  function FromBytes(b: seq<byte>): Option<Cursor> {
    if |b| != 40 then None
    else
      ToBigEndianOf(b[..8]);
      Pow256Eight();
      Some(Cursor(BigEndian(b[..8]), BlockId(b[8..])))
  }

  /** Encoding and decoding are mutual inverses between cursors and 40-byte strings; every other length
      is refused. */
  lemma CursorRoundTrip(c: Cursor, b: seq<byte>)
    ensures FromBytes(ToBytes(c)) == Some(c)
    ensures FromBytes(b).Some? <==> |b| == 40
    ensures FromBytes(b).Some? ==> ToBytes(FromBytes(b).value) == b
  {
    Pow256Eight();
    BigEndianOfTo(c.height, 8);
    assert ToBytes(c)[..8] == ToBigEndian(c.height, 8);
    assert ToBytes(c)[8..] == c.blockId.bytes;
    if |b| == 40 {
      ToBigEndianOf(b[..8]);
      assert b[..8] + b[8..] == b;
    }
  }

  /** The bytes of a cursor: the height, most significant byte first, and then the id as it is. */
  lemma CursorLayout(c: Cursor)
    ensures IsBigEndian(ToBytes(c)[..8], c.height)
    ensures ToBytes(c)[8..] == c.blockId.bytes
  {
    Pow256Eight();
    BigEndianOfTo(c.height, 8);
    var s := ToBigEndian(c.height, 8);
    assert ToBytes(c)[..8] == s;
    EightBytes(s);
  }

  // Hexadecimal

  const LOWER := "0123456789abcdef"

  function NibbleOf(c: char): (n: Option<byte>)
    ensures n.Some? ==> n.value < 16
  {
    if '0' <= c <= '9' then Some(c as int - '0' as int)
    else if 'a' <= c <= 'f' then Some(c as int - 'a' as int + 10)
    else if 'A' <= c <= 'F' then Some(c as int - 'A' as int + 10)
    else None
  }

  function HexEncode(b: seq<byte>): string {
    if b == [] then "" else HexEncode(b[..|b| - 1]) + HexByte(b[|b| - 1])
  }

  function HexByte(n: byte): string {
    [LOWER[n / 16], LOWER[n % 16]]
  }

  function HexDecode(s: string): Option<seq<byte>> {
    if s == "" then Some([])
    else if |s| == 1 then None
    else
      AddByte(HexDecode(s[..|s| - 2]), NibbleOf(s[|s| - 2]), NibbleOf(s[|s| - 1]))
  }

  function AddByte(rest: Option<seq<byte>>, hi: Option<byte>, lo: Option<byte>): Option<seq<byte>>
    requires (hi.Some? ==> hi.value < 16) && (lo.Some? ==> lo.value < 16)
  {
    if rest.Some? && hi.Some? && lo.Some? then Some(rest.value + [hi.value * 16 + lo.value]) else None
  }

  /** Two lower-case digits for each byte, the high one first. */
  lemma {:induction false} HexLayout(b: seq<byte>, i: nat)
    requires i < |b|
    ensures var s := HexEncode(b);
      && |s| == 2 * |b|
      && s[2 * i] == "0123456789abcdef"[b[i] / 16] && s[2 * i + 1] == "0123456789abcdef"[b[i] % 16]
  {
    var n := |b| - 1;
    HexLength(b[..n]);
    if i < n {
      HexLayout(b[..n], i);
    }
  }

  lemma {:induction false} HexLength(b: seq<byte>)
    ensures |HexEncode(b)| == 2 * |b|
  {
    if b != [] {
      HexLength(b[..|b| - 1]);
    }
  }

  predicate Reads(s: string, b: seq<byte>) {
    HexDecode(s) == Some(b)
  }

  lemma DecodeByte(s: string, rest: seq<byte>, n: byte)
    requires Reads(s, rest)
    ensures Reads(s + HexByte(n), rest + [n])
  {
    NibbleRoundTrip(n / 16);
    NibbleRoundTrip(n % 16);
    var t := s + HexByte(n);
    assert t[..|t| - 2] == s;
  }

  lemma {:induction false} EncodingReads(b: seq<byte>)
    ensures Reads(HexEncode(b), b) && (b != [] ==> HexEncode(b) != "")
  {
    if b != [] {
      var (t, last) := (b[..|b| - 1], b[|b| - 1]);
      EncodingReads(t);
      DecodeByte(HexEncode(t), t, last);
      assert HexEncode(b) == HexEncode(t) + HexByte(last);
      assert t + [last] == b;
    }
  }

  lemma HexRoundTrip(b: seq<byte>)
    ensures HexDecode(HexEncode(b)) == Some(b)
    ensures b != [] ==> HexEncode(b) != ""
  {
    EncodingReads(b);
  }

  /** A hexadecimal digit of either case. */
  predicate IsNibble(c: char, n: byte) {
    n < 16 && (c == "0123456789abcdef"[n] || c == "0123456789ABCDEF"[n])
  }

  lemma NibbleExact(c: char, n: byte)
    ensures NibbleOf(c) == Some(n) <==> IsNibble(c, n)
  {
  }

  ghost predicate HexOf(s: string, b: seq<byte>) {
    && |s| == 2 * |b|
    && forall i :: 0 <= i < |b| ==> IsNibble(s[2 * i], b[i] / 16) && IsNibble(s[2 * i + 1], b[i] % 16)
  }

  lemma AddByteExact(rest: Option<seq<byte>>, hi: Option<byte>, lo: Option<byte>, t: seq<byte>, last: byte)
    requires (hi.Some? ==> hi.value < 16) && (lo.Some? ==> lo.value < 16)
    ensures AddByte(rest, hi, lo) == Some(t + [last])
      <==> rest == Some(t) && hi == Some(last / 16) && lo == Some(last % 16)
  {
    if AddByte(rest, hi, lo) == Some(t + [last]) {
      var b := t + [last];
      assert b[..|t|] == t && b[|t|] == last;
      assert (rest.value + [hi.value * 16 + lo.value])[..|t|] == rest.value;
    }
  }

  lemma HexDecodeStep(s: string, b: seq<byte>, t: seq<byte>, last: byte)
    requires |s| >= 2 && b == t + [last]
    ensures HexDecode(s) == Some(b)
      <==> HexDecode(s[..|s| - 2]) == Some(t) && IsNibble(s[|s| - 2], last / 16) && IsNibble(s[|s| - 1], last % 16)
  {
    NibbleExact(s[|s| - 2], last / 16);
    NibbleExact(s[|s| - 1], last % 16);
    AddByteExact(HexDecode(s[..|s| - 2]), NibbleOf(s[|s| - 2]), NibbleOf(s[|s| - 1]), t, last);
  }

  /** Exactly the strings of pairs of hexadecimal digits, of either case, decode, each to the bytes it spells. */
  lemma {:induction false} HexDecodeExact(s: string, b: seq<byte>)
    ensures HexDecode(s) == Some(b) <==> HexOf(s, b)
    decreases |s|
  {
    if |s| >= 2 && b != [] {
      var (t, last) := (b[..|b| - 1], b[|b| - 1]);
      HexDecodeExact(s[..|s| - 2], t);
      HexDecodeStep(s, b, t, last);
      HexOfLast(s, b);
    }
  }

  lemma HexOfLast(s: string, b: seq<byte>)
    requires |s| >= 2 && b != []
    ensures var (n, k) := (|s| - 2, |b| - 1);
      HexOf(s, b) <==> HexOf(s[..n], b[..k]) && IsNibble(s[n], b[k] / 16) && IsNibble(s[n + 1], b[k] % 16)
  {
    var (n, k) := (|s| - 2, |b| - 1);
    if HexOf(s, b) {
      assert forall i :: 0 <= i < k ==> s[..n][2 * i] == s[2 * i] && s[..n][2 * i + 1] == s[2 * i + 1];
    }
    if HexOf(s[..n], b[..k]) && IsNibble(s[n], b[k] / 16) && IsNibble(s[n + 1], b[k] % 16) {
      forall i | 0 <= i < |b| ensures IsNibble(s[2 * i], b[i] / 16) && IsNibble(s[2 * i + 1], b[i] % 16) {
        if i < k {
          assert s[..n][2 * i] == s[2 * i] && s[..n][2 * i + 1] == s[2 * i + 1];
        }
      }
    }
  }

  lemma NibbleRoundTrip(n: byte)
    requires n < 16
    ensures NibbleOf(LOWER[n]) == Some(n)
  {
  }
}
