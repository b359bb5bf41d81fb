/** Bytes as hexadecimal text, the form in which memory contents cross the script boundary
    (native_memory.cc and `padStart(2, '0')` on the script side). */
module HexCodec {
  import opened Words

  const HEX_CHARS := "0123456789abcdef"

  /** The value of a hexadecimal digit in either case. */
  function DigitValue(c: char): Option<nat> {
    if '0' <= c <= '9' then Some(c as int - '0' as int)
    else if 'a' <= c <= 'f' then Some(c as int - 'a' as int + 10)
    else if 'A' <= c <= 'F' then Some(c as int - 'A' as int + 10)
    else None
  }

  function HexByte(b: Byte): (s: string)
    ensures |s| == 2
  {
    [HEX_CHARS[b / 16], HEX_CHARS[b % 16]]
  }

  function HexOf(data: seq<Byte>): (s: string)
    ensures |s| == 2 * |data|
  {
    if data == [] then "" else HexByte(data[0]) + HexOf(data[1..])
  }

  predicate IsSpace(c: char) {
    c == ' ' || c == '\t' || c == '\n' || c == '\r' || c as int == 11 || c as int == 12
  }

  /** std::stoi with base 16 on one or two characters: leading space and sign are accepted, digits are
      read as far as they go, and without any digit it throws. */
  function StoiHex(s: string): Option<int>
    requires 1 <= |s| <= 2
  {
    if |s| == 1 then
      match DigitValue(s[0])
      case Some(a) => Some(a)
      case None => None
    else match (DigitValue(s[0]), DigitValue(s[1]))
      case (Some(a), Some(b)) => Some(16 * a + b)
      case (Some(a), None) => Some(a)
      case (None, Some(b)) =>
        if IsSpace(s[0]) || s[0] == '+' then Some(b) else if s[0] == '-' then Some(0 - b as int) else None
      case (None, None) => None
  }

  /** What hexToBytes makes of a string; None where it throws. */
  function BytesOf(hex: string): Option<seq<Byte>> {
    if hex == "" then Some([])
    else
      var n := if |hex| == 1 then 1 else 2;
      match (StoiHex(hex[..n]), BytesOf(hex[n..]))
      case (Some(v), Some(rest)) => Some([v % 256] + rest)
      case _ => None
  }

  const UPPER_CHARS := "0123456789ABCDEF"

  /** A way to write the digit `n`. */
  predicate IsDigitOf(c: char, n: nat) {
    n < 16 && (c == HEX_CHARS[n] || c == UPPER_CHARS[n])
  }

  /** Exactly the characters of the two digit tables are digits, each with its place in the table. */
  lemma DigitIff(c: char, n: nat)
    ensures DigitValue(c) == Some(n) <==> IsDigitOf(c, n)
    ensures n < 16 ==> HEX_CHARS[n] as int == if n < 10 then 0x30 + n else 0x61 + n - 10
    ensures n < 16 ==> UPPER_CHARS[n] as int == if n < 10 then 0x30 + n else 0x41 + n - 10
  {
  }

  /** The white space of isspace: tab, line feed, vertical tab, form feed, carriage return, blank. */
  lemma SpaceCodes(c: char)
    ensures IsSpace(c) <==> 9 <= c as int <= 13 || c as int == 32
  {
  }

  lemma DigitRoundTrip(n: nat)
    requires n < 16
    ensures DigitValue(HEX_CHARS[n]) == Some(n)
  {
  }

  lemma HexByteRoundTrip(b: Byte)
    ensures StoiHex(HexByte(b)) == Some(b as int)
  {
    DigitRoundTrip(b / 16);
    DigitRoundTrip(b % 16);
  }

  /** Every byte sequence survives the trip through text. */
  lemma {:induction false} RoundTrip(data: seq<Byte>)
    ensures BytesOf(HexOf(data)) == Some(data)
  {
    hide HexByte, StoiHex;
    if data != [] {
      RoundTrip(data[1..]);
      HexByteRoundTrip(data[0]);
      assert HexOf(data)[..2] == HexByte(data[0]) && HexOf(data)[2..] == HexOf(data[1..]);
      assert [data[0]] + data[1..] == data;
    }
  }

  /** Two digits a byte, in either case and any mixture of cases. */
  predicate Writes(hex: string, data: seq<Byte>) {
    |hex| == 2 * |data| &&
    forall k :: 0 <= k < |data| ==> WritesAt(hex, data, k)
  }

  predicate WritesAt(hex: string, data: seq<Byte>, k: nat)
    requires |hex| == 2 * |data| && k < |data|
  {
    IsDigitOf(hex[2 * k], data[k] / 16) && IsDigitOf(hex[2 * k + 1], data[k] % 16)
  }

  lemma FirstWritten(hex: string, data: seq<Byte>)
    requires Writes(hex, data) && data != []
    ensures StoiHex(hex[..2]) == Some(data[0] as int)
  {
    assert WritesAt(hex, data, 0);
    DigitIff(hex[0], data[0] / 16);
    DigitIff(hex[1], data[0] % 16);
    hide DigitValue, IsDigitOf;
  }

  lemma RestWritten(hex: string, data: seq<Byte>)
    requires Writes(hex, data) && data != []
    ensures Writes(hex[2..], data[1..])
  {
    hide IsDigitOf;
    forall k | 0 <= k < |data[1..]| ensures WritesAt(hex[2..], data[1..], k) {
      assert WritesAt(hex, data, k + 1);
    }
  }

  /** Text in either case gives the bytes it writes. */
  lemma {:induction false} AnyCaseRoundTrip(hex: string, data: seq<Byte>)
    requires Writes(hex, data)
    ensures BytesOf(hex) == Some(data)
    decreases |data|
  {
    hide StoiHex, WritesAt;
    if data != [] {
      FirstWritten(hex, data);
      RestWritten(hex, data);
      AnyCaseRoundTrip(hex[2..], data[1..]);
      assert [data[0]] + data[1..] == data;
    }
  }

  /** Upper-case text in particular. */
  function UpperHexOf(data: seq<Byte>): (hex: string)
    ensures Writes(hex, data)
  {
    seq(2 * |data|,
        i requires 0 <= i < 2 * |data| => UPPER_CHARS[if i % 2 == 0 then data[i / 2] / 16 else data[i / 2] % 16])
  }

  lemma {:induction false} HexOneMore(data: seq<Byte>, b: Byte)
    ensures HexOf(data + [b]) == HexOf(data) + HexByte(b)
  {
    hide HexByte;
    if data == [] {
      assert data + [b] == [b];
      assert HexOf([b]) == HexByte(b) + HexOf([]);
    } else {
      var first, rest := HexByte(data[0]), HexOf(data[1..]);
      HexOneMore(data[1..], b);
      assert (data + [b])[1..] == data[1..] + [b] && (data + [b])[0] == data[0];
      assert HexOf(data + [b]) == first + HexOf(data[1..] + [b]);
      assert first + (rest + HexByte(b)) == first + rest + HexByte(b);
    }
  }

  method BytesToHex(data: seq<Byte>) returns (result: string)
    ensures result == HexOf(data)
  {
    result := "";
    for i := 0 to |data|
      invariant result == HexOf(data[..i])
    {
      HexOneMore(data[..i], data[i]);
      assert data[..i + 1] == data[..i] + [data[i]];
      result := result + [HEX_CHARS[data[i] / 16]];
      result := result + [HEX_CHARS[data[i] % 16]];
    }
    assert data[..|data|] == data;
  }

  method HexToBytes(hex: string) returns (bytes: Option<seq<Byte>>)
    ensures bytes == BytesOf(hex)
  {
    var done: seq<Byte> := [];
    var i := 0;
    Joined([], BytesOf(hex));
    while i < |hex|
      invariant 0 <= i <= |hex|
      invariant BytesOf(hex) == Join(done, BytesOf(hex[i..]))
      decreases |hex| - i
    {
      var n := if i + 1 == |hex| then 1 else 2;
      assert hex[i..][..n] == hex[i..i + n] && hex[i..][n..] == hex[i + n..];
      var v := StoiHex(hex[i..i + n]);
      if v.None? {
        return None;
      }
      JoinTwice(done, v.value % 256, BytesOf(hex[i + n..]));
      done := done + [v.value % 256];
      i := i + n;
    }
    assert done + [] == done;
    return Some(done);
  }

  function Join(done: seq<Byte>, rest: Option<seq<Byte>>): Option<seq<Byte>> {
    if rest.Some? then Some(done + rest.value) else None
  }

  lemma Joined(done: seq<Byte>, rest: Option<seq<Byte>>)
    ensures Join([], rest) == rest
  {
    if rest.Some? {
      assert [] + rest.value == rest.value;
    }
  }

  lemma JoinTwice(done: seq<Byte>, b: Byte, rest: Option<seq<Byte>>)
    ensures Join(done + [b], rest) == Join(done, Join([b], rest))
  {
    if rest.Some? {
      assert done + [b] + rest.value == done + ([b] + rest.value);
    }
  }

  // ---- Text as a number -------------------------------------------------------------------------------

  predicate IsHex(s: string) {
    forall c <- s :: DigitValue(c).Some?
  }

  /** parseInt(s, 16) or BigInt("0x" + s). */
  function HexValue(s: string): nat
    requires IsHex(s)
  {
    if s == "" then 0 else 16 * HexValue(s[..|s| - 1]) + DigitValue(s[|s| - 1]).value
  }

  lemma HexByteValue(b: Byte, s: string)
    requires IsHex(s)
    ensures IsHex(s + HexByte(b)) && HexValue(s + HexByte(b)) == 256 * HexValue(s) + b
  {
    DigitRoundTrip(b / 16);
    DigitRoundTrip(b % 16);
    var t := s + [HEX_CHARS[b / 16]];
    assert t[..|t| - 1] == s;
    var u := t + [HEX_CHARS[b % 16]];
    assert u[..|u| - 1] == t && u == s + HexByte(b);
  }

  /** The text of the bytes, last byte first. */
  function ReversedHex(data: seq<Byte>): string {
    if data == [] then "" else ReversedHex(data[1..]) + HexByte(data[0])
  }

  /** Little-endian bytes read backwards are the number. */
  lemma {:induction false} ReversedValue(data: seq<Byte>)
    ensures IsHex(ReversedHex(data)) && HexValue(ReversedHex(data)) == LeValue(data)
  {
    if data != [] {
      ReversedValue(data[1..]);
      HexByteValue(data[0], ReversedHex(data[1..]));
    }
  }
}
