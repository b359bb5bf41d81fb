/** Numbers in memory through the hex codec: the read and write methods of NativePointer
    (native-pointer.ts), over memory that can be accessed. */
module NativePointer {
  import opened Words
  import opened Memory
  import opened HexCodec
  import opened Utf8

  /** NativeMemory: reads answer with text, writes take text. */
  class NativeMemory {
    var mem: Memory

    constructor (mem: Memory)
      ensures this.mem == mem
    {
      this.mem := mem;
    }

    method ReadMemory(addr: int, length: nat) returns (hex: string)
      ensures hex == HexOf(Read(mem, addr, length))
    {
      hex := BytesToHex(Read(mem, addr, length));
    }

    method WriteMemory(addr: int, hex: string)
      modifies this
      ensures mem == match BytesOf(hex) case Some(bytes) => Write(old(mem), addr, bytes) case None => old(mem)
    {
      var bytes := HexToBytes(hex);
      if bytes.Some? {
        mem := Write(mem, addr, bytes.value);
      }
    }
  }

  // ---- Little-endian numbers ---------------------------------------------------------------------------

  /** (value >> 8 * i) & 0xFF on an arbitrary-precision integer. */
  function ByteAt(value: int, i: nat): Byte {
    value / Pow256(i) % 256
  }

  /** value / 256 / p == value / (256 * p), floor division. */
  lemma DivTwice(value: int, p: int)
    requires p > 0
    ensures value / (256 * p) == value / 256 / p
  {
    var q, r := value / 256 / p, value / 256 % p;
    assert value / 256 == p * q + r;
    assert value == 256 * (p * q + r) + value % 256;
    assert 256 * (p * q + r) == 256 * p * q + 256 * r;
    QuotientUnique(value, 256 * p, q, 256 * r + value % 256);
  }

  lemma ByteShift(value: int, i: nat)
    ensures ByteAt(value, i + 1) == ByteAt(value / 256, i)
  {
    DivTwice(value, Pow256(i));
  }

  /** Two's complement: dropping multiples of 256^n keeps the low n bytes. */
  lemma {:induction false} ByteOfRemainder(value: int, n: nat, i: nat)
    requires i < n
    ensures ByteAt(value % Pow256(n), i) == ByteAt(value, i)
    decreases n
  {
    var p := Pow256(n - 1);
    var low := value % Pow256(n);
    RemainderSplit(value, p);
    if i > 0 {
      ByteShift(value, i - 1);
      ByteShift(low, i - 1);
      ByteOfRemainder(value / 256, n - 1, i - 1);
    }
  }

  lemma RemainderSplit(value: int, p: int)
    requires p > 0
    ensures var low := value % (256 * p); low / 256 == value / 256 % p && low % 256 == value % 256
  {
    var q, r := value / 256 / p, value / 256 % p;
    assert value == 256 * (p * q + r) + value % 256;
    assert 256 * (p * q + r) == 256 * p * q + 256 * r;
    QuotientUnique(value, 256 * p, q, 256 * r + value % 256);
  }

  lemma {:induction false} LeByteAt(v: nat, n: nat, i: nat)
    requires i < n
    ensures LeBytes(v, n)[i] == ByteAt(v, i)
    decreases n
  {
    if i > 0 {
      LeByteAt(v / 256, n - 1, i - 1);
      ByteShift(v, i - 1);
    }
  }

  /** The number that `n` bytes can hold of `value`. */
  function Unsigned(value: int, n: nat): nat {
    value % Pow256(n)
  }

  method ToLeHex(value: int, bytes: nat) returns (hex: string)
    ensures hex == HexOf(LeBytes(Unsigned(value, bytes), bytes))
  {
    ghost var le := LeBytes(Unsigned(value, bytes), bytes);
    hex := "";
    for i := 0 to bytes
      invariant hex == HexOf(le[..i])
    {
      var byte := ByteAt(value, i);
      LeByteAt(Unsigned(value, bytes), bytes, i);
      ByteOfRemainder(value, bytes, i);
      HexOneMore(le[..i], byte);
      assert le[..i + 1] == le[..i] + [byte];
      hex := hex + HexByte(byte);
    }
    assert le[..bytes] == le;
  }

  /** hex.match(/.{2}/g) */
  function Pairs(hex: string): (b: seq<string>)
    requires |hex| % 2 == 0
    ensures |b| == |hex| / 2
  {
    if hex == "" then [] else [hex[..2]] + Pairs(hex[2..])
  }

  lemma {:induction false} PairsOfHex(data: seq<Byte>)
    ensures Pairs(HexOf(data)) == seq(|data|, i requires 0 <= i < |data| => HexByte(data[i]))
  {
    if data != [] {
      PairsOfHex(data[1..]);
      assert HexOf(data)[..2] == HexByte(data[0]) && HexOf(data)[2..] == HexOf(data[1..]);
    }
  }

  /** Both lengths a pointer reads as pairs of digits, last pair first. */
  lemma PairsReversed(data: seq<Byte>)
    ensures |data| == 4 ==> var b := Pairs(HexOf(data)); b[3] + b[2] + b[1] + b[0] == ReversedHex(data)
    ensures |data| == 8 ==>
              var b := Pairs(HexOf(data));
              b[7] + b[6] + b[5] + b[4] + b[3] + b[2] + b[1] + b[0] == ReversedHex(data)
  {
    PairsOfHex(data);
    if |data| == 4 || |data| == 8 {
      Unrolled(data);
    }
  }

  lemma {:induction false} Unrolled(data: seq<Byte>)
    requires |data| >= 4
    ensures ReversedHex(data) ==
              ReversedHex(data[4..]) + HexByte(data[3]) + HexByte(data[2]) + HexByte(data[1]) + HexByte(data[0])
    ensures |data| == 8 ==>
              ReversedHex(data) == HexByte(data[7]) + HexByte(data[6]) + HexByte(data[5]) + HexByte(data[4])
                                   + HexByte(data[3]) + HexByte(data[2]) + HexByte(data[1]) + HexByte(data[0])
    ensures |data| == 4 ==>
              ReversedHex(data) == HexByte(data[3]) + HexByte(data[2]) + HexByte(data[1]) + HexByte(data[0])
  {
    hide HexByte;
    assert data[1..][1..] == data[2..] && data[2..][1..] == data[3..] && data[3..][1..] == data[4..];
    assert ReversedHex(data[3..]) == ReversedHex(data[4..]) + HexByte(data[3]);
    assert ReversedHex(data[2..]) == ReversedHex(data[3..]) + HexByte(data[2]);
    assert ReversedHex(data[1..]) == ReversedHex(data[2..]) + HexByte(data[1]);
    if |data| == 8 {
      Unrolled(data[4..]);
    }
  }

  // ---- A single byte is written without masking --------------------------------------------------------

  function Digits(v: nat): (s: string)
    ensures |s| >= 1
    decreases v
  {
    if v < 16 then [HEX_CHARS[v]] else Digits(v / 16) + [HEX_CHARS[v % 16]]
  }

  /** value.toString(16) */
  function ToString16(value: int): string {
    if value < 0 then "-" + Digits(-value) else Digits(value)
  }

  function PadStart2(s: string): string {
    if |s| == 1 then "0" + s else s
  }

  lemma {:induction false} BytesOfLength(hex: string)
    ensures BytesOf(hex).Some? ==> |BytesOf(hex).value| == (|hex| + 1) / 2
    decreases |hex|
  {
    if hex != "" {
      BytesOfLength(hex[if |hex| == 1 then 1 else 2..]);
    }
  }

  lemma LongText(value: int)
    requires value <= -16 || value >= 256
    ensures |PadStart2(ToString16(value))| >= 3
  {
    if value >= 256 {
      assert |Digits(value / 16)| >= 2;
    } else {
      assert |Digits(-value)| >= 2;
    }
  }

  lemma ShortText(value: int)
    requires -16 < value < 256
    ensures var text := PadStart2(ToString16(value)); |text| == 2 && StoiHex(text) == Some(value)
  {
    hide StoiHex, DigitValue;
    if value >= 16 {
      HexByteRoundTrip(value);
      assert Digits(value / 16) == [HEX_CHARS[value / 16]];
      assert Digits(value) == HexByte(value);
    } else if value >= 0 {
      HexByteRoundTrip(value);
      assert "0" + [HEX_CHARS[value]] == HexByte(value);
    } else {
      MinusDigit(-value);
      assert "-" + [HEX_CHARS[-value]] == ['-', HEX_CHARS[-value]];
    }
  }

  lemma MinusDigit(n: nat)
    requires n < 16
    ensures StoiHex(['-', HEX_CHARS[n]]) == Some(0 - n as int)
  {
    DigitRoundTrip(n);
  }

  /** The text of a value is one byte, and the right one, exactly from -15 to 255; outside it writes
      two bytes or more. */
  lemma OneByteText(value: int)
    ensures BytesOf(PadStart2(ToString16(value))) == Some([value % 256]) <==> -16 < value < 256
  {
    hide BytesOf, StoiHex, PadStart2, ToString16;
    var text := PadStart2(ToString16(value));
    if -16 < value < 256 {
      ShortText(value);
      OneByte(text, value);
    } else {
      LongText(value);
      BytesOfLength(text);
    }
  }

  lemma OneByte(text: string, v: int)
    requires |text| == 2 && StoiHex(text) == Some(v)
    ensures BytesOf(text) == Some([v % 256])
  {
    var rest := text[2..];
    assert text[..2] == text && rest == "" && BytesOf(rest) == Some([]);
    assert [v % 256] + [] == [v % 256];
  }

  class Pointer {
    const addr: int
    const memory: NativeMemory

    constructor (addr: int, memory: NativeMemory)
      ensures this.addr == addr && this.memory == memory
    {
      this.addr, this.memory := addr, memory;
    }

    /** The value at the pointer as an unsigned number of `n` bytes. */
    function Value(n: nat): nat
      reads memory
    {
      LeValue(Read(memory.mem, addr, n))
    }

    method ReadU8() returns (v: nat)
      ensures v == Value(1)
    {
      var hex := memory.ReadMemory(addr, 1);
      ReversedValue(Read(memory.mem, addr, 1));
      assert hex == ReversedHex(Read(memory.mem, addr, 1));
      v := HexValue(hex);
    }

    method ReadU16() returns (v: nat)
      ensures v == Value(2)
    {
      var hex := memory.ReadMemory(addr, 2);
      ghost var data := Read(memory.mem, addr, 2);
      ReversedValue(data);
      assert data[1..] == [data[1]];
      assert HexOf(data) == HexByte(data[0]) + HexByte(data[1]);
      assert ReversedHex([data[1]]) == ReversedHex([]) + HexByte(data[1]) == HexByte(data[1]);
      assert ReversedHex(data) == HexByte(data[1]) + HexByte(data[0]);
      assert hex[2..4] + hex[0..2] == ReversedHex(data);
      v := HexValue(hex[2..4] + hex[0..2]);
    }

    method ReadU32() returns (v: nat)
      ensures v == Value(4)
    {
      var hex := memory.ReadMemory(addr, 4);
      PairsReversed(Read(memory.mem, addr, 4));
      ReversedValue(Read(memory.mem, addr, 4));
      var b := Pairs(hex);
      v := HexValue(b[3] + b[2] + b[1] + b[0]);
    }

    method ReadU64() returns (v: nat)
      ensures v == Value(8)
    {
      var hex := memory.ReadMemory(addr, 8);
      PairsReversed(Read(memory.mem, addr, 8));
      ReversedValue(Read(memory.mem, addr, 8));
      var b := Pairs(hex);
      v := HexValue(b[7] + b[6] + b[5] + b[4] + b[3] + b[2] + b[1] + b[0]);
    }

    method ReadS8() returns (s: int)
      ensures s == Signed(Value(1), 1)
    {
      Spans();
      var v: int := ReadU8();
      s := if v > 127 then v - 256 else v;
    }

    method ReadS16() returns (s: int)
      ensures s == Signed(Value(2), 2)
    {
      Spans();
      var v: int := ReadU16();
      s := if v > 32767 then v - 65536 else v;
    }

    method ReadS32() returns (s: int)
      ensures s == Signed(Value(4), 4)
    {
      Spans();
      var v: int := ReadU32();
      s := if v > 0x7FFF_FFFF then v - 0x1_0000_0000 else v;
    }

    method ReadS64() returns (s: int)
      ensures s == Signed(Value(8), 8)
    {
      Spans();
      var v: int := ReadU64();
      s := if v > 0x7FFF_FFFF_FFFF_FFFF then v - 0x1_0000_0000_0000_0000 else v;
    }

    /** One byte for a value from 0 to 255; see OneByteText for the others. */
    method WriteU8(value: int)
      modifies memory
      ensures memory.mem == match BytesOf(PadStart2(ToString16(value)))
                            case Some(bytes) => Write(old(memory.mem), addr, bytes)
                            case None => old(memory.mem)
      ensures -16 < value < 256 ==> memory.mem == Write(old(memory.mem), addr, [value % 256])
    {
      OneByteText(value);
      memory.WriteMemory(addr, PadStart2(ToString16(value)));
    }

    /** The low bytes of any integer, two's complement. */
    method WriteLe(value: int, n: nat)
      modifies memory
      ensures memory.mem == Write(old(memory.mem), addr, LeBytes(Unsigned(value, n), n))
    {
      var hex := ToLeHex(value, n);
      HexCodec.RoundTrip(LeBytes(Unsigned(value, n), n));
      memory.WriteMemory(addr, hex);
    }

    method WriteU16(value: int)
      modifies memory
      ensures memory.mem == Write(old(memory.mem), addr, LeBytes(Unsigned(value, 2), 2))
    {
      WriteLe(value, 2);
    }

    method WriteU32(value: int)
      modifies memory
      ensures memory.mem == Write(old(memory.mem), addr, LeBytes(Unsigned(value, 4), 4))
    {
      WriteLe(value, 4);
    }

    method WriteU64(value: int)
      modifies memory
      ensures memory.mem == Write(old(memory.mem), addr, LeBytes(Unsigned(value, 8), 8))
    {
      WriteLe(value, 8);
    }

    method WriteS8(value: int)
      modifies memory
      ensures memory.mem == Write(old(memory.mem), addr, LeBytes(Unsigned(value, 1), 1))
    {
      Spans();
      var low := value % 256;
      assert LeBytes(low, 1) == [low % 256] + LeBytes(low / 256, 0) == [low];
      WriteU8(low);
    }

    method WriteS16(value: int)
      modifies memory
      ensures memory.mem == Write(old(memory.mem), addr, LeBytes(Unsigned(value, 2), 2))
    {
      LowBytes(value);
      hide Unsigned, LeBytes, Write;
      WriteU16(value % 65536);
    }

    method WriteS32(value: int)
      modifies memory
      ensures memory.mem == Write(old(memory.mem), addr, LeBytes(Unsigned(value, 4), 4))
    {
      LowBytes(value);
      hide Unsigned, LeBytes, Write;
      WriteU32(value % 0x1_0000_0000);
    }

    method WriteS64(value: int)
      modifies memory
      ensures memory.mem == Write(old(memory.mem), addr, LeBytes(Unsigned(value, 8), 8))
    {
      WriteU64(value);
    }

    method WriteByteArray(bytes: seq<Byte>)
      modifies memory
      ensures memory.mem == Write(old(memory.mem), addr, bytes)
    {
      var hex := "";
      for i := 0 to |bytes|
        invariant hex == HexOf(bytes[..i]) && unchanged(memory)
      {
        HexOneMore(bytes[..i], bytes[i]);
        assert bytes[..i + 1] == bytes[..i] + [bytes[i]];
        hex := hex + HexByte(bytes[i]);
      }
      assert bytes[..|bytes|] == bytes;
      HexCodec.RoundTrip(bytes);
      memory.WriteMemory(addr, hex);
    }

    // ---- Strings ----------------------------------------------------------------------------------

    method WriteUtf8String(str: seq<CodeUnit>)
      modifies memory
      ensures memory.mem == Write(old(memory.mem), addr, Encoded(str) + [0])
    {
      hide EncodePoint, CodePointAt;
      var bytes: seq<Byte> := [];
      var i := 0;
      assert str[0..] == str && [] + Encoded(str) == Encoded(str);
      while i < |str|
        invariant 0 <= i <= |str|
        invariant bytes + Encoded(str[i..]) == Encoded(str)
        invariant unchanged(memory)
        decreases |str| - i
      {
        UnitsFit(str[i..]);
        var cp := CodePointAt(str[i..]);
        ghost var rest := str[i..][Units(cp)..];
        assert rest == str[i + Units(cp)..];
        assert bytes + (EncodePoint(cp) + Encoded(rest)) == bytes + EncodePoint(cp) + Encoded(rest);
        bytes := bytes + EncodePoint(cp);
        if cp >= 0x1_0000 {
          i := i + 1;
        }
        i := i + 1;
      }
      assert bytes + [] == bytes;
      WriteByteArray(bytes + [0]);
    }

    /** Bytes up to the first zero, at most `maxLength`, then decoded. */
    method ReadUtf8String(maxLength: nat) returns (result: seq<CodeUnit>)
      ensures result == Decoded(UpToZero(memory.mem, addr, maxLength))
    {
      hide DecodeStep, Decoded, From;
      var bytes := ReadUpToZero(maxLength);
      result := [];
      var i := 0;
      FromEnds(bytes);
      assert [] + Decoded(bytes) == Decoded(bytes);
      while i < |bytes|
        invariant 0 <= i && result + Decoded(From(bytes, i)) == Decoded(bytes)
        decreases |bytes| - i
      {
        var (units, n) := DecodeStep(bytes[i..]);
        DecodedNext(bytes, i);
        assert result + (units + Decoded(From(bytes, i + n))) == result + units + Decoded(From(bytes, i + n));
        result := result + units;
        i := i + n;
      }
      DecodedEnd(bytes, i);
      assert result + [] == result;
    }

    method ReadUpToZero(maxLength: nat) returns (bytes: seq<Byte>)
      ensures bytes == UpToZero(memory.mem, addr, maxLength)
    {
      bytes := [];
      for i := 0 to maxLength
        invariant |bytes| == i &&
                  bytes + UpToZero(memory.mem, addr + i, maxLength - i) == UpToZero(memory.mem, addr, maxLength)
      {
        var at := new Pointer(addr + i, memory);
        var ch := at.ReadU8();
        OneByteValue(memory.mem, addr + i);
        if ch == 0 {
          assert bytes + [] == bytes;
          return;
        }
        assert bytes + ([ch] + UpToZero(memory.mem, addr + i + 1, maxLength - i - 1))
               == bytes + [ch] + UpToZero(memory.mem, addr + i + 1, maxLength - i - 1);
        bytes := bytes + [ch];
      }
      assert bytes + [] == bytes;
    }
  }

  // ---- Round trips ------------------------------------------------------------------------------------

  /** What the signed readers make of an unsigned value: the upper half counts as negative. */
  function Signed(v: nat, n: nat): int {
    if 2 * v >= Pow256(n) then v as int - Pow256(n) else v
  }

  lemma Spans()
    ensures Pow256(1) == 256 && Pow256(2) == 65536 && Pow256(4) == 0x1_0000_0000 && Pow256(8) == 0x1_0000_0000_0000_0000
  {
    Pow256Of8();
    assert Pow256(2) == 256 * Pow256(1);
  }

  /** Masking a value first does not change its low bytes. */
  lemma LowBytes(value: int)
    ensures Unsigned(value % 65536, 2) == Unsigned(value, 2)
    ensures Unsigned(value % 0x1_0000_0000, 4) == Unsigned(value, 4)
  {
    Spans();
  }

  /** Writing and reading back in `n` bytes: unsigned values over the whole unsigned range, signed
      values over the whole signed range, and any other value modulo 256^n. */
  lemma ValueRoundTrip(m: Memory, addr: int, value: int, n: nat)
    ensures var v := LeValue(Read(Write(m, addr, LeBytes(Unsigned(value, n), n)), addr, n));
            && v == value % Pow256(n)
            && (v == value <==> 0 <= value < Pow256(n))
            && (Signed(v, n) == value <==> -(Pow256(n) as int) <= 2 * value < Pow256(n))
  {
    var bytes := LeBytes(Unsigned(value, n), n);
    var p := Pow256(n);
    assert Read(Write(m, addr, bytes), addr, n) == bytes;
    LeRoundTrip(Unsigned(value, n), n);
    var v := value % p;
    QuotientUnique(v, p, 0, v);
    if 0 <= value < p {
      QuotientUnique(value, p, 0, value);
    }
    if -(p as int) <= value < 0 {
      QuotientUnique(value, p, -1, value + p);
    }
  }

  // ---- Strings -------------------------------------------------------------------------------------------

  lemma OneByteValue(m: Memory, addr: int)
    ensures LeValue(Read(m, addr, 1)) == m(addr)
  {
    assert Read(m, addr, 1) == [m(addr)];
    assert LeValue([m(addr)]) == m(addr) + 256 * LeValue([]);
  }

  function UpToZero(m: Memory, addr: int, maxLength: nat): (bytes: seq<Byte>)
    ensures |bytes| <= maxLength
    decreases maxLength
  {
    if maxLength == 0 || m(addr) == 0 then [] else [m(addr)] + UpToZero(m, addr + 1, maxLength - 1)
  }

  lemma {:induction false} UpToTerminator(m: Memory, addr: int, bytes: seq<Byte>, maxLength: nat)
    requires Holds(m, addr, bytes + [0]) && 0 !in bytes && |bytes| <= maxLength
    ensures UpToZero(m, addr, maxLength) == bytes
    decreases |bytes|
  {
    if bytes == [] {
      assert (bytes + [0])[0] == 0 && maxLength > 0 ==> m(addr) == 0;
    } else {
      assert (bytes + [0])[0] == bytes[0];
      forall x: int | addr + 1 <= x < addr + 1 + |bytes[1..] + [0]| ensures m(x) == (bytes[1..] + [0])[x - (addr + 1)] {
        assert m(x) == (bytes + [0])[x - addr];
      }
      assert forall b <- bytes[1..] :: b in bytes;
      UpToTerminator(m, addr + 1, bytes[1..], maxLength - 1);
    }
  }

  lemma {:induction false} UpToLimit(m: Memory, addr: int, bytes: seq<Byte>, maxLength: nat)
    requires Holds(m, addr, bytes) && 0 !in bytes && maxLength <= |bytes|
    ensures UpToZero(m, addr, maxLength) == bytes[..maxLength]
    decreases maxLength
  {
    if maxLength > 0 {
      assert m(addr) == bytes[0] && bytes[0] in bytes;
      forall x: int | addr + 1 <= x < addr + 1 + |bytes[1..]| ensures m(x) == bytes[1..][x - (addr + 1)] {
        assert m(x) == bytes[x - addr];
      }
      assert forall b <- bytes[1..] :: b in bytes;
      UpToLimit(m, addr + 1, bytes[1..], maxLength - 1);
      assert bytes[..maxLength] == [bytes[0]] + bytes[1..][..maxLength - 1];
    }
  }

  /** If the encoding does not fit, the last code point read loses the bits of its missing bytes. */
  lemma StringCut(m: Memory, addr: int, str: seq<CodeUnit>, maxLength: nat)
    requires 0 !in str && maxLength <= |Encoded(str)|
    ensures Decoded(UpToZero(Write(m, addr, Encoded(str) + [0]), addr, maxLength)) == Shown(str, maxLength)
  {
    NoZeroByte(str);
    assert Holds(Write(m, addr, Encoded(str) + [0]), addr, Encoded(str)) by {
      assert forall i :: 0 <= i < |Encoded(str)| ==> (Encoded(str) + [0])[i] == Encoded(str)[i];
    }
    UpToLimit(Write(m, addr, Encoded(str) + [0]), addr, Encoded(str), maxLength);
    CutShows(str, maxLength);
  }

  /** A string without NUL whose encoding fits comes back as it was written, code unit by code unit. */
  lemma StringRoundTrip(m: Memory, addr: int, str: seq<CodeUnit>, maxLength: nat)
    requires 0 !in str && |Encoded(str)| <= maxLength
    ensures Decoded(UpToZero(Write(m, addr, Encoded(str) + [0]), addr, maxLength)) == str
  {
    NoZeroByte(str);
    UpToTerminator(Write(m, addr, Encoded(str) + [0]), addr, Encoded(str), maxLength);
    Utf8.RoundTrip(str);
  }
}
