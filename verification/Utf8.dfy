/** UTF-16 strings as zero-terminated UTF-8 (native-pointer.ts).  Bit operations on disjoint fields
    are written with +, / and %. */
module Utf8 {
  import opened Words

  type CodeUnit = u: int | 0 <= u < 0x1_0000

  /** str.codePointAt(0): a high surrogate with a low one after it, or else one unit by itself. */
  function CodePointAt(str: seq<CodeUnit>): (cp: nat)
    requires str != []
    ensures cp < 0x11_0000
  {
    if Pair(str) then 0x1_0000 + (str[0] as int - 0xD800) * 0x400 + (str[1] as int - 0xDC00) else str[0]
  }

  predicate Pair(str: seq<CodeUnit>) {
    |str| >= 2 && 0xD800 <= str[0] < 0xDC00 && 0xDC00 <= str[1] < 0xE000
  }

  function EncodePoint(cp: nat): (bs: seq<Byte>)
    requires cp < 0x11_0000
    ensures 1 <= |bs| <= 4
  {
    if cp < 0x80 then [cp]
    else if cp < 0x800 then [0xC0 + cp / 0x40, 0x80 + cp % 0x40]
    else if cp < 0x1_0000 then [0xE0 + cp / 0x1000, 0x80 + cp / 0x40 % 0x40, 0x80 + cp % 0x40]
    else [0xF0 + cp / 0x4_0000, 0x80 + cp / 0x1000 % 0x40, 0x80 + cp / 0x40 % 0x40, 0x80 + cp % 0x40]
  }

  function Units(cp: nat): (n: nat)
    ensures 1 <= n <= 2
  {
    if cp < 0x1_0000 then 1 else 2
  }

  lemma UnitsFit(str: seq<CodeUnit>)
    requires str != []
    ensures Units(CodePointAt(str)) == if Pair(str) then 2 else 1
    ensures Units(CodePointAt(str)) <= |str|
  {
  }

  /** The bytes written for a string, without the terminator. */
  function Encoded(str: seq<CodeUnit>): seq<Byte> {
    if str == [] then []
    else
      UnitsFit(str);
      EncodePoint(CodePointAt(str)) + Encoded(str[Units(CodePointAt(str))..])
  }

  /** bytes[i], where an index out of range gives undefined and so zero in bit operations. */
  function At(bytes: seq<Byte>, i: nat): Byte {
    if i < |bytes| then bytes[i] else 0
  }

  /** One step of the decoder: the units it appends and the bytes it moves on. */
  function DecodeStep(bytes: seq<Byte>): (r: (seq<CodeUnit>, nat))
    requires bytes != []
    ensures 1 <= r.1 <= 4
  {
    var c := bytes[0];
    if c < 0x80 then ([c], 1)
    else if c < 0xE0 then ([c % 0x20 * 0x40 + At(bytes, 1) % 0x40], 2)
    else if c < 0xF0 then ([c % 0x10 * 0x1000 + At(bytes, 1) % 0x40 * 0x40 + At(bytes, 2) % 0x40], 3)
    else
      var cp := c % 8 * 0x4_0000 + At(bytes, 1) % 0x40 * 0x1000 + At(bytes, 2) % 0x40 * 0x40 + At(bytes, 3) % 0x40;
      var offset: int := cp - 0x1_0000;
      ([(0xD800 + offset / 0x400) % 0x1_0000, 0xDC00 + offset % 0x400], 4)
  }

  function Decoded(bytes: seq<Byte>): seq<CodeUnit>
    decreases |bytes|
  {
    if bytes == [] then []
    else
      var (units, n) := DecodeStep(bytes);
      units + Decoded(if n <= |bytes| then bytes[n..] else [])
  }

  /** What is left of the bytes from index `i` on; the decoder may run past the end. */
  function From(bytes: seq<Byte>, i: nat): seq<Byte> {
    if i <= |bytes| then bytes[i..] else []
  }

  lemma FromEnds(bytes: seq<Byte>)
    ensures From(bytes, 0) == bytes
  {
  }

  lemma DecodedEnd(bytes: seq<Byte>, i: nat)
    requires i >= |bytes|
    ensures Decoded(From(bytes, i)) == []
  {
  }

  lemma DecodedNext(bytes: seq<Byte>, i: nat)
    requires i < |bytes|
    ensures var (units, n) := DecodeStep(bytes[i..]); Decoded(From(bytes, i)) == units + Decoded(From(bytes, i + n))
  {
    hide DecodeStep;
    var (units, n) := DecodeStep(bytes[i..]);
    assert From(bytes, i + n) == if n <= |bytes[i..]| then bytes[i..][n..] else [];
  }

  // ---- Round trip -------------------------------------------------------------------------------------

  /** The six-bit groups of a number. */
  lemma Groups(cp: nat)
    ensures cp == cp / 0x40 * 0x40 + cp % 0x40
    ensures cp / 0x40 == cp / 0x1000 * 0x40 + cp / 0x40 % 0x40
    ensures cp / 0x1000 == cp / 0x4_0000 * 0x40 + cp / 0x1000 % 0x40
  {
    assert cp / 0x40 / 0x40 == cp / 0x1000;
    assert cp / 0x1000 / 0x40 == cp / 0x4_0000;
  }

  lemma TailBits(x: int)
    requires 0 <= x < 0x40
    ensures (0x80 + x) % 0x40 == x
  {
  }

  /** The decoder's arithmetic undoes the encoder's, for one code point. */
  lemma PointBack(cp: nat, rest: seq<Byte>)
    requires cp < 0x11_0000
    ensures var (units, n) := DecodeStep(EncodePoint(cp) + rest);
            && n == |EncodePoint(cp)|
            && units ==
                 if cp < 0x1_0000 then [cp] else [0xD800 + (cp - 0x1_0000) / 0x400, 0xDC00 + (cp - 0x1_0000) % 0x400]
  {
    if cp < 0x1_0000 {
      OneUnitBack(cp, rest);
    } else {
      TwoUnitsBack(cp, rest);
    }
  }

  lemma OneUnitBack(cp: nat, rest: seq<Byte>)
    requires cp < 0x1_0000
    ensures DecodeStep(EncodePoint(cp) + rest) == ([cp], |EncodePoint(cp)|)
  {
    var bs := EncodePoint(cp) + rest;
    assert forall i :: 0 <= i < |EncodePoint(cp)| ==> At(bs, i) == EncodePoint(cp)[i];
    hide At;
    Groups(cp);
    TailBits(cp % 0x40);
    TailBits(cp / 0x40 % 0x40);
  }

  /** Four bytes with the groups `a`, `b`, `c` and `d`. */
  lemma FourBytesBack(a: nat, b: nat, c: nat, d: nat, rest: seq<Byte>)
    requires a < 8 && b < 0x40 && c < 0x40 && d < 0x40
    requires 0x1_0000 <= a * 0x4_0000 + b * 0x1000 + c * 0x40 + d < 0x11_0000
    ensures var offset := a * 0x4_0000 + b * 0x1000 + c * 0x40 + d - 0x1_0000;
            DecodeStep([0xF0 + a, 0x80 + b, 0x80 + c, 0x80 + d] + rest) ==
                ([0xD800 + offset / 0x400, 0xDC00 + offset % 0x400], 4)
  {
    var bs := [0xF0 + a, 0x80 + b, 0x80 + c, 0x80 + d] + rest;
    assert bs[0] == 0xF0 + a && At(bs, 1) == 0x80 + b && At(bs, 2) == 0x80 + c && At(bs, 3) == 0x80 + d;
    hide At;
    TailBits(b);
    TailBits(c);
    TailBits(d);
    assert bs[0] % 8 == a;
    var offset := a * 0x4_0000 + b * 0x1000 + c * 0x40 + d - 0x1_0000;
    assert 0 <= offset / 0x400 < 0x400;
  }

  lemma TwoUnitsBack(cp: nat, rest: seq<Byte>)
    requires 0x1_0000 <= cp < 0x11_0000
    ensures DecodeStep(EncodePoint(cp) + rest) ==
              ([0xD800 + (cp - 0x1_0000) / 0x400, 0xDC00 + (cp - 0x1_0000) % 0x400], 4)
  {
    hide DecodeStep;
    Groups(cp);
    FourBytesBack(cp / 0x4_0000, cp / 0x1000 % 0x40, cp / 0x40 % 0x40, cp % 0x40, rest);
  }

  lemma PairUnits(str: seq<CodeUnit>)
    requires str != []
    ensures var cp := CodePointAt(str);
            && Units(cp) <= |str|
            && str[..Units(cp)] ==
                 if cp < 0x1_0000 then [cp] else [0xD800 + (cp - 0x1_0000) / 0x400, 0xDC00 + (cp - 0x1_0000) % 0x400]
  {
    UnitsFit(str);
    if Pair(str) {
      assert str[..2] == [str[0], str[1]];
    }
  }

  /** The decoder takes back exactly one encoded code point, whatever follows it. */
  lemma StepBack(str: seq<CodeUnit>, rest: seq<Byte>)
    requires str != []
    ensures var cp := CodePointAt(str);
            && Units(cp) <= |str|
            && DecodeStep(EncodePoint(cp) + rest) == (str[..Units(cp)], |EncodePoint(cp)|)
  {
    hide DecodeStep, EncodePoint;
    PairUnits(str);
    PointBack(CodePointAt(str), rest);
  }

  /** Every string comes back, lone surrogates included. */
  lemma {:induction false} RoundTrip(str: seq<CodeUnit>)
    ensures Decoded(Encoded(str)) == str
  {
    AfterEncoded(str, []);
    assert Encoded(str) + [] == Encoded(str) && str + [] == str;
  }

  // ---- Cut and stray bytes ----------------------------------------------------------------------------

  /** What follows an encoded string does not disturb it. */
  lemma {:induction false} AfterEncoded(str: seq<CodeUnit>, rest: seq<Byte>)
    ensures Decoded(Encoded(str) + rest) == str + Decoded(rest)
    decreases |str|
  {
    hide DecodeStep, EncodePoint, CodePointAt;
    if str == [] {
      assert [] + rest == rest;
    } else {
      var cp := CodePointAt(str);
      UnitsFit(str);
      var tail := str[Units(cp)..];
      StepBack(str, Encoded(tail) + rest);
      AfterEncoded(tail, rest);
      Joined(EncodePoint(cp), Encoded(tail), rest);
      Joined(str[..Units(cp)], tail, Decoded(rest));
      assert str[..Units(cp)] + tail == str;
    }
  }

  lemma Joined<T>(xs: seq<T>, ys: seq<T>, zs: seq<T>)
    ensures (xs + ys) + zs == xs + (ys + zs)
    ensures (xs + (ys + zs))[|xs|..] == ys + zs
  {
  }

  /** How many bytes a code point takes. */
  function Length(cp: nat): nat {
    if cp < 0x80 then 1 else if cp < 0x800 then 2 else if cp < 0x1_0000 then 3 else 4
  }

  /** What is left of a code point without its last `n` bytes: each of them carries six bits. */
  function Without(cp: nat, n: nat): (r: nat)
    requires n < 4
    ensures r <= cp
  {
    match n
    case 0 => cp
    case 1 => cp - cp % 0x40
    case 2 => cp - cp % 0x1000
    case _ => cp - cp % 0x4_0000
  }

  /** The units shown for the first `k` of the four or fewer bytes of a code point.  Of the four-byte
      forms there always come two units; if less than 10000 (hex) is left, the first is no surrogate. */
  function ShownPart(cp: nat, k: nat): seq<CodeUnit>
    requires 1 <= k <= Length(cp) && cp < 0x11_0000
  {
    var left := Without(cp, Length(cp) - k);
    if cp < 0x1_0000 then [left] else [0xD7C0 + left / 0x400, 0xDC00 + left % 0x400]
  }

  /** What is shown of a string within `m` bytes of its encoding. */
  function Shown(str: seq<CodeUnit>, m: nat): seq<CodeUnit>
    decreases |str|
  {
    if str == [] || m == 0 then []
    else
      UnitsFit(str);
      var cp := CodePointAt(str);
      if m < Length(cp) then ShownPart(cp, m)
      else str[..Units(cp)] + Shown(str[Units(cp)..], m - Length(cp))
  }

  lemma CutStep(cp: nat, k: nat)
    requires cp < 0x11_0000 && 1 <= k < Length(cp)
    ensures |EncodePoint(cp)| == Length(cp)
    ensures DecodeStep(EncodePoint(cp)[..k]) == (ShownPart(cp, k), Length(cp))
  {
    hide DecodeStep;
    if cp < 0x800 {
      KeptGroups(cp);
      assert EncodePoint(cp)[..k] == [0xC0 + cp / 0x40] + [];
      ShortStep(cp / 0x40, []);
    } else if cp < 0x1_0000 {
      CutThree(cp, k);
    } else {
      CutFour(cp, k);
    }
  }

  lemma CutThree(cp: nat, k: nat)
    requires 0x800 <= cp < 0x1_0000 && 1 <= k < 3
    ensures DecodeStep(EncodePoint(cp)[..k]) == ([Without(cp, 3 - k)], 3)
  {
    hide DecodeStep, Without;
    KeptGroups(cp);
    var x := cp / 0x40 % 0x40;
    TailBits(x);
    var tail: seq<Byte> := [0x80 + x][..k - 1];
    assert EncodePoint(cp)[..k] == [0xE0 + cp / 0x1000] + tail;
    ThreeStep(cp / 0x1000, tail);
  }

  lemma CutFour(cp: nat, k: nat)
    requires 0x1_0000 <= cp < 0x11_0000 && 1 <= k < 4
    ensures var left := Without(cp, 4 - k);
            DecodeStep(EncodePoint(cp)[..k]) == ([0xD7C0 + left / 0x400, 0xDC00 + left % 0x400], 4)
  {
    hide DecodeStep, Without;
    var a, x, y := cp / 0x4_0000, cp / 0x1000 % 0x40, cp / 0x40 % 0x40;
    assert EncodePoint(cp)[..k] == [0xF0 + a] + [0x80 + x, 0x80 + y][..k - 1];
    hide EncodePoint;
    KeptGroups(cp);
    FourGroups(a, x, y, k);
  }

  lemma FourGroups(a: nat, x: nat, y: nat, k: nat)
    requires a < 8 && x < 0x40 && y < 0x40 && 1 <= k < 4
    ensures var left := a * 0x4_0000 + (if k >= 2 then x * 0x1000 else 0) + (if k >= 3 then y * 0x40 else 0);
            DecodeStep([0xF0 + a] + [0x80 + x, 0x80 + y][..k - 1]) ==
              ([0xD7C0 + left / 0x400, 0xDC00 + left % 0x400], 4)
  {
    hide DecodeStep;
    var tail: seq<Byte> := [0x80 + x, 0x80 + y][..k - 1];
    TailBits(x);
    TailBits(y);
    assert Bits(tail, 0) == (if k >= 2 then x else 0) && Bits(tail, 1) == (if k >= 3 then y else 0);
    assert Bits(tail, 2) == 0;
    hide Bits;
    FourStep(a, tail);
  }

  /** The groups that are there make up what is left. */
  lemma KeptGroups(cp: nat)
    ensures Without(cp, 0) == cp && Without(cp, 1) == cp / 0x40 * 0x40
    ensures Without(cp, 2) == cp / 0x1000 * 0x1000
    ensures Without(cp, 3) == cp / 0x4_0000 * 0x4_0000
    ensures Without(cp, 3) <= Without(cp, 2) <= Without(cp, 1) <= cp
    ensures cp / 0x1000 * 0x1000 == cp / 0x4_0000 * 0x4_0000 + cp / 0x1000 % 0x40 * 0x1000
    ensures cp / 0x40 * 0x40 == cp / 0x1000 * 0x1000 + cp / 0x40 % 0x40 * 0x40
  {
    Groups(cp);
  }

  /** The six bits of a following byte, zero if it is missing. */
  function Bits(tail: seq<Byte>, i: nat): nat {
    if i < |tail| then tail[i] % 0x40 else 0
  }

  lemma ShortStep(head: nat, tail: seq<Byte>)
    requires head < 0x20
    ensures DecodeStep([0xC0 + head] + tail) == ([head * 0x40 + Bits(tail, 0)], 2)
  {
    assert At([0xC0 + head] + tail, 1) % 0x40 == Bits(tail, 0);
    assert (0xC0 + head) % 0x20 == head;
  }

  lemma ThreeStep(head: nat, tail: seq<Byte>)
    requires head < 0x10
    ensures DecodeStep([0xE0 + head] + tail) == ([head * 0x1000 + Bits(tail, 0) * 0x40 + Bits(tail, 1)], 3)
  {
    assert forall i | i in {0, 1} :: At([0xE0 + head] + tail, i + 1) % 0x40 == Bits(tail, i);
    assert (0xE0 + head) % 0x10 == head;
  }

  /** Above F7 the head counts modulo 8, and beyond 10FFFF (hex) two units come out all the same. */
  lemma FourStep(head: nat, tail: seq<Byte>)
    requires head < 0x10
    ensures var left := head % 8 * 0x4_0000 + Bits(tail, 0) * 0x1000 + Bits(tail, 1) * 0x40 + Bits(tail, 2);
            && left < 0x20_0000
            && DecodeStep([0xF0 + head] + tail) == ([0xD7C0 + left / 0x400, 0xDC00 + left % 0x400], 4)
  {
    assert forall i | i in {0, 1, 2} :: At([0xF0 + head] + tail, i + 1) % 0x40 == Bits(tail, i);
    hide At, Bits;
    assert (0xF0 + head) % 8 == head % 8;
    Surrogates(head % 8 * 0x4_0000 + Bits(tail, 0) * 0x1000 + Bits(tail, 1) * 0x40 + Bits(tail, 2));
  }

  lemma Surrogates(left: nat)
    ensures left < 0x20_0000 ==> (0xD800 + (left - 0x1_0000) / 0x400) % 0x1_0000 == 0xD7C0 + left / 0x400 < 0x1_0000
    ensures (left - 0x1_0000) % 0x400 == left % 0x400
  {
  }

  /** A decoder that runs out of bytes reads the missing ones as zero, so the last code point loses its
      low bits and everything before it is shown as it is. */
  lemma {:induction false} CutShows(str: seq<CodeUnit>, m: nat)
    requires m <= |Encoded(str)|
    ensures Decoded(Encoded(str)[..m]) == Shown(str, m)
    decreases |str|
  {
    hide DecodeStep, EncodePoint, CodePointAt, ShownPart, Length;
    if str != [] && m > 0 {
      var cp := CodePointAt(str);
      UnitsFit(str);
      var tail := str[Units(cp)..];
      var k := |EncodePoint(cp)|;
      LengthIs(cp);
      if m < k {
        CutStep(cp, m);
        assert Encoded(str)[..m] == EncodePoint(cp)[..m];
      } else {
        var cut := Encoded(tail)[..m - k];
        assert Encoded(str)[..m] == EncodePoint(cp) + cut;
        StepBack(str, cut);
        assert Encoded(str)[..m][k..] == cut;
        CutShows(tail, m - k);
      }
    }
  }

  lemma LengthIs(cp: nat)
    requires cp < 0x11_0000
    ensures |EncodePoint(cp)| == Length(cp) >= 1
  {
  }

  /** A stray continuation byte behind a well-formed beginning is taken for the head of a pair: it gives
      one unit and swallows the byte after it. */
  lemma StrayByte(str: seq<CodeUnit>, stray: Byte, rest: seq<Byte>)
    requires 0x80 <= stray < 0xC0
    ensures rest == [] ==> Decoded(Encoded(str) + ([stray] + rest)) == str + [stray % 0x20 * 0x40]
    ensures rest != [] ==>
              Decoded(Encoded(str) + ([stray] + rest)) ==
                str + ([stray % 0x20 * 0x40 + rest[0] % 0x40] + Decoded(rest[1..]))
  {
    hide Encoded, Decoded;
    AfterEncoded(str, [stray] + rest);
    StrayFirst(stray, rest);
  }

  lemma StrayFirst(stray: Byte, rest: seq<Byte>)
    requires 0x80 <= stray < 0xC0
    ensures rest == [] ==> Decoded([stray] + rest) == [stray % 0x20 * 0x40]
    ensures rest != [] ==> Decoded([stray] + rest) == [stray % 0x20 * 0x40 + rest[0] % 0x40] + Decoded(rest[1..])
  {
    hide DecodeStep;
    StrayStep(stray, rest);
    var bytes: seq<Byte> := [stray] + rest;
    var units := DecodeStep(bytes).0;
    if rest == [] {
      assert Decoded(bytes) == units + Decoded([]) == units;
    } else {
      assert bytes[2..] == rest[1..];
    }
  }

  lemma StrayStep(stray: Byte, rest: seq<Byte>)
    requires 0x80 <= stray < 0xC0
    ensures DecodeStep([stray] + rest) == ([stray % 0x20 * 0x40 + if rest == [] then 0 else rest[0] % 0x40], 2)
  {
    assert At([stray] + rest, 1) == if rest == [] then 0 else rest[0];
  }

  /** The euro sign without its last byte and without its last two, and a stray byte before an A. */
  lemma Damaged()
    ensures Decoded([0xE2, 0x82, 0xAC]) == [0x20AC]
    ensures Decoded([0xE2, 0x82]) == [0x2080] && Decoded([0xE2]) == [0x2000]
    ensures Decoded([0x82, 0x41]) == [0x81]
  {
  }

  /** A string without NUL has no zero byte before the terminator. */
  lemma {:induction false} NoZeroByte(str: seq<CodeUnit>)
    requires 0 !in str
    ensures 0 !in Encoded(str)
    decreases |str|
  {
    if str != [] {
      UnitsFit(str);
      assert str[0] != 0;
      NoZeroByte(str[Units(CodePointAt(str))..]);
    }
  }

  // ---- Standard UTF-8 ---------------------------------------------------------------------------------

  predicate Tail(b: Byte) {
    0x80 <= b <= 0xBF
  }

  /** Section 3 of RFC 3629: `bs` is the UTF-8 form of character number `cp`.  The shortest form only,
      and no surrogates. */
  predicate IsUtf8Char(bs: seq<Byte>, cp: int) {
    && !(0xD800 <= cp <= 0xDFFF)
    && match |bs|
       case 1 => 0 <= cp <= 0x7F && bs[0] == cp
       case 2 => 0x80 <= cp <= 0x7FF && Tail(bs[1]) && cp == (bs[0] as int - 0xC0) * 0x40 + (bs[1] as int - 0x80)
       case 3 => 0x800 <= cp <= 0xFFFF && Tail(bs[1]) && Tail(bs[2])
                 && cp == (bs[0] as int - 0xE0) * 0x1000 + (bs[1] as int - 0x80) * 0x40 + (bs[2] as int - 0x80)
       case 4 => 0x1_0000 <= cp <= 0x10_FFFF && Tail(bs[1]) && Tail(bs[2]) && Tail(bs[3])
                 && cp == (bs[0] as int - 0xF0) * 0x4_0000 + (bs[1] as int - 0x80) * 0x1000 +
                   (bs[2] as int - 0x80) * 0x40 + (bs[3] as int - 0x80)
       case _ => false
  }

  /** `bs` is the concatenation of the UTF-8 forms of `cps`. */
  predicate IsUtf8(bs: seq<Byte>, cps: seq<nat>)
    decreases |cps|
  {
    if cps == [] then bs == []
    else exists n :: 0 <= n <= |bs| && IsUtf8Char(bs[..n], cps[0]) && IsUtf8(bs[n..], cps[1..])
  }

  /** The character numbers of a string. */
  function CodePoints(str: seq<CodeUnit>): seq<nat> {
    if str == [] then []
    else
      UnitsFit(str);
      [CodePointAt(str)] + CodePoints(str[Units(CodePointAt(str))..])
  }

  predicate NoSurrogate(cps: seq<nat>) {
    forall cp <- cps :: !(0xD800 <= cp <= 0xDFFF)
  }

  lemma PointIsUtf8(cp: nat)
    requires cp < 0x11_0000
    ensures IsUtf8Char(EncodePoint(cp), cp) <==> !(0xD800 <= cp <= 0xDFFF)
  {
    Groups(cp);
  }

  predicate High(u: CodeUnit) {
    0xD800 <= u <= 0xDBFF
  }

  predicate Low(u: CodeUnit) {
    0xDC00 <= u <= 0xDFFF
  }

  /** Unit `i` is no surrogate without its other half. */
  predicate Matched(str: seq<CodeUnit>, i: nat)
    requires i < |str|
  {
    && (High(str[i]) ==> i + 1 < |str| && Low(str[i + 1]))
    && (Low(str[i]) ==> i > 0 && High(str[i - 1]))
  }

  predicate AllMatched(str: seq<CodeUnit>) {
    forall i :: 0 <= i < |str| ==> Matched(str, i)
  }

  /** Nothing in front reaches over the border of a code point. */
  lemma MatchedBehind(str: seq<CodeUnit>, n: nat)
    requires 0 < n <= |str| && !High(str[n - 1])
    ensures AllMatched(str) <==> (forall i :: 0 <= i < n ==> Matched(str, i)) && AllMatched(str[n..])
  {
    forall i: nat | i < |str[n..]| ensures Matched(str[n..], i) <==> Matched(str, n + i) {
    }
    if AllMatched(str[n..]) {
      forall i: nat | n <= i < |str| ensures Matched(str, i) {
        assert Matched(str[n..], i - n);
      }
    }
  }

  lemma {:induction false} CharactersMatched(str: seq<CodeUnit>)
    ensures NoSurrogate(CodePoints(str)) <==> AllMatched(str)
    decreases |str|
  {
    if str != [] {
      UnitsFit(str);
      var n := Units(CodePointAt(str));
      CharactersMatched(str[n..]);
      SurrogateFirst(CodePoints(str));
      assert CodePoints(str)[1..] == CodePoints(str[n..]);
      if Pair(str) || !(High(str[0]) || Low(str[0])) {
        MatchedBehind(str, n);
        assert forall i :: 0 <= i < n ==> Matched(str, i);
      } else {
        assert !Matched(str, 0);
      }
    }
  }

  /** The bytes of a string are the standard UTF-8 form of its characters exactly when every surrogate in
      it has its other half. */
  lemma EncodedIsUtf8(str: seq<CodeUnit>)
    ensures IsUtf8(Encoded(str), CodePoints(str)) <==> AllMatched(str)
  {
    CharactersMatched(str);
    EncodedCharacters(str);
  }

  lemma {:induction false} EncodedCharacters(str: seq<CodeUnit>)
    ensures IsUtf8(Encoded(str), CodePoints(str)) <==> NoSurrogate(CodePoints(str))
    decreases |str|
  {
    hide EncodePoint, CodePointAt, IsUtf8Char;
    if str != [] {
      var cp := CodePointAt(str);
      UnitsFit(str);
      var rest := str[Units(cp)..];
      EncodedCharacters(rest);
      PointIsUtf8(cp);
      var bs, cps := Encoded(str), CodePoints(str);
      assert cps[1..] == CodePoints(rest) && cps[0] == cp;
      var k := |EncodePoint(cp)|;
      assert bs[..k] == EncodePoint(cp) && bs[k..] == Encoded(rest);
      if IsUtf8(bs, cps) {
        var n :| 0 <= n <= |bs| && IsUtf8Char(bs[..n], cps[0]) && IsUtf8(bs[n..], cps[1..]);
        CharNoSurrogate(bs[..n], cp);
        OneLength(EncodePoint(cp), bs[..n], cp);
      }
      SurrogateFirst(cps);
    }
  }

  lemma SurrogateFirst(cps: seq<nat>)
    requires cps != []
    ensures NoSurrogate(cps) <==> !(0xD800 <= cps[0] <= 0xDFFF) && NoSurrogate(cps[1..])
  {
    if NoSurrogate(cps) {
      assert cps[0] in cps && forall cp <- cps[1..] :: cp in cps;
    }
    if !(0xD800 <= cps[0] <= 0xDFFF) && NoSurrogate(cps[1..]) {
      forall cp | cp in cps ensures !(0xD800 <= cp <= 0xDFFF) {
        assert cp == cps[0] || cp in cps[1..];
      }
    }
  }

  lemma CharNoSurrogate(bs: seq<Byte>, cp: int)
    requires IsUtf8Char(bs, cp)
    ensures !(0xD800 <= cp <= 0xDFFF)
  {
  }

  lemma OneLength(xs: seq<Byte>, ys: seq<Byte>, cp: int)
    requires IsUtf8Char(ys, cp) && (IsUtf8Char(xs, cp) || 0xD800 <= cp <= 0xDFFF)
    ensures |xs| == |ys|
  {
  }
}
