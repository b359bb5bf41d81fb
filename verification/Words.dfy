/** Bytes, 64-bit words and their little-endian layout. */
module Words {
  const WORD_SPAN: int := 0x1_0000_0000_0000_0000

  type Byte = b: int | 0 <= b < 256
  type Word = w: int | 0 <= w < 0x1_0000_0000_0000_0000

  datatype Option<+T> = None | Some(value: T)

  /** Unsigned 64-bit arithmetic wraps around. */
  function Wrap(x: int): Word {
    x % WORD_SPAN
  }

  /** uint8_t subtraction. */
  function Minus8(b: Byte, n: int): Byte {
    (b - n) % 256
  }

  function Plus(w: Word, n: int): Word {
    Wrap(w + n)
  }

  function Pow256(n: nat): (p: nat)
    ensures p >= 1
  {
    if n == 0 then 1 else 256 * Pow256(n - 1)
  }

  /** The low `n` bytes of `v`, least significant first. */
  function LeBytes(v: nat, n: nat): (bs: seq<Byte>)
    ensures |bs| == n
  {
    if n == 0 then [] else [v % 256] + LeBytes(v / 256, n - 1)
  }

  function LeValue(bs: seq<Byte>): nat {
    if bs == [] then 0 else bs[0] + 256 * LeValue(bs[1..])
  }

  /** Writing a value and reading it back keeps exactly its low `n` bytes. */
  lemma {:induction false} LeRoundTrip(v: nat, n: nat)
    ensures LeValue(LeBytes(v, n)) == v % Pow256(n)
  {
    if n > 0 {
      LeRoundTrip(v / 256, n - 1);
      assert LeBytes(v, n)[1..] == LeBytes(v / 256, n - 1);
      ModSplit(v, Pow256(n - 1));
    }
  }

  lemma ModSplit(v: nat, p: nat)
    requires p >= 1
    ensures v % (256 * p) == v % 256 + 256 * (v / 256 % p)
  {
    var k, r := v / 256 / p, v / 256 % p;
    var low := v % 256 + 256 * r;
    assert v / 256 == p * k + r;
    calc {
      v;
      256 * (v / 256) + v % 256;
      256 * (p * k + r) + v % 256;
      { MulAssoc(256, p, k); }
      256 * p * k + low;
    }
    QuotientUnique(v, 256 * p, k, low);
  }

  lemma MulAssoc(a: int, b: int, c: int)
    ensures a * (b * c) == a * b * c
  {
  }

  /** Division with remainder has one answer. */
  lemma QuotientUnique(v: int, d: int, k: int, r: int)
    requires 0 <= r < d
    requires v == d * k + r
    ensures v / d == k && v % d == r
  {
    var k' := v / d;
    assert v == d * k' + v % d;
    if k' < k {
      MulMono(d, k' + 1, k);
    } else if k < k' {
      MulMono(d, k + 1, k');
    }
  }

  lemma MulMono(d: int, x: int, y: int)
    requires 0 < d && x <= y
    ensures d * x <= d * y
  {
  }

  /** A quad stored by the code is read back unchanged. */
  lemma LeWord(w: Word)
    ensures LeValue(LeBytes(w, 8)) == w
  {
    LeRoundTrip(w, 8);
    Pow256Of8();
  }

  lemma Pow256Of8()
    ensures Pow256(4) == 0x1_0000_0000
    ensures Pow256(8) == WORD_SPAN
  {
    assert Pow256(4) == 256 * (256 * (256 * (256 * Pow256(0))));
    assert Pow256(8) == 256 * (256 * (256 * (256 * Pow256(4))));
  }

  lemma LeWordBound(bs: seq<Byte>)
    requires |bs| == 8
    ensures LeValue(bs) < WORD_SPAN
  {
    LeValueBound(bs);
    Pow256Of8();
  }

  lemma {:induction false} LeValueBound(bs: seq<Byte>)
    ensures LeValue(bs) < Pow256(|bs|)
  {
    if bs != [] {
      LeValueBound(bs[1..]);
    }
  }
}
