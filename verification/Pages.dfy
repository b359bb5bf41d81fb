/** Rounding a watched range out to pages with masks, in wrapping 64-bit arithmetic. */
module Pages {
  import opened Words

  // ---- Bitwise operators ---------------------------------------------------------------------------

  function And(a: nat, b: nat): nat
    decreases a
  {
    if a == 0 then 0 else (if b % 2 == 1 then a % 2 else 0) + 2 * And(a / 2, b / 2)
  }

  /** Bitwise complement in `bits` bits. */
  function Not(x: nat, bits: nat): int {
    Pow2(bits) - 1 - x
  }

  function Pow2(n: nat): (p: nat)
    ensures p >= 1
  {
    if n == 0 then 1 else 2 * Pow2(n - 1)
  }

  /** Half of a remainder by twice `p`. */
  lemma HalfRemainder(a: nat, p: nat)
    requires p >= 1
    ensures a % (2 * p) == a % 2 + 2 * (a / 2 % p)
  {
    var q, r := a / 2 / p, a / 2 % p;
    assert a == 2 * (p * q + r) + a % 2;
    assert 2 * (p * q) == 2 * p * q;
    QuotientUnique(a, 2 * p, q, a % 2 + 2 * r);
  }

  lemma {:induction false} Pow2Even(bits: nat, k: nat)
    requires k <= bits
    ensures Pow2(k) <= Pow2(bits)
    ensures bits > 0 && k > 0 ==>
              (Pow2(bits) - Pow2(k)) / 2 == Pow2(bits - 1) - Pow2(k - 1) && (Pow2(bits) - Pow2(k)) % 2 == 0
  {
    if k < bits {
      Pow2Even(bits - 1, k);
    }
    if k > 0 {
      Pow2Less(k - 1, bits - 1);
    }
  }

  lemma {:induction false} Pow2Less(k: nat, bits: nat)
    requires k <= bits
    ensures Pow2(k) <= Pow2(bits)
  {
    if k < bits {
      Pow2Less(k, bits - 1);
    }
  }

  /** One bit of a mask, or of all ones. */
  lemma AndStep(a: nat, b: nat)
    requires a > 0
    ensures And(a, b) == (if b % 2 == 1 then a % 2 else 0) + 2 * And(a / 2, b / 2)
  {
  }

  lemma HalfBelow(a: nat, bits: nat)
    requires 0 < a < Pow2(bits)
    ensures bits > 0 && a / 2 < Pow2(bits - 1)
  {
  }

  /** All ones, one bit less. */
  lemma OnesHalf(bits: nat)
    requires bits > 0
    ensures Not(0, bits) >= 0 && Not(0, bits) % 2 == 1 && Not(0, bits) / 2 == Not(0, bits - 1)
  {
  }

  /** A mask, one bit less. */
  lemma MaskHalf(bits: nat, k: nat)
    requires 0 < k <= bits
    ensures Not(Pow2(k) - 1, bits) >= 0 && Not(Pow2(k) - 1, bits) % 2 == 0
    ensures Not(Pow2(k) - 1, bits) / 2 == Not(Pow2(k - 1) - 1, bits - 1)
  {
    Pow2Even(bits, k);
  }

  /** Masking with all ones changes nothing. */
  lemma {:induction false} MaskOnes(a: nat, bits: nat)
    requires a < Pow2(bits)
    ensures Not(0, bits) >= 0 && And(a, Not(0, bits)) == a
    decreases bits
  {
    if a > 0 {
      HalfBelow(a, bits);
      OnesHalf(bits);
      MaskOnes(a / 2, bits - 1);
      hide And, Pow2, Not;
      AndStep(a, Not(0, bits));
    }
  }

  /** Rounding down to a multiple of `2 * p` is rounding the half down to a multiple of `p`. */
  lemma RoundHalf(a: nat, p: nat)
    requires p >= 1
    ensures RoundDown(a, 2 * p) == 2 * RoundDown(a / 2, p)
  {
    HalfRemainder(a, p);
  }

  function RoundDown(a: nat, p: nat): int
    requires p >= 1
  {
    a - a % p
  }

  lemma RoundToOne(a: nat)
    ensures RoundDown(a, 1) == a
  {
  }

  lemma RoundZero(p: nat)
    requires p >= 1
    ensures RoundDown(0, p) == 0
  {
  }

  /** Masking with ~(2^k - 1) rounds down to a multiple of 2^k. */
  lemma {:induction false} MaskIsRoundDown(a: nat, k: nat, bits: nat)
    requires k <= bits && a < Pow2(bits)
    ensures Not(Pow2(k) - 1, bits) >= 0
    ensures And(a, Not(Pow2(k) - 1, bits)) == RoundDown(a, Pow2(k))
    decreases k
  {
    hide RoundDown;
    Pow2Less(k, bits);
    if a == 0 {
      RoundZero(Pow2(k));
    } else if k == 0 {
      MaskOnes(a, bits);
      RoundToOne(a);
    } else {
      HalfBelow(a, bits);
      MaskHalf(bits, k);
      MaskIsRoundDown(a / 2, k - 1, bits - 1);
      RoundHalf(a, Pow2(k - 1));
      assert Pow2(k) == 2 * Pow2(k - 1);
      hide And, Pow2, Not;
      AndStep(a, Not(Pow2(k) - 1, bits));
    }
  }

  lemma MaskRoundsDown(a: nat, k: nat, bits: nat)
    requires k <= bits && a < Pow2(bits)
    ensures Not(Pow2(k) - 1, bits) >= 0
    ensures And(a, Not(Pow2(k) - 1, bits)) == a - a % Pow2(k)
  {
    MaskIsRoundDown(a, k, bits);
  }

  lemma {:induction false} Pow2OfBytes(n: nat)
    ensures Pow2(8 * n) == Pow256(n)
  {
    if n > 0 {
      var k := 8 * (n - 1);
      Pow2OfBytes(n - 1);
      assert Pow2(k + 1) == 2 * Pow2(k) && Pow2(k + 2) == 2 * Pow2(k + 1);
      assert Pow2(k + 3) == 2 * Pow2(k + 2) && Pow2(k + 4) == 2 * Pow2(k + 3);
      assert Pow2(k + 5) == 2 * Pow2(k + 4) && Pow2(k + 6) == 2 * Pow2(k + 5);
      assert Pow2(k + 7) == 2 * Pow2(k + 6) && Pow2(k + 8) == 2 * Pow2(k + 7);
    }
  }

  // ---- Watched ranges --------------------------------------------------------------------------------

  /** A power of two, at most a quarter of the address space. */
  predicate PageSize(p: nat) {
    exists k: nat :: k <= 62 && p == Pow2(k)
  }

  /** pageBase = addr & ~(pageSize - 1) */
  function PageBase(addr: Word, pageSize: Word): nat
    requires pageSize > 0
  {
    And(addr, WORD_SPAN - pageSize)
  }

  /** totalSize = ((addr + sz) - pageBase + pageSize - 1) & ~(pageSize - 1) */
  function TotalSize(addr: Word, size: Word, pageSize: Word): nat
    requires pageSize > 0
  {
    And(Wrap(addr + size - PageBase(addr, pageSize) + pageSize - 1), WORD_SPAN - pageSize)
  }

  lemma Masked(a: Word, p: Word)
    requires PageSize(p)
    ensures And(a, WORD_SPAN - p) == a - a % p
  {
    hide And;
    var k: nat :| k <= 62 && p == Pow2(k);
    Pow2OfBytes(8);
    Pow256Of8();
    hide Pow2, Pow256;
    MaskRoundsDown(a, k, 64);
  }

  /** A page size divides the address space. */
  lemma PageDivides(p: Word)
    requires PageSize(p)
    ensures p >= 1 && WORD_SPAN % p == 0
  {
    var k: nat :| k <= 62 && p == Pow2(k);
    Pow2OfBytes(8);
    Pow256Of8();
    Pow2Divides(k, 64);
  }

  lemma {:induction false} Pow2Divides(k: nat, bits: nat)
    requires k <= bits
    ensures Pow2(bits) % Pow2(k) == 0
    decreases bits
  {
    if k > 0 {
      Pow2Divides(k - 1, bits - 1);
      HalfRemainder(Pow2(bits), Pow2(k - 1));
    }
  }

  // ---- What the rounding covers ----------------------------------------------------------------------

  /** A page-aligned interval around the bytes [addr, addr + size). */
  predicate Covers(base: int, end: int, addr: int, size: int, p: int)
    requires p > 0
  {
    base % p == 0 && end % p == 0 && base <= addr && addr + size <= end
  }

  lemma Multiples(m: int, n: int, p: int)
    requires p > 0 && m % p == 0 && n % p == 0
    ensures m > n - p ==> m >= n
    ensures (m + n) % p == 0
  {
    var i, j := m / p, n / p;
    assert m == p * i && n == p * j;
    if m > n - p && i < j {
      MulMono(p, i + 1, j);
    }
    DistributeMul(p, i, j);
    MultipleOf(p, i + j);
  }

  lemma DistributeMul(p: int, i: int, j: int)
    ensures p * (i + j) == p * i + p * j
  {
  }

  lemma MultipleOf(p: int, i: int)
    requires p > 0
    ensures (p * i) % p == 0
  {
    QuotientUnique(p * i, p, i, 0);
  }

  lemma RoundedDown(a: int, p: int)
    requires p > 0
    ensures (a - a % p) % p == 0 && 0 <= a % p < p
  {
    MultipleOf(p, a / p);
  }

  /** sizes come in as int: the rounding does not wrap. */
  lemma Rounded(addr: Word, size: int, p: Word)
    requires PageSize(p) && 0 <= size < 0x8000_0000 && addr + size <= WORD_SPAN
    ensures p >= 1
    ensures PageBase(addr, p) == addr - addr % p
    ensures var length := addr % p + size + p - 1; TotalSize(addr, size, p) == length - length % p
  {
    hide PageSize, And, Wrap;
    PageDivides(p);
    Masked(addr, p);
    QuarterSpan(p);
    RoundedDown(addr, p);
    var length := addr % p + size + p - 1;
    Unwrapped(length);
    Masked(length, p);
    assert addr + size - PageBase(addr, p) + p - 1 == length;
  }

  lemma Unwrapped(x: int)
    requires 0 <= x < WORD_SPAN
    ensures Wrap(x) == x
  {
  }

  lemma QuarterSpan(p: Word)
    requires PageSize(p)
    ensures p <= 0x4000_0000_0000_0000
  {
    var k: nat :| k <= 62 && p == Pow2(k);
    Pow2OfBytes(8);
    Pow256Of8();
    Pow2Less(k, 62);
    assert Pow2(64) == 2 * (2 * Pow2(62));
  }

  /** An aligned interval that overshoots by less than a page on each side is the smallest. */
  lemma SmallestCover(base: int, end: int, addr: int, size: int, p: int)
    requires p > 0 && base % p == 0 && end % p == 0
    requires base <= addr < base + p && addr + size <= end < addr + size + p
    ensures Covers(base, end, addr, size, p)
    ensures forall base', end' :: Covers(base', end', addr, size, p) ==> base' <= base && end <= end'
  {
    forall base', end' | Covers(base', end', addr, size, p) ensures base' <= base && end <= end' {
      Multiples(base, base', p);
      Multiples(end', end, p);
    }
  }

  /** Both ends overshoot by less than a page. */
  lemma RoundedEnds(addr: Word, size: int, p: Word)
    requires PageSize(p) && 0 <= size < 0x8000_0000 && addr + size <= WORD_SPAN
    ensures p >= 1
    ensures var base, end := PageBase(addr, p), PageBase(addr, p) + TotalSize(addr, size, p);
            && base % p == 0 && end % p == 0
            && base <= addr < base + p && addr + size <= end < addr + size + p
            && end <= WORD_SPAN
  {
    hide PageBase, TotalSize, PageSize;
    PageDivides(p);
    Rounded(addr, size, p);
    var base, total := PageBase(addr, p), TotalSize(addr, size, p);
    RoundedDown(addr, p);
    RoundedDown(addr % p + size + p - 1, p);
    Multiples(base, total, p);
    Multiples(WORD_SPAN, base + total, p);
  }

  /** The rounded interval is the smallest page-aligned interval around the requested bytes. */
  lemma RoundsOut(addr: Word, size: int, p: Word)
    requires PageSize(p) && 0 < size < 0x8000_0000 && addr + size <= WORD_SPAN
    ensures p >= 1
    ensures var base, end := PageBase(addr, p), PageBase(addr, p) + TotalSize(addr, size, p);
            && Covers(base, end, addr, size, p)
            && (forall base', end' :: Covers(base', end', addr, size, p) ==> base' <= base && end <= end')
            && end <= WORD_SPAN
  {
    hide PageBase, TotalSize, PageSize, Covers;
    RoundedEnds(addr, size, p);
    SmallestCover(PageBase(addr, p), PageBase(addr, p) + TotalSize(addr, size, p), addr, size, p);
  }

  /** The page that `x` is on has at least one of the bytes [addr, addr + size). */
  predicate OnPages(addr: int, size: int, p: int, x: int)
    requires p > 0
  {
    var page := x - x % p;
    page < addr + size && addr < page + p
  }

  /** What is watched is whole pages: exactly those with a requested byte. */
  lemma RoundedToPages(addr: Word, size: int, p: Word, x: int)
    requires PageSize(p) && 0 < size < 0x8000_0000 && addr + size <= WORD_SPAN
    ensures p >= 1
    ensures OnPages(addr, size, p, x) <==> PageBase(addr, p) <= x < PageBase(addr, p) + TotalSize(addr, size, p)
  {
    hide PageBase, TotalSize, PageSize;
    PageDivides(p);
    RoundedEnds(addr, size, p);
    RoundedDown(x, p);
    var base, end, page := PageBase(addr, p), PageBase(addr, p) + TotalSize(addr, size, p), x - x % p;
    MultipleOf(p, 1);
    Multiples(page, p, p);
    Multiples(page, base, p);
    Multiples(end, page + p, p);
  }

  // ---- Which faults a range claims ---------------------------------------------------------------------

  /** faultAddr >= pageBase && faultAddr < pageBase + pageSize, in 64-bit arithmetic. */
  predicate Claims(base: Word, total: Word, faultAddr: Word) {
    base <= faultAddr < Wrap(base + total)
  }

  /** A fault on a requested byte is claimed, unless the range reaches the last page of the address
      space, where the end wraps to zero and nothing is claimed. */
  lemma RequestedByteClaimed(addr: Word, size: int, p: Word, faultAddr: Word)
    requires PageSize(p) && 0 < size < 0x8000_0000 && addr + size <= WORD_SPAN
    requires addr <= faultAddr < addr + size
    ensures p >= 1 && TotalSize(addr, size, p) < WORD_SPAN && PageBase(addr, p) < WORD_SPAN
    ensures Claims(PageBase(addr, p), TotalSize(addr, size, p), faultAddr) <==> addr + size <= WORD_SPAN - p
  {
    hide PageBase, TotalSize, PageSize;
    RoundedEnds(addr, size, p);
    PageDivides(p);
    QuarterSpan(p);
    LastPage(PageBase(addr, p) + TotalSize(addr, size, p), addr + size, p);
  }

  /** With a page left behind the range, the faults claimed are exactly those on pages with a requested byte. */
  lemma PagesClaimed(addr: Word, size: int, p: Word, faultAddr: Word)
    requires PageSize(p) && 0 < size < 0x8000_0000 && addr + size <= WORD_SPAN - p
    ensures p >= 1 && TotalSize(addr, size, p) < WORD_SPAN && PageBase(addr, p) < WORD_SPAN
    ensures Claims(PageBase(addr, p), TotalSize(addr, size, p), faultAddr) <==> OnPages(addr, size, p, faultAddr)
  {
    hide PageBase, TotalSize, PageSize, OnPages;
    PageDivides(p);
    RoundedEnds(addr, size, p);
    RoundedToPages(addr, size, p, faultAddr);
    QuarterSpan(p);
    LastPage(PageBase(addr, p) + TotalSize(addr, size, p), addr + size, p);
  }

  /** The first page boundary at or past `last` is below the end of the address space exactly when a
      whole page is left. */
  lemma LastPage(end: int, last: int, p: Word)
    requires p >= 1 && WORD_SPAN % p == 0 && end % p == 0 && last <= end < last + p && end <= WORD_SPAN
    ensures end < WORD_SPAN <==> last <= WORD_SPAN - p
  {
    var page: int := p;
    MultipleOf(p, -1);
    Multiples(WORD_SPAN, -page, p);
    Multiples(WORD_SPAN - p, end, p);
    Multiples(end, WORD_SPAN, p);
  }

  /** An empty range watches a whole page unless its address is aligned. */
  lemma EmptyRange(addr: Word, p: Word)
    requires PageSize(p)
    ensures p >= 1 && TotalSize(addr, 0, p) == if addr % p == 0 then 0 else p
  {
    PageDivides(p);
    Rounded(addr, 0, p);
    RoundedDown(addr, p);
    var off := addr % p;
    if off == 0 {
      QuotientUnique(p - 1, p, 0, p - 1);
    } else {
      QuotientUnique(off + p - 1, p, 1, off - 1);
    }
  }
}
