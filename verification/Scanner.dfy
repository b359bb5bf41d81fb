/** The wildcard Boyer-Moore-Horspool scanner finds exactly what a naive scan finds. */
module Scanner {
  import opened Words

  /** `mask[j]` says whether byte `j` must match; the others are wildcards. */
  datatype Pattern = Pattern(bytes: seq<Byte>, mask: seq<bool>)

  datatype ScanMatch = ScanMatch(offset: nat, size: nat)

  predicate Accepts(pat: Pattern, j: nat, b: Byte)
    requires j < |pat.bytes| == |pat.mask|
  {
    pat.mask[j] ==> pat.bytes[j] == b
  }

  predicate AcceptsAt(haystack: seq<Byte>, pat: Pattern, i: nat, j: nat)
    requires j < |pat.bytes| == |pat.mask| && i + j < |haystack|
  {
    Accepts(pat, j, haystack[i + j])
  }

  predicate MatchesAt(haystack: seq<Byte>, pat: Pattern, i: nat)
    requires |pat.bytes| == |pat.mask|
  {
    i + |pat.bytes| <= |haystack| &&
    forall j :: 0 <= j < |pat.bytes| ==> AcceptsAt(haystack, pat, i, j)
  }

  /** The naive scan: every offset from `i` up at which the pattern matches, in ascending order. */
  function NaiveFrom(haystack: seq<Byte>, pat: Pattern, i: nat): seq<ScanMatch>
    requires |pat.bytes| == |pat.mask|
    decreases |haystack| - i
  {
    if i + |pat.bytes| > |haystack| || i >= |haystack| then []
    else (if MatchesAt(haystack, pat, i) then [ScanMatch(i, |pat.bytes|)] else []) + NaiveFrom(haystack, pat, i + 1)
  }

  /** The naive scan lists exactly the matching offsets, each once, in ascending order. */
  lemma {:induction false} NaiveIsExact(haystack: seq<Byte>, pat: Pattern, i: nat)
    requires |pat.bytes| == |pat.mask| > 0
    ensures var r := NaiveFrom(haystack, pat, i);
            && (forall k :: ScanMatch(k, |pat.bytes|) in r <==> i <= k && MatchesAt(haystack, pat, k))
            && (forall x <- r :: x.size == |pat.bytes|)
            && (forall a, b :: 0 <= a < b < |r| ==> r[a].offset < r[b].offset)
    decreases |haystack| - i
  {
    if i + |pat.bytes| <= |haystack| {
      NaiveIsExact(haystack, pat, i + 1);
      var rest := NaiveFrom(haystack, pat, i + 1);
      forall x | x in rest ensures x.offset > i {
        assert x == ScanMatch(x.offset, |pat.bytes|);
      }
    }
  }

  // ---- The shift table ---------------------------------------------------------------------------

  /** Moving the window by `s` can bring position `j` of the pattern under a byte `c` that was under
      its last position. */
  predicate Aligns(pat: Pattern, j: nat, c: Byte, s: int)
    requires |pat.bytes| == |pat.mask|
  {
    j < |pat.bytes| - 1 && Accepts(pat, j, c) && s == |pat.bytes| - 1 - j
  }

  /** A shift is the least move that can align the byte again, or the whole pattern if there is none
      among the first `n` positions. */
  ghost predicate LeastShift(pat: Pattern, n: nat, c: Byte, s: int)
    requires |pat.bytes| == |pat.mask|
  {
    && (s == |pat.bytes| || exists j: nat :: j < n && Aligns(pat, j, c, s))
    && (forall j: nat, s' :: j < n && Aligns(pat, j, c, s') ==> s <= s')
    && s <= |pat.bytes|
  }

  /** The finished table: a trailing wildcard brings every shift down to one. */
  ghost predicate TableEntry(pat: Pattern, c: Byte, s: int)
    requires |pat.bytes| == |pat.mask| > 0
  {
    if pat.mask[|pat.bytes| - 1] then LeastShift(pat, |pat.bytes| - 1, c, s) else s == 1
  }

  method BuildShiftTable(pat: Pattern) returns (shift: array<int>)
    requires |pat.bytes| == |pat.mask| > 0
    ensures fresh(shift) && shift.Length == 256
    ensures forall c: Byte :: TableEntry(pat, c, shift[c])
  {
    var m := |pat.bytes|;
    shift := new int[256](_ => m);
    var j := 0;
    while j < m - 1
      invariant 0 <= j <= m - 1
      invariant forall c: Byte :: LeastShift(pat, j, c, shift[c])
    {
      ghost var before := shift[..];
      var s := m - 1 - j;
      if !pat.mask[j] {
        var c := 0;
        while c < 256
          invariant 0 <= c <= 256
          invariant forall d: Byte :: shift[d] == if d < c && before[d] > s then s else before[d]
        {
          if shift[c] > s {
            shift[c] := s;
          }
          c := c + 1;
        }
      } else {
        var b := pat.bytes[j];
        if shift[b] > s {
          shift[b] := s;
        }
      }
      forall c: Byte ensures LeastShift(pat, j + 1, c, shift[c]) {
        ShiftStep(pat, j, c, before[c], shift[c]);
      }
      j := j + 1;
    }
    if !pat.mask[m - 1] {
      var c := 0;
      while c < 256
        invariant 0 <= c <= 256
        invariant forall d: Byte :: shift[d] >= 1 && (d < c ==> shift[d] == 1)
      {
        if shift[c] > 1 {
          shift[c] := 1;
        }
        c := c + 1;
      }
    }
  }

  lemma ShiftStep(pat: Pattern, j: nat, c: Byte, was: int, now: int)
    requires |pat.bytes| == |pat.mask| && j < |pat.bytes| - 1
    requires LeastShift(pat, j, c, was)
    requires now == if Accepts(pat, j, c) && was > |pat.bytes| - 1 - j then |pat.bytes| - 1 - j else was
    ensures LeastShift(pat, j + 1, c, now)
  {
    if now != was {
      assert Aligns(pat, j, c, now);
    }
  }

  /** No match begins inside the stretch a shift jumps over. */
  lemma ShiftSkipsNothing(haystack: seq<Byte>, pat: Pattern, i: nat, s: int, k: nat)
    requires |pat.bytes| == |pat.mask| > 0
    requires i + |pat.bytes| <= |haystack|
    requires LeastShift(pat, |pat.bytes| - 1, haystack[i + |pat.bytes| - 1], s)
    requires i < k < i + s
    ensures !MatchesAt(haystack, pat, k)
  {
    var m := |pat.bytes|;
    var j := m - 1 - (k - i);
    if MatchesAt(haystack, pat, k) {
      assert AcceptsAt(haystack, pat, k, j);
      assert Aligns(pat, j, haystack[i + m - 1], k - i);
    }
  }

  lemma {:induction false} NaiveSkips(haystack: seq<Byte>, pat: Pattern, i: nat, i': nat)
    requires |pat.bytes| == |pat.mask| > 0
    requires i <= i'
    requires forall k :: i <= k < i' ==> !MatchesAt(haystack, pat, k)
    ensures NaiveFrom(haystack, pat, i) == NaiveFrom(haystack, pat, i')
    decreases i' - i
  {
    if i < i' {
      NaiveSkips(haystack, pat, i + 1, i');
    }
  }

  /** A shift after a mismatch moves on and loses no match. */
  lemma ShiftIsSafe(haystack: seq<Byte>, pat: Pattern, i: nat, s: int)
    requires |pat.bytes| == |pat.mask| > 0
    requires i + |pat.bytes| <= |haystack| && !MatchesAt(haystack, pat, i)
    requires TableEntry(pat, haystack[i + |pat.bytes| - 1], s)
    ensures s >= 1
    ensures NaiveFrom(haystack, pat, i) == NaiveFrom(haystack, pat, i + s)
  {
    forall k | i <= k < i + s ensures !MatchesAt(haystack, pat, k) {
      if k > i {
        ShiftSkipsNothing(haystack, pat, i, s, k);
      }
    }
    NaiveSkips(haystack, pat, i, i + s);
  }

  /** The scan itself. */
  method BmhScan(haystack: seq<Byte>, pat: Pattern) returns (results: seq<ScanMatch>)
    requires |pat.bytes| == |pat.mask|
    ensures |pat.bytes| == 0 ==> results == []
    ensures |pat.bytes| > 0 ==> results == NaiveFrom(haystack, pat, 0)
  {
    results := [];
    var m := |pat.bytes|;
    if m == 0 || m > |haystack| {
      return;
    }
    var shift := BuildShiftTable(pat);
    var i := 0;
    while i + m <= |haystack|
      invariant 0 <= i
      invariant NaiveFrom(haystack, pat, 0) == results + NaiveFrom(haystack, pat, i)
      invariant forall c: Byte :: TableEntry(pat, c, shift[c])
      decreases |haystack| - i
    {
      var matched := true;
      var j := m;
      while j > 0
        invariant 0 <= j <= m
        invariant matched && forall k :: j <= k < m ==> AcceptsAt(haystack, pat, i, k)
      {
        j := j - 1;
        if pat.mask[j] && haystack[i + j] != pat.bytes[j] {
          matched := false;
          assert !AcceptsAt(haystack, pat, i, j);
          break;
        }
      }
      if matched {
        assert results + ([ScanMatch(i, m)] + NaiveFrom(haystack, pat, i + 1)) ==
               results + [ScanMatch(i, m)] + NaiveFrom(haystack, pat, i + 1);
        results := results + [ScanMatch(i, m)];
        i := i + 1;
      } else {
        ShiftIsSafe(haystack, pat, i, shift[haystack[i + m - 1]]);
        i := i + shift[haystack[i + m - 1]];
      }
    }
  }
}
