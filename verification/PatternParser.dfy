/** Scan patterns as text: hexadecimal bytes and wildcards between white space. */
module PatternParser {
  import opened Words
  import opened HexCodec
  import opened Scanner

  const EMPTY := Pattern([], [])

  // ---- Words of a text --------------------------------------------------------------------------------

  predicate AllSpace(s: string) {
    forall c <- s :: IsSpace(c)
  }

  predicate IsWord(s: string) {
    s != "" && forall c <- s :: !IsSpace(c)
  }

  /** How many characters come before the first white space. */
  function WordLength(s: string): (n: nat)
    ensures n <= |s|
    ensures forall k :: 0 <= k < n ==> !IsSpace(s[k])
    ensures n < |s| ==> IsSpace(s[n])
  {
    if s == "" || IsSpace(s[0]) then 0 else 1 + WordLength(s[1..])
  }

  /** The words that `>>` extracts one after the other. */
  function Tokens(s: string): seq<string>
    decreases |s|
  {
    if s == "" then []
    else if IsSpace(s[0]) then Tokens(s[1..])
    else var n := WordLength(s); [s[..n]] + Tokens(s[n..])
  }

  /** Words laid out with a gap before each of them and one at the end. */
  function Spelled(gaps: seq<string>, words: seq<string>): string
    requires |gaps| == |words| + 1
  {
    if words == [] then gaps[0] else gaps[0] + words[0] + Spelled(gaps[1..], words[1..])
  }

  /** Gaps are white space, and between two words there is some. */
  predicate Apart(gaps: seq<string>, words: seq<string>) {
    && |gaps| == |words| + 1
    && (forall g <- gaps :: AllSpace(g))
    && (forall k :: 0 < k < |words| ==> gaps[k] != "")
  }

  lemma {:induction false} SkipGap(gap: string, s: string)
    requires AllSpace(gap)
    ensures Tokens(gap + s) == Tokens(s)
  {
    if gap == "" {
      assert gap + s == s;
    } else {
      assert (gap + s)[1..] == gap[1..] + s;
      SkipGap(gap[1..], s);
    }
  }

  lemma {:induction false} LengthOfWord(word: string, s: string)
    requires (forall c <- word :: !IsSpace(c)) && (s != "" ==> IsSpace(s[0]))
    ensures WordLength(word + s) == |word|
  {
    if word == "" {
      assert word + s == s;
    } else {
      LengthOfWord(word[1..], s);
      assert (word + s)[1..] == word[1..] + s;
    }
  }

  lemma TakeWord(word: string, s: string)
    requires IsWord(word) && (s != "" ==> IsSpace(s[0]))
    ensures Tokens(word + s) == [word] + Tokens(s)
  {
    hide WordLength, IsSpace;
    var t := word + s;
    LengthOfWord(word, s);
    assert t[..|word|] == word && t[|word|..] == s;
    assert t[0] == word[0];
  }

  /** The words come back whatever the white space between them is. */
  lemma {:induction false} TokensSpelled(gaps: seq<string>, words: seq<string>)
    requires Apart(gaps, words) && forall w <- words :: IsWord(w)
    ensures Tokens(Spelled(gaps, words)) == words
  {
    if words == [] {
      SkipGap(gaps[0], "");
      assert gaps[0] + "" == gaps[0];
    } else {
      var rest := Spelled(gaps[1..], words[1..]);
      TokensSpelled(gaps[1..], words[1..]);
      assert rest != "" ==> IsSpace(rest[0]) by {
        assert gaps[1] in gaps;
        assert gaps[1] != "" ==> rest[0] == gaps[1][0];
      }
      TakeWord(words[0], rest);
      SkipGap(gaps[0], words[0] + rest);
      assert gaps[0] + words[0] + rest == gaps[0] + (words[0] + rest);
    }
  }

  /** And nothing but words comes out of any text. */
  lemma {:induction false} TokensAreWords(s: string)
    ensures forall w <- Tokens(s) :: IsWord(w)
    decreases |s|
  {
    if s != "" && IsSpace(s[0]) {
      TokensAreWords(s[1..]);
    } else if s != "" {
      TokensAreWords(s[WordLength(s)..]);
    }
  }

  // ---- Numbers ----------------------------------------------------------------------------------------

  /** The longest prefix of hexadecimal digits. */
  function Digits(s: string): (t: string)
    ensures IsHex(t) && t <= s
  {
    if s == "" || DigitValue(s[0]).None? then "" else [s[0]] + Digits(s[1..])
  }

  predicate Prefixed(s: string) {
    |s| >= 3 && s[0] == '0' && (s[1] == 'x' || s[1] == 'X') && DigitValue(s[2]).Some?
  }

  predicate Signed(s: string) {
    s != "" && (s[0] == '+' || s[0] == '-')
  }

  /** What is read as the number behind the sign. */
  function Magnitude(s: string): string {
    Digits(if Prefixed(s) then s[2..] else s)
  }

  /** std::stoi with base 16; None where it throws, for want of digits or out of the range of an int. */
  function Stoi(s: string): Option<int> {
    if s != "" && IsSpace(s[0]) then Stoi(s[1..])
    else
      var digits := Magnitude(if Signed(s) then s[1..] else s);
      var v: int := if Signed(s) && s[0] == '-' then 0 - HexValue(digits) else HexValue(digits);
      if digits == "" || v < -0x8000_0000 || v >= 0x8000_0000 then None else Some(v)
  }

  lemma DigitsOfOne(c: char)
    ensures Digits([c]) == if DigitValue(c).None? then "" else [c]
    ensures DigitValue(c).Some? ==> HexValue([c]) == DigitValue(c).value
  {
    assert [c][1..] == "" && [c][..0] == "";
  }

  lemma DigitsOfTwo(c: char, d: char)
    ensures Digits([c, d]) == if DigitValue(c).None? then "" else [c] + Digits([d])
    ensures DigitValue(c).Some? && DigitValue(d).Some? ==>
              HexValue([c, d]) == 16 * DigitValue(c).value + DigitValue(d).value
  {
    DigitsOfOne(c);
    assert [c, d][1..] == [d] && [c, d][..1] == [c];
  }

  lemma StoiOfOne(c: char)
    ensures Stoi([c]) == StoiHex([c])
  {
    DigitsOfOne(c);
    assert [c][1..] == "";
  }

  lemma DigitApart(c: char)
    ensures DigitValue(c).Some? ==> DigitValue(c).value < 16 && !IsSpace(c) && c != '+' && c != '-'
    ensures IsSpace(c) ==> c != '+' && c != '-'
  {
  }

  /** On one or two characters this is what hexToBytes relies on. */
  lemma StoiOfPair(s: string)
    requires 1 <= |s| <= 2
    ensures Stoi(s) == StoiHex(s)
  {
    hide Digits, HexValue, DigitValue, IsSpace;
    StoiOfOne(s[|s| - 1]);
    if |s| == 1 {
      assert s == [s[0]];
    } else {
      DigitApart(s[0]);
      DigitApart(s[1]);
      DigitsOfTwo(s[0], s[1]);
      DigitsOfOne(s[0]);
      DigitsOfOne(s[1]);
      assert s == [s[0], s[1]] && s[1..] == [s[1]];
      assert [s[0]] + "" == [s[0]] && [s[0]] + [s[1]] == s;
    }
  }

  lemma {:induction false} DigitsOfHex(s: string)
    requires IsHex(s)
    ensures Digits(s) == s
  {
    if s != "" {
      assert s[0] in s;
      DigitsOfHex(s[1..]);
      assert [s[0]] + s[1..] == s;
    }
  }

  lemma {:induction false} DigitsStop(s: string, junk: string)
    requires IsHex(s) && (junk != "" ==> DigitValue(junk[0]).None?)
    ensures Digits(s + junk) == s
  {
    if s == "" {
      assert s + junk == junk;
    } else {
      assert s[0] in s;
      assert (s + junk)[1..] == s[1..] + junk;
      DigitsStop(s[1..], junk);
      assert [s[0]] + s[1..] == s;
    }
  }

  /** What stoi makes of a value. */
  function InRange(v: int): Option<int> {
    if -0x8000_0000 <= v < 0x8000_0000 then Some(v) else None
  }

  lemma Signs(t: string, s: string)
    requires t != "" && !IsSpace(t[0]) && !Signed(t) && s != "" && IsHex(s) && Magnitude(t) == s
    ensures Stoi(t) == InRange(HexValue(s))
    ensures Stoi("+" + t) == InRange(HexValue(s)) && Stoi("-" + t) == InRange(0 - HexValue(s))
  {
    hide Magnitude, HexValue;
    assert ("+" + t)[1..] == t && ("-" + t)[1..] == t;
  }

  lemma Prefixes(t: string, s: string)
    requires t != "" && DigitValue(t[0]).Some? && Digits(t) == s
    ensures forall x <- ["0x" + t, "0X" + t] ::
              x != "" && !IsSpace(x[0]) && !Signed(x) && Magnitude(x) == s
  {
    hide Digits, DigitValue;
    assert ("0x" + t)[2..] == t && ("0X" + t)[2..] == t;
  }

  /** A number may have white space and one sign before it, a 0x or 0X prefix, and anything that is no
      digit behind it; it must fit into a 32-bit int. */
  lemma NumberForms(s: string, junk: string)
    requires s != "" && IsHex(s) && (junk != "" ==> DigitValue(junk[0]).None?)
    requires s == "0" ==> junk == "" || (junk[0] != 'x' && junk[0] != 'X')
    ensures var v: int := HexValue(s);
            var t := s + junk;
            && Stoi(t) == Stoi("+" + t) == Stoi("0x" + t) == Stoi("0X" + t) == InRange(v)
            && Stoi("-" + t) == Stoi("-" + ("0x" + t)) == InRange(0 - v)
    ensures forall c: char :: IsSpace(c) ==> Stoi([c] + s) == Stoi(s)
  {
    hide Digits, HexValue, IsSpace, DigitValue, Signed, Magnitude, Stoi, Prefixed;
    var t := s + junk;
    PlainNumber(s, junk);
    Prefixes(t, s);
    Signs(t, s);
    var forms := ["0x" + t, "0X" + t];
    assert forms[0] in forms && forms[1] in forms;
    Signs(forms[0], s);
    Signs(forms[1], s);
    forall c: char | IsSpace(c) ensures Stoi([c] + s) == Stoi(s) {
      SpaceBefore(c, s);
    }
  }

  lemma SpaceBefore(c: char, s: string)
    requires IsSpace(c)
    ensures Stoi([c] + s) == Stoi(s)
  {
    assert ([c] + s)[1..] == s;
  }

  lemma PlainNumber(s: string, junk: string)
    requires s != "" && IsHex(s) && (junk != "" ==> DigitValue(junk[0]).None?)
    requires s == "0" ==> junk == "" || (junk[0] != 'x' && junk[0] != 'X')
    ensures var t := s + junk;
            && t != "" && DigitValue(t[0]).Some? && Digits(t) == s
            && !IsSpace(t[0]) && !Signed(t) && Magnitude(t) == s
  {
    var t := s + junk;
    DigitsStop(s, junk);
    assert s[0] in s && t[0] == s[0];
    DigitApart(s[0]);
    NotPrefixed(s, junk);
  }

  lemma NotPrefixed(s: string, junk: string)
    requires s != "" && IsHex(s) && (s == "0" ==> junk == "" || (junk[0] != 'x' && junk[0] != 'X'))
    ensures !Prefixed(s + junk)
  {
    var t := s + junk;
    if |s| >= 2 {
      assert s[1] in s && t[1] == s[1];
    } else if |t| >= 2 {
      assert t[1] == junk[0];
      assert t[0] == '0' ==> s == "0";
    }
  }

  // ---- Patterns ---------------------------------------------------------------------------------------

  predicate IsWildcard(word: string) {
    word == "??" || word == "?"
  }

  /** One more pattern position. */
  function Extended(pat: Pattern, word: string): Option<Pattern> {
    if IsWildcard(word) then Some(Pattern(pat.bytes + [0], pat.mask + [false]))
    else match Stoi(word)
      case Some(v) => Some(Pattern(pat.bytes + [v % 256], pat.mask + [true]))
      case None => None
  }

  /** A position is free for one question mark or two and for nothing else; any other word is a number or
      an error. */
  lemma OnlyWildcards(pat: Pattern, word: string)
    ensures var r := Extended(pat, word);
            && (r.Some? && r.value.mask == pat.mask + [false] <==> word == "?" || word == "??")
            && (r.None? <==> word != "?" && word != "??" && Stoi(word).None?)
  {
    hide Stoi;
    assert (pat.mask + [false])[|pat.mask|] != (pat.mask + [true])[|pat.mask|];
  }

  /** The pattern the words stand for; None if one of them is neither a wildcard nor a number. */
  function Parsed(words: seq<string>): (r: Option<Pattern>)
    ensures r.Some? ==> |r.value.bytes| == |r.value.mask| == |words|
  {
    if words == [] then Some(EMPTY)
    else match Parsed(words[..|words| - 1])
      case Some(pat) => Extended(pat, words[|words| - 1])
      case None => None
  }

  lemma ParsedOneMore(words: seq<string>, word: string)
    ensures Parsed(words + [word]) == match Parsed(words) case Some(pat) => Extended(pat, word) case None => None
  {
    assert (words + [word])[..|words|] == words;
  }

  lemma {:induction false} OneBadWord(words: seq<string>, rest: seq<string>)
    requires Parsed(words).None?
    ensures Parsed(words + rest).None?
    decreases |rest|
  {
    if rest == [] {
      assert words + rest == words;
    } else {
      ParsedOneMore(words, rest[0]);
      OneBadWord(words + [rest[0]], rest[1..]);
      assert words + [rest[0]] + rest[1..] == words + rest;
    }
  }

  /** How a pattern position may be written: a wildcard, or one or two digits in either case. */
  predicate Spells(word: string, b: Byte, mask: bool) {
    if mask then
      || (|word| == 2 && IsDigitOf(word[0], b / 16) && IsDigitOf(word[1], b % 16))
      || (|word| == 1 && IsDigitOf(word[0], b))
    else (word == "?" || word == "??") && b == 0
  }

  ghost predicate SpellsAll(words: seq<string>, pat: Pattern) {
    && |words| == |pat.bytes| == |pat.mask|
    && forall k :: 0 <= k < |words| ==> Spells(words[k], pat.bytes[k], pat.mask[k])
  }

  /** A word of hexadecimal digits is the low byte of its value, and an error from 2^31 on. */
  lemma NumberWord(pat: Pattern, word: string)
    requires word != "" && IsHex(word)
    ensures Extended(pat, word) ==
              if HexValue(word) >= 0x8000_0000 then None
              else Some(Pattern(pat.bytes + [HexValue(word) % 256], pat.mask + [true]))
  {
    hide Digits, HexValue;
    assert word[0] in word;
    assert |word| > 1 ==> word[1] in word;
    DigitsOfHex(word);
  }

  /** A half wildcard is no wildcard: a digit before the question mark is taken for the whole byte,
      a digit behind it is an error. */
  lemma HalfWildcard(pat: Pattern, digit: char)
    requires DigitValue(digit).Some?
    ensures Extended(pat, [digit, '?']) == Some(Pattern(pat.bytes + [DigitValue(digit).value], pat.mask + [true]))
    ensures Extended(pat, ['?', digit]) == None
  {
    StoiOfPair([digit, '?']);
    StoiOfPair(['?', digit]);
  }

  lemma SpelledValue(word: string, b: Byte)
    requires Spells(word, b, true)
    ensures IsHex(word) && HexValue(word) == b && word != ""
  {
    if |word| == 2 {
      DigitIff(word[0], b / 16);
      DigitIff(word[1], b % 16);
      DigitsOfTwo(word[0], word[1]);
      assert word == [word[0], word[1]];
    } else {
      DigitIff(word[0], b);
      DigitsOfOne(word[0]);
      assert word == [word[0]];
    }
  }

  lemma HexIsWord(word: string)
    requires IsHex(word) && word != ""
    ensures IsWord(word)
  {
    hide DigitValue, IsSpace;
    forall c | c in word ensures !IsSpace(c) {
      DigitApart(c);
    }
  }

  lemma WordSpelled(word: string, b: Byte, mask: bool)
    requires Spells(word, b, mask)
    ensures IsWord(word)
    ensures forall pat :: Extended(pat, word) == Some(Pattern(pat.bytes + [b], pat.mask + [mask]))
  {
    hide Extended, IsWord;
    if mask {
      NumberSpelled(word, b);
    } else {
      WildcardSpelled(word);
    }
  }

  lemma NumberSpelled(word: string, b: Byte)
    requires Spells(word, b, true)
    ensures IsWord(word)
    ensures forall pat :: Extended(pat, word) == Some(Pattern(pat.bytes + [b], pat.mask + [true]))
  {
    hide Spells, HexValue, Extended, DigitValue, IsHex, IsWord;
    SpelledValue(word, b);
    HexIsWord(word);
    forall pat ensures Extended(pat, word) == Some(Pattern(pat.bytes + [b], pat.mask + [true])) {
      NumberWord(pat, word);
    }
  }

  lemma WildcardSpelled(word: string)
    requires word == "?" || word == "??"
    ensures IsWord(word)
    ensures forall pat :: Extended(pat, word) == Some(Pattern(pat.bytes + [0], pat.mask + [false]))
  {
    hide Stoi;
  }

  lemma WordsSpelled(words: seq<string>, pat: Pattern)
    requires SpellsAll(words, pat)
    ensures forall w <- words :: IsWord(w)
  {
    hide Spells, Extended, IsWord;
    forall k | 0 <= k < |words| ensures IsWord(words[k]) {
      WordSpelled(words[k], pat.bytes[k], pat.mask[k]);
    }
  }

  lemma {:induction false} ParsedSpelled(words: seq<string>, pat: Pattern)
    requires SpellsAll(words, pat)
    ensures Parsed(words) == Some(pat)
  {
    hide Spells, Extended, IsWord;
    if words == [] {
      assert pat == EMPTY;
    } else {
      var n := |words| - 1;
      var front := Pattern(pat.bytes[..n], pat.mask[..n]);
      ParsedSpelled(words[..n], front);
      WordSpelled(words[n], pat.bytes[n], pat.mask[n]);
      ParsedOneMore(words[..n], words[n]);
      assert words[..n] + [words[n]] == words;
      hide Parsed;
      assert front.bytes + [pat.bytes[n]] == pat.bytes && front.mask + [pat.mask[n]] == pat.mask;
    }
  }

  /** Every pattern is read back from every way of writing it down. */
  lemma PatternRoundTrip(pat: Pattern, gaps: seq<string>, words: seq<string>)
    requires SpellsAll(words, pat) && Apart(gaps, words)
    ensures Parsed(Tokens(Spelled(gaps, words))) == Some(pat)
  {
    ParsedSpelled(words, pat);
    WordsSpelled(words, pat);
    TokensSpelled(gaps, words);
  }

  // ---- The parser and the scan --------------------------------------------------------------------------

  method SkipSpace(s: string, i: nat) returns (next: nat)
    requires i <= |s|
    ensures i <= next <= |s| && (next < |s| ==> !IsSpace(s[next]))
    ensures Tokens(s[i..]) == Tokens(s[next..])
  {
    hide IsSpace, WordLength;
    next := i;
    while next < |s| && IsSpace(s[next])
      invariant i <= next <= |s|
      invariant Tokens(s[i..]) == Tokens(s[next..])
    {
      assert s[next..][1..] == s[next + 1..];
      next := next + 1;
    }
  }

  method ReadWord(s: string, i: nat) returns (next: nat)
    requires i < |s| && !IsSpace(s[i])
    ensures i < next <= |s| && (next < |s| ==> IsSpace(s[next]))
    ensures IsWord(s[i..next])
  {
    hide IsSpace;
    next := i;
    while next < |s| && !IsSpace(s[next])
      invariant i <= next <= |s|
      invariant forall k :: i <= k < next ==> !IsSpace(s[k])
    {
      next := next + 1;
    }
  }

  /** `iss >> token` from position `i`: skip white space, then read up to the next. */
  method NextToken(s: string, i: nat) returns (token: Option<string>, next: nat)
    requires i <= |s|
    ensures i <= next <= |s|
    ensures token.None? ==> Tokens(s[i..]) == []
    ensures token.Some? ==> i < next && Tokens(s[i..]) == [token.value] + Tokens(s[next..])
  {
    hide IsSpace, IsWord, WordLength;
    var start := SkipSpace(s, i);
    if start == |s| {
      return None, start;
    }
    next := ReadWord(s, start);
    TakeWord(s[start..next], s[next..]);
    assert s[start..next] + s[next..] == s[start..];
    return Some(s[start..next]), next;
  }

  lemma WordTaken(words: seq<string>, pat: Pattern, word: string, rest: seq<string>)
    requires Parsed(words) == Some(pat)
    ensures words + ([word] + rest) == words + [word] + rest
    ensures Parsed(words + [word]) == Extended(pat, word)
    ensures Extended(pat, word).None? ==> Parsed(words + [word] + rest).None?
  {
    hide Extended, Parsed;
    ParsedOneMore(words, word);
    if Extended(pat, word).None? {
      OneBadWord(words + [word], rest);
    }
  }

  method ParsePattern(pattern: string) returns (p: Option<Pattern>)
    ensures p == Parsed(Tokens(pattern))
  {
    var bytes: seq<Byte>, mask: seq<bool> := [], [];
    ghost var done: seq<string> := [];
    var token, i := NextToken(pattern, 0);
    assert pattern[0..] == pattern;
    assert token.Some? ==> Tokens(pattern) == done + ([token.value] + Tokens(pattern[i..]));
    assert Parsed(done) == Some(Pattern(bytes, mask));
    hide Stoi, Tokens, Parsed, IsWildcard;
    while token.Some?
      invariant 0 <= i <= |pattern|
      invariant Parsed(done) == Some(Pattern(bytes, mask))
      invariant Tokens(pattern) == if token.Some? then done + ([token.value] + Tokens(pattern[i..])) else done
      decreases |pattern| - i, token.Some?
    {
      var word := token.value;
      WordTaken(done, Pattern(bytes, mask), word, Tokens(pattern[i..]));
      if IsWildcard(word) {
        bytes, mask := bytes + [0], mask + [false];
      } else {
        var v := Stoi(word);
        if v.None? {
          return None;
        }
        bytes, mask := bytes + [v.value % 256], mask + [true];
      }
      done := done + [word];
      token, i := NextToken(pattern, i);
    }
    return Some(Pattern(bytes, mask));
  }

  /** scanMemory: None where the pattern does not parse, otherwise all matches. */
  method ScanMemory(memory: seq<Byte>, pattern: string) returns (results: Option<seq<ScanMatch>>)
    ensures results.None? <==> Parsed(Tokens(pattern)).None?
    ensures results.Some? ==>
              var pat := Parsed(Tokens(pattern)).value;
              && (pat == EMPTY ==> results.value == [])
              && (pat != EMPTY ==>
                    && (forall k :: ScanMatch(k, |pat.bytes|) in results.value <==> k >= 0 && MatchesAt(memory, pat, k))
                    && (forall x <- results.value :: x.size == |pat.bytes|)
                    && (forall a, b :: 0 <= a < b < |results.value| ==>
                        results.value[a].offset < results.value[b].offset))
  {
    var pat := ParsePattern(pattern);
    if pat.None? {
      return None;
    }
    var found := BmhScan(memory, pat.value);
    if |pat.value.bytes| > 0 {
      NaiveIsExact(memory, pat.value, 0);
    }
    return Some(found);
  }
}
