/** Which terms are an identity (server/query_handler.c): a grammar on the characters of the term, and the parser against
    it, in both directions. */
module TermGrammar {
  import opened Bytes
  import opened Wrappers
  import opened Decimals
  import opened Identity

  /** A number as strtoull reads it: white space, perhaps a sign, and digits worth less than 2^64; a minus sign negates
      modulo 2^64. */
  ghost predicate IsNumber(t: string, v: nat) {
    exists spaces: string, sign: string, digits: string :: NumberParts(t, v, spaces, sign, digits)
  }

  ghost predicate NumberParts(t: string, v: nat, spaces: string, sign: string, digits: string) {
    && t == spaces + sign + digits
    && (forall i :: 0 <= i < |spaces| ==> spaces[i] in " \t\n\r\U{0B}\U{0C}")
    && (sign == "" || sign == "+" || sign == "-")
    && digits != "" && (forall i :: 0 <= i < |digits| ==> '0' <= digits[i] <= '9')
    && Decimal(digits) < 0x1_0000_0000_0000_0000
    && v == if sign == "-" && Decimal(digits) > 0 then 0x1_0000_0000_0000_0000 - Decimal(digits) else Decimal(digits)
  }

  ghost predicate OnlySeparators(t: string) {
    forall i :: 0 <= i < |t| ==> t[i] in " \t:,;"
  }

  // Two numbers, separators after each, and perhaps a tag before the second.
  datatype Split = Split(first: string, gap: string, tag: string, second: string, tail: string) {
    function Text(): string {
      first + Rest()
    }

    function Rest(): string {
      gap + (tag + (second + tail))
    }
  }

  /** The pieces are what they should be; the first number ends where its digits end. */
  ghost predicate Reads(p: Split, a: nat, b: nat, tags: set<string>) {
    && IsNumber(p.first, a) && IsNumber(p.second, b)
    && OnlySeparators(p.gap) && OnlySeparators(p.tail)
    && (p.tag == "" || p.tag in tags)
    && !('0' <= p.Rest()[0] <= '9')
  }

  // --- Numbers ---

  lemma {:induction false} SpacesEndAt(s: string, i: nat, j: nat)
    requires i <= j <= |s| && (forall k :: i <= k < j ==> IsSpace(s[k])) && (j < |s| ==> !IsSpace(s[j]))
    ensures SkipSpace(s, i) == j
    decreases j - i
  {
    if i < j {
      SpacesEndAt(s, i + 1, j);
    }
  }

  lemma {:induction false} SpacesSkipped(s: string, i: nat)
    requires i <= |s|
    ensures forall k :: i <= k < SkipSpace(s, i) ==> IsSpace(s[k])
    decreases |s| - i
  {
    if i < |s| && IsSpace(s[i]) {
      SpacesSkipped(s, i + 1);
    }
  }

  // A number by the places of its parts: white space from i, a sign or none from `start`, digits from `first` to j.
  ghost predicate NumberSpan(s: string, i: nat, start: nat, first: nat, j: nat, v: nat) {
    && i <= start <= first < j <= |s|
    && (forall k :: i <= k < start ==> IsSpace(s[k])) && !IsSpace(s[start])
    && (first == start || (first == start + 1 && (s[start] == '+' || s[start] == '-')))
    && (forall k :: first <= k < j ==> IsDigit(s[k]))
    && SpanValue(s, start, first, j, v)
  }

  ghost predicate SpanValue(s: string, start: nat, first: nat, j: nat, v: nat)
    requires start <= first < j <= |s| && forall k :: first <= k < j ==> IsDigit(s[k])
  {
    var d := Decimal(s[first..j]);
    d < UINT64_LIMIT && v == if first > start && s[start] == '-' && d > 0 then UINT64_LIMIT - d else d
  }

  lemma {:induction false} StrtoullSpan(s: string, i: nat, v: nat, j: nat) returns (start: nat, first: nat)
    requires i <= |s| && Strtoull(s, i) == Some((v, j))
    ensures NumberSpan(s, i, start, first, j, v) && (j < |s| ==> !IsDigit(s[j]))
  {
    hide Decimal;
    start := SkipSpace(s, i);
    SpacesSkipped(s, i);
    first := if start < |s| && (s[start] == '+' || s[start] == '-') then start + 1 else start;
  }

  lemma {:induction false} SpanStrtoull(s: string, i: nat, start: nat, first: nat, j: nat, v: nat)
    requires NumberSpan(s, i, start, first, j, v) && (j < |s| ==> !IsDigit(s[j]))
    ensures Strtoull(s, i) == Some((v, j))
  {
    SpacesEndAt(s, i, start);
    DigitsEndAt(s, first, j);
    hide Decimal, SkipSpace, DigitsEnd;
  }

  lemma ThreePieces(s: string, i: nat, start: nat, first: nat, j: nat)
    requires i <= start <= first <= j <= |s|
    ensures s[i..j] == s[i..start] + s[start..first] + s[first..j]
  {
    assert s[i..j] == s[i..start] + s[start..j];
  }

  lemma {:induction false} SpanIsNumber(s: string, i: nat, start: nat, first: nat, j: nat, v: nat)
    requires NumberSpan(s, i, start, first, j, v)
    ensures IsNumber(s[i..j], v)
  {
    hide Decimal;
    var spaces, sign, digits := s[i..start], s[start..first], s[first..j];
    ThreePieces(s, i, start, first, j);
    assert first > start ==> sign == [s[start]];
    assert NumberParts(s[i..j], v, spaces, sign, digits);
  }

  lemma {:induction false} NumberRead(s: string, i: nat, v: nat, j: nat)
    requires i <= |s| && Strtoull(s, i) == Some((v, j))
    ensures i < j <= |s| && IsNumber(s[i..j], v) && (j < |s| ==> !('0' <= s[j] <= '9'))
  {
    hide Strtoull, IsNumber;
    var start, first := StrtoullSpan(s, i, v, j);
    SpanIsNumber(s, i, start, first, j, v);
  }

  lemma {:induction false} ReadNumber(s: string, i: nat, v: nat, j: nat)
    requires i <= j <= |s| && IsNumber(s[i..j], v) && (j < |s| ==> !('0' <= s[j] <= '9'))
    ensures Strtoull(s, i) == Some((v, j)) && i < j
  {
    hide Strtoull, Decimal;
    var spaces, sign, digits :| NumberParts(s[i..j], v, spaces, sign, digits);
    NumberPlaces(s, i, j, v, spaces, sign, digits);
    SpanStrtoull(s, i, i + |spaces|, i + |spaces| + |sign|, j, v);
  }

  /** Where the parts of a text are. */
  lemma PartPlaces(s: string, i: nat, j: nat, a: string, b: string, c: string)
    requires i <= j <= |s| && s[i..j] == a + b + c
    ensures i + |a| + |b| + |c| == j
    ensures s[i..i + |a|] == a && s[i + |a|..i + |a| + |b|] == b && s[i + |a| + |b|..j] == c
  {
    var t := s[i..j];
    assert t[..|a|] == a && t[|a|..|a| + |b|] == b && t[|a| + |b|..] == c;
    SliceOfSlice(s, i, j, 0, |a|);
    SliceOfSlice(s, i, j, |a|, |a| + |b|);
    SliceOfSlice(s, i, j, |a| + |b|, |t|);
  }

  lemma SliceOfSlice(s: string, i: nat, j: nat, from: nat, to: nat)
    requires i <= j <= |s| && from <= to <= j - i
    ensures s[i..j][from..to] == s[i + from..i + to]
  {
    var a, b := s[i..j][from..to], s[i + from..i + to];
    assert |a| == |b| && forall k :: 0 <= k < |a| ==> a[k] == b[k];
  }

  lemma {:induction false} NumberPlaces(s: string, i: nat, j: nat, v: nat, spaces: string, sign: string, digits: string)
    requires i <= j <= |s| && NumberParts(s[i..j], v, spaces, sign, digits)
    ensures var start, first := i + |spaces|, i + |spaces| + |sign|;
      && first < j && s[first..j] == digits
      && (forall k :: i <= k < start ==> IsSpace(s[k])) && !IsSpace(s[start])
      && (forall k :: first <= k < j ==> IsDigit(s[k]))
      && (sign == "" ==> IsDigit(s[start])) && (sign != "" ==> s[start] == sign[0])
  {
    hide Decimal;
    PartPlaces(s, i, j, spaces, sign, digits);
    var start, first := i + |spaces|, i + |spaces| + |sign|;
    forall k | i <= k < start
      ensures IsSpace(s[k])
    {
      assert s[k] == s[i..start][k - i] == spaces[k - i];
    }
    forall k | first <= k < j
      ensures IsDigit(s[k])
    {
      assert s[k] == s[first..j][k - first] == digits[k - first];
    }
    if sign != "" {
      assert s[start] == s[start..first][0] == sign[0];
    } else {
      assert s[start] == s[first..j][0] == digits[0];
    }
  }

  /** A number is still one, with the same value, without some of the white space before it. */
  lemma {:induction false} LessSpace(s: string, i: nat, q: nat, j: nat, v: nat)
    requires i <= q <= j <= |s| && IsNumber(s[i..j], v) && forall k :: i <= k < q ==> IsSeparator(s[k])
    ensures q < j && IsNumber(s[q..j], v) && s[q] != 'S' && s[q] != 's' && s[q] != 'H' && s[q] != 'h'
  {
    var spaces, sign, digits :| NumberParts(s[i..j], v, spaces, sign, digits);
    NumberPlaces(s, i, j, v, spaces, sign, digits);
    var start, first := i + |spaces|, i + |spaces| + |sign|;
    assert q <= start;
    assert NumberSpan(s, q, start, first, j, v);
    assert q < start ==> IsSpace(s[q]);
    hide NumberSpan;
    SpanIsNumber(s, q, start, first, j, v);
  }

  // --- Two numbers ---

  function TagTexts(tag: Option<Tag>): set<string> {
    match tag
    case None => {}
    case Some(SizeTag) => {"S=", "s="}
    case Some(HashTag) => {"H=", "h="}
  }

  // How the parser walks over a pair: the ends of the first number, of the gap, of the tag and of the second number.
  ghost predicate Walked(s: string, i: nat, tag: Option<Tag>, a: nat, b: nat, j: nat, gap: nat, at: nat, k: nat) {
    && i < j <= gap <= at < k <= |s|
    && IsNumber(s[i..j], a) && !('0' <= s[j] <= '9')
    && (forall n :: j <= n < gap ==> IsSeparator(s[n]))
    && (at == gap || (at == gap + 2 && s[gap..at] in TagTexts(tag)))
    && IsNumber(s[at..k], b)
    && (forall n :: k <= n < |s| ==> IsSeparator(s[n]))
  }

  lemma {:induction false} PairWalked(s: string, i: nat, tag: Option<Tag>, a: nat, b: nat) returns (j: nat, gap: nat, at: nat, k: nat)
    requires i <= |s| && TwoNumbers(s, i, tag) == Some((a, b))
    ensures Walked(s, i, tag, a, b, j, gap, at, k)
  {
    hide Strtoull, IsNumber;
    j := Strtoull(s, i).value.1;
    gap := SkipSeparators(s, j);
    at := if tag.Some? && TagAt(s, gap, tag.value) then gap + 2 else gap;
    k := Strtoull(s, at).value.1;
    NumberRead(s, i, a, j);
    NumberRead(s, at, b, k);
    if at == gap + 2 {
      assert s[gap..at] == [s[gap], s[gap + 1]];
    }
  }

  lemma {:induction false} PairRead(s: string, i: nat, tag: Option<Tag>, a: nat, b: nat) returns (p: Split)
    requires i <= |s| && TwoNumbers(s, i, tag) == Some((a, b))
    ensures s[i..] == p.Text() && Reads(p, a, b, TagTexts(tag))
  {
    hide TwoNumbers, IsNumber, TagTexts;
    var j, gap, at, k := PairWalked(s, i, tag, a, b);
    p := Split(s[i..j], s[j..gap], s[gap..at], s[at..k], s[k..]);
    JoinFive(s, i, j, gap, at, k);
    assert p.Rest()[0] == s[j];
  }

  lemma JoinFive(s: string, i: nat, j: nat, gap: nat, at: nat, k: nat)
    requires i <= j <= gap <= at <= k <= |s|
    ensures s[j..] == s[j..gap] + (s[gap..at] + (s[at..k] + s[k..]))
    ensures s[i..] == s[i..j] + s[j..]
  {
    assert s[at..] == s[at..k] + s[k..];
    assert s[gap..] == s[gap..at] + s[at..];
    assert s[j..] == s[j..gap] + s[gap..];
  }

  /** Where the pieces are. */
  lemma {:induction false} PiecePlaces(s: string, i: nat, p: Split)
    requires i <= |s| && s[i..] == p.Text()
    ensures var j := i + |p.first|;
            var gap := j + |p.gap|;
            var at := gap + |p.tag|;
            var k := at + |p.second|;
      && k + |p.tail| == |s| && s[i..j] == p.first && s[j..] == p.Rest()
      && s[j..gap] == p.gap && s[gap..at] == p.tag && s[at..k] == p.second && s[k..] == p.tail
  {
    var j := i + |p.first|;
    var gap := j + |p.gap|;
    var at := gap + |p.tag|;
    CutOff(s, i, p.first, p.Rest());
    CutOff(s, j, p.gap, p.tag + (p.second + p.tail));
    CutOff(s, gap, p.tag, p.second + p.tail);
    CutOff(s, at, p.second, p.tail);
  }

  lemma CutOff(s: string, i: nat, x: string, rest: string)
    requires i <= |s| && s[i..] == x + rest
    ensures i + |x| <= |s| && s[i..i + |x|] == x && s[i + |x|..] == rest
  {
    var t := s[i..];
    assert t[..|x|] == x && t[|x|..] == rest;
    assert s[i..i + |x|] == t[..|x|] && s[i + |x|..] == t[|x|..];
  }

  lemma {:induction false} ReadWalked(s: string, i: nat, tag: Option<Tag>, a: nat, b: nat, j: nat, gap: nat, at: nat, k: nat)
    requires Walked(s, i, tag, a, b, j, gap, at, k)
    ensures TwoNumbers(s, i, tag) == Some((a, b))
  {
    hide Strtoull, IsNumber;
    ReadNumber(s, i, a, j);
    SeparatorsEndAt(s, k, |s|);
    assert k < |s| ==> IsSeparator(s[k]);
    if at == gap {
      SecondPlain(s, j, gap, k, b);
      ReadNumber(s, SkipSeparators(s, j), b, k);
    } else {
      assert s[gap] == s[gap..at][0] && s[gap + 1] == s[gap..at][1];
      SeparatorsEndAt(s, j, gap);
      ReadNumber(s, at, b, k);
    }
  }

  /** Without a tag the second number may begin with separators too; the parser skips them and reads the same. */
  lemma {:induction false} SecondPlain(s: string, j: nat, gap: nat, k: nat, b: nat)
    requires j <= gap <= k <= |s| && IsNumber(s[gap..k], b) && forall n :: j <= n < gap ==> IsSeparator(s[n])
    ensures var q := SkipSeparators(s, j);
      && gap <= q < k && IsNumber(s[q..k], b) && !TagAt(s, q, SizeTag) && !TagAt(s, q, HashTag)
  {
    hide IsNumber;
    SeparatorsFurther(s, j, gap);
    SeparatorsWithin(s, gap, k, b);
    LessSpace(s, gap, SkipSeparators(s, gap), k, b);
  }

  lemma {:induction false} ReadPair(s: string, i: nat, tag: Option<Tag>, a: nat, b: nat, p: Split)
    requires i <= |s| && s[i..] == p.Text() && Reads(p, a, b, TagTexts(tag))
    ensures TwoNumbers(s, i, tag) == Some((a, b))
  {
    hide TwoNumbers, IsNumber;
    PiecePlaces(s, i, p);
    var j := i + |p.first|;
    var gap := j + |p.gap|;
    var at := gap + |p.tag|;
    var k := at + |p.second|;
    NumberNotEmpty(p.first, a);
    NumberNotEmpty(p.second, b);
    assert s[j] == p.Rest()[0];
    SeparatorsAt(s, j, gap, p.gap);
    assert s[k..|s|] == s[k..];
    SeparatorsAt(s, k, |s|, p.tail);
    hide OnlySeparators;
    ReadWalked(s, i, tag, a, b, j, gap, at, k);
  }

  lemma {:induction false} SeparatorsAt(s: string, a: nat, b: nat, t: string)
    requires a <= b <= |s| && s[a..b] == t && OnlySeparators(t)
    ensures forall n :: a <= n < b ==> IsSeparator(s[n])
  {
    forall n | a <= n < b
      ensures IsSeparator(s[n])
    {
      assert s[n] == t[n - a];
    }
  }

  lemma {:induction false} NumberNotEmpty(t: string, v: nat)
    requires IsNumber(t, v)
    ensures t != ""
  {
  }

  lemma {:induction false} SeparatorsFurther(s: string, j: nat, gap: nat)
    requires j <= gap <= |s| && forall n :: j <= n < gap ==> IsSeparator(s[n])
    ensures SkipSeparators(s, j) == SkipSeparators(s, gap)
    decreases gap - j
  {
    if j < gap {
      SeparatorsFurther(s, j + 1, gap);
    }
  }

  /** Separators before a number end before its last digit. */
  lemma {:induction false} SeparatorsWithin(s: string, i: nat, j: nat, v: nat)
    requires i <= j <= |s| && IsNumber(s[i..j], v)
    ensures SkipSeparators(s, i) <= j
  {
    var spaces, sign, digits :| NumberParts(s[i..j], v, spaces, sign, digits);
    NumberPlaces(s, i, j, v, spaces, sign, digits);
    assert IsDigit(s[j - 1]) && !IsSeparator(s[j - 1]);
  }

  /** A pair of numbers is read exactly where the text has that form, to its end. */
  lemma {:induction false} PairIff(s: string, i: nat, tag: Option<Tag>, a: nat, b: nat)
    requires i <= |s|
    ensures TwoNumbers(s, i, tag) == Some((a, b)) <==> exists p: Split :: s[i..] == p.Text() && Reads(p, a, b, TagTexts(tag))
  {
    hide TwoNumbers, Reads, TagTexts;
    if TwoNumbers(s, i, tag) == Some((a, b)) {
      var p := PairRead(s, i, tag, a, b);
    }
    if p: Split :| s[i..] == p.Text() && Reads(p, a, b, TagTexts(tag)) {
      ReadPair(s, i, tag, a, b, p);
    }
  }

  // --- The term ---

  /** The term in pieces, after an optional tag before the first number; what the tags say decides which number is which. */
  ghost predicate IsIdentity(s: string, size: nat, hash: nat) {
    exists p: Split ::
      || (s == p.Text() && Reads(p, size, hash, {}))
      || ((s == "S=" + p.Text() || s == "s=" + p.Text()) && Reads(p, size, hash, {"H=", "h="}))
      || ((s == "H=" + p.Text() || s == "h=" + p.Text()) && Reads(p, hash, size, {"S=", "s="}))
  }

  lemma {:induction false} AfterTag(s: string, t: string)
    ensures s == "S=" + t <==> |s| >= 2 && s[0] == 'S' && s[1] == '=' && s[2..] == t
    ensures s == "s=" + t <==> |s| >= 2 && s[0] == 's' && s[1] == '=' && s[2..] == t
    ensures s == "H=" + t <==> |s| >= 2 && s[0] == 'H' && s[1] == '=' && s[2..] == t
    ensures s == "h=" + t <==> |s| >= 2 && s[0] == 'h' && s[1] == '=' && s[2..] == t
  {
    if |s| >= 2 {
      assert s == [s[0], s[1]] + s[2..];
    }
  }

  lemma {:induction false} NumberStart(p: Split, a: nat, b: nat, tags: set<string>)
    requires Reads(p, a, b, tags)
    ensures |p.Text()| > 0 && p.Text()[0] != 'S' && p.Text()[0] != 's' && p.Text()[0] != 'H' && p.Text()[0] != 'h'
  {
    assert p.first[0..|p.first|] == p.first;
    LessSpace(p.first, 0, 0, |p.first|, a);
    assert p.Text()[0] == p.first[0];
  }

  /** A term is an identity, and of which file, exactly as the grammar says; any other term is a name. */
  lemma {:induction false} ParseTermIff(s: string, id: FileId)
    ensures ParseTerm(s) == Some(id) <==> IsIdentity(s, id.size, id.hash)
  {
    hide TwoNumbers, Reads, Split.Text;
    if TagAt(s, 0, SizeTag) {
      PairIff(s, 2, Some(HashTag), id.size, id.hash);
    } else if TagAt(s, 0, HashTag) {
      PairIff(s, 2, Some(SizeTag), id.hash, id.size);
    } else {
      PairIff(s, 0, None, id.size, id.hash);
      assert s[0..] == s;
    }
    forall p: Split
      ensures s == "S=" + p.Text() || s == "s=" + p.Text() <==> TagAt(s, 0, SizeTag) && s[2..] == p.Text()
      ensures s == "H=" + p.Text() || s == "h=" + p.Text() <==> TagAt(s, 0, HashTag) && s[2..] == p.Text()
      ensures s == p.Text() && Reads(p, id.size, id.hash, {}) ==> !TagAt(s, 0, SizeTag) && !TagAt(s, 0, HashTag)
    {
      AfterTag(s, p.Text());
      if s == p.Text() && Reads(p, id.size, id.hash, {}) {
        NumberStart(p, id.size, id.hash, {});
      }
    }
  }
}
