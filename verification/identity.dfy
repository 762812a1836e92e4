/** The (size, hash) search term: printed by the client (client/repl.c), parsed by the server
    (server/query_handler.c).  Strings hold no terminating zero: the end of the string stands for it. */
module Identity {
  import opened Bytes
  import opened Wrappers
  import opened Decimals

  // --- strtoull ---

  predicate IsSpace(c: char) {
    c == ' ' || c == '\t' || c == '\n' || c == '\r' || c == '\U{0B}' || c == '\U{0C}'
  }

  function SkipSpace(s: string, i: nat): (j: nat)
    requires i <= |s|
    ensures i <= j <= |s|
    decreases |s| - i
  {
    if i < |s| && IsSpace(s[i]) then SkipSpace(s, i + 1) else i
  }

  function DigitsEnd(s: string, i: nat): (j: nat)
    requires i <= |s|
    ensures i <= j <= |s| && forall k :: i <= k < j ==> IsDigit(s[k])
    ensures j < |s| ==> !IsDigit(s[j])
    decreases |s| - i
  {
    if i < |s| && IsDigit(s[i]) then DigitsEnd(s, i + 1) else i
  }

  /** strtoull in base 10 from position i: the value and where it ends; nothing when there is no digit or the number
      leaves 64 bits.  A minus sign negates modulo 2^64. */
  function Strtoull(s: string, i: nat): (r: Option<(nat, nat)>)
    requires i <= |s|
    ensures r.Some? ==> r.value.0 < UINT64_LIMIT && i < r.value.1 <= |s|
  {
    var start := SkipSpace(s, i);
    var signed := start < |s| && (s[start] == '+' || s[start] == '-');
    var first := if signed then start + 1 else start;
    var end := DigitsEnd(s, first);
    if end == first then None
    else
      var value := Decimal(s[first..end]);
      if value >= UINT64_LIMIT then None
      else Some((if signed && s[start] == '-' && value > 0 then UINT64_LIMIT - value else value, end))
  }

  // --- The term ---

  predicate IsSeparator(c: char) {
    c == ' ' || c == '\t' || c == ':' || c == ',' || c == ';'
  }

  function SkipSeparators(s: string, i: nat): (j: nat)
    requires i <= |s|
    ensures i <= j <= |s|
    ensures forall k :: i <= k < j ==> IsSeparator(s[k])
    ensures j < |s| ==> !IsSeparator(s[j])
    decreases |s| - i
  {
    if i < |s| && IsSeparator(s[i]) then SkipSeparators(s, i + 1) else i
  }

  datatype Tag = SizeTag | HashTag

  predicate TagAt(s: string, i: nat, tag: Tag): (found: bool)
    requires i <= |s|
    ensures found ==> i + 2 <= |s| && s[i + 1] == '='
  {
    i + 1 < |s| && s[i + 1] == '='
    && (if tag.SizeTag? then s[i] == 'S' || s[i] == 's' else s[i] == 'H' || s[i] == 'h')
  }

  /** Two numbers from position i, the second perhaps tagged, with separators after each and nothing else. */
  function TwoNumbers(s: string, i: nat, second: Option<Tag>): Option<(nat, nat)>
    requires i <= |s|
  {
    var first := Strtoull(s, i);
    if first.None? then None
    else
      var gap := SkipSeparators(s, first.value.1);
      var at := if second.Some? && TagAt(s, gap, second.value) then gap + 2 else gap;
      var last := Strtoull(s, at);
      if last.None? || SkipSeparators(s, last.value.1) != |s| then None
      else Some((first.value.0, last.value.0))
  }

  // The file a term identifies.
  datatype FileId = FileId(size: nat, hash: nat)

  function ParseTerm(s: string): Option<FileId> {
    if TagAt(s, 0, SizeTag) then
      var n := TwoNumbers(s, 2, Some(HashTag));
      if n.None? then None else Some(FileId(n.value.0, n.value.1))
    else if TagAt(s, 0, HashTag) then
      var n := TwoNumbers(s, 2, Some(SizeTag));
      if n.None? then None else Some(FileId(n.value.1, n.value.0))
    else
      var n := TwoNumbers(s, 0, None);
      if n.None? then None else Some(FileId(n.value.0, n.value.1))
  }

  method ParseUint64Token(s: string, cursor: nat) returns (ok: bool, next: nat, value: uint64)
    requires cursor <= |s|
    ensures ok <==> Strtoull(s, cursor).Some?
    ensures ok ==> Strtoull(s, cursor) == Some((value as nat, next))
    ensures !ok ==> next == cursor
  {
    var parsed := Strtoull(s, cursor);
    if parsed.None? {
      return false, cursor, 0;
    }
    ok, next, value := true, parsed.value.1, parsed.value.0 as uint64;
  }

  method SkipIdentitySeparator(s: string, cursor: nat) returns (next: nat)
    requires cursor <= |s|
    ensures next == SkipSeparators(s, cursor)
  {
    next := cursor;
    while next < |s| && IsSeparator(s[next])
      invariant cursor <= next <= |s| && SkipSeparators(s, next) == SkipSeparators(s, cursor)
    {
      next := next + 1;
    }
  }

  /** parse_identity_find_term, moving one cursor over the term. */
  method ParseIdentityFindTerm(s: string) returns (ok: bool, size: uint64, hash: uint64)
    ensures ok <==> ParseTerm(s).Some?
    ensures ok ==> ParseTerm(s) == Some(FileId(size as nat, hash as nat))
  {
    hide Strtoull, TagAt, SkipSeparators;
    var cursor := 0;
    var first: uint64, second: uint64;
    if TagAt(s, cursor, SizeTag) {
      cursor := cursor + 2;
      ok, cursor, first := ParseUint64Token(s, cursor);
      if !ok {
        return false, 0, 0;
      }
      cursor := SkipIdentitySeparator(s, cursor);
      if TagAt(s, cursor, HashTag) {
        cursor := cursor + 2;
      }
      ok, cursor, second := ParseUint64Token(s, cursor);
      if !ok {
        return false, 0, 0;
      }
      cursor := SkipIdentitySeparator(s, cursor);
      if cursor != |s| {
        return false, 0, 0;
      }
      return true, first, second;
    }
    if TagAt(s, cursor, HashTag) {
      cursor := cursor + 2;
      ok, cursor, first := ParseUint64Token(s, cursor);
      if !ok {
        return false, 0, 0;
      }
      cursor := SkipIdentitySeparator(s, cursor);
      if TagAt(s, cursor, SizeTag) {
        cursor := cursor + 2;
      }
      ok, cursor, second := ParseUint64Token(s, cursor);
      if !ok {
        return false, 0, 0;
      }
      cursor := SkipIdentitySeparator(s, cursor);
      if cursor != |s| {
        return false, 0, 0;
      }
      return true, second, first;
    }
    ok, cursor, first := ParseUint64Token(s, cursor);
    if !ok {
      return false, 0, 0;
    }
    cursor := SkipIdentitySeparator(s, cursor);
    ok, cursor, second := ParseUint64Token(s, cursor);
    if !ok {
      return false, 0, 0;
    }
    cursor := SkipIdentitySeparator(s, cursor);
    if cursor != |s| {
      return false, 0, 0;
    }
    return true, first, second;
  }

  // --- Printing and parsing undo each other ---

  lemma {:induction false} DigitsEndAt(s: string, i: nat, j: nat)
    requires i <= j <= |s| && (forall k :: i <= k < j ==> IsDigit(s[k])) && (j < |s| ==> !IsDigit(s[j]))
    ensures DigitsEnd(s, i) == j
    decreases j - i
  {
    if i < j {
      DigitsEndAt(s, i + 1, j);
    }
  }

  lemma {:induction false} SeparatorsEndAt(s: string, i: nat, j: nat)
    requires i <= j <= |s| && (forall k :: i <= k < j ==> IsSeparator(s[k])) && (j < |s| ==> !IsSeparator(s[j]))
    ensures SkipSeparators(s, i) == j
    decreases j - i
  {
    if i < j {
      SeparatorsEndAt(s, i + 1, j);
    }
  }

  ghost predicate At(s: string, i: nat, text: string) {
    i + |text| <= |s| && s[i..i + |text|] == text
  }

  lemma CharAt(s: string, i: nat, text: string, k: nat)
    requires At(s, i, text) && k < |text|
    ensures s[i + k] == text[k]
  {
    assert s[i..i + |text|][k] == text[k];
  }

  /** A printed number not followed by a digit is read back whole. */
  lemma NumberAt(s: string, i: nat, n: nat)
    requires n < UINT64_LIMIT && At(s, i, Print(n))
    requires i + |Print(n)| < |s| ==> !IsDigit(s[i + |Print(n)|])
    ensures Strtoull(s, i) == Some((n, i + |Print(n)|))
  {
    hide Print;
    var end := i + |Print(n)|;
    forall k | i <= k < end
      ensures IsDigit(s[k])
    {
      CharAt(s, i, Print(n), k - i);
    }
    DigitsEndAt(s, i, end);
    DecimalOfPrint(n);
  }

  predicate AllSeparators(s: string) {
    forall k :: 0 <= k < |s| ==> IsSeparator(s[k])
  }

  lemma GapAt(s: string, i: nat, gap: string)
    requires At(s, i, gap) && AllSeparators(gap) && (i + |gap| < |s| ==> !IsSeparator(s[i + |gap|]))
    ensures SkipSeparators(s, i) == i + |gap|
  {
    hide IsSeparator;
    forall k | i <= k < i + |gap|
      ensures IsSeparator(s[k])
    {
      CharAt(s, i, gap, k - i);
    }
    SeparatorsEndAt(s, i, i + |gap|);
  }

  predicate IsTag(s: string, tag: Tag) {
    if tag.SizeTag? then s == "S=" || s == "s=" else s == "H=" || s == "h="
  }

  // A term in pieces: two numbers, separators after each, and an optional tag before the second; what stands between
  // the numbers is not empty.
  datatype Pieces = Pieces(first: nat, gap: string, tagText: string, second: nat, tail: string) {
    predicate Valid(tag: Option<Tag>) {
      && first < UINT64_LIMIT && second < UINT64_LIMIT && AllSeparators(gap) && AllSeparators(tail)
      && (tagText == "" || (tag.Some? && IsTag(tagText, tag.value)))
      && gap + tagText != ""
    }

    function Text(): string {
      Print(first) + gap + tagText + Print(second) + tail
    }
  }

  lemma PiecesAt(before: string, p: Pieces)
    ensures var s := before + p.Text();
            var i := |before|;
            var j := i + |Print(p.first)|;
            var k := j + |p.gap| + |p.tagText|;
            && At(s, i, Print(p.first)) && At(s, j, p.gap) && At(s, j + |p.gap|, p.tagText)
            && At(s, k, Print(p.second)) && At(s, k + |Print(p.second)|, p.tail)
            && k + |Print(p.second)| + |p.tail| == |s|
  {
    hide Print;
  }

  /** The character after the first number is not a digit, and the one after the gap is not a separator. */
  lemma Boundaries(s: string, j: nat, p: Pieces, tag: Option<Tag>)
    requires p.Valid(tag) && At(s, j, p.gap) && At(s, j + |p.gap|, p.tagText)
    requires At(s, j + |p.gap| + |p.tagText|, Print(p.second))
    ensures j < |s| && !IsDigit(s[j])
    ensures j + |p.gap| < |s| && !IsSeparator(s[j + |p.gap|])
    ensures tag.Some? ==> (TagAt(s, j + |p.gap|, tag.value) <==> p.tagText != "")
  {
    hide Print;
    CharAt(s, j + |p.gap| + |p.tagText|, Print(p.second), 0);
    if p.tagText != "" {
      CharAt(s, j + |p.gap|, p.tagText, 0);
      CharAt(s, j + |p.gap|, p.tagText, 1);
    }
    if p.gap != "" {
      CharAt(s, j, p.gap, 0);
    }
  }

  lemma TailStart(s: string, i: nat, p: Pieces, tag: Option<Tag>)
    requires p.Valid(tag) && At(s, i, p.tail) && i + |p.tail| == |s|
    ensures i < |s| ==> !IsDigit(s[i])
  {
    hide Print;
    if p.tail != "" {
      CharAt(s, i, p.tail, 0);
    }
  }

  /** Two numbers with any separators around an optional tag are read in order. */
  lemma TwoNumbersAt(before: string, p: Pieces, tag: Option<Tag>)
    requires p.Valid(tag)
    ensures TwoNumbers(before + p.Text(), |before|, tag) == Some((p.first, p.second))
  {
    hide Strtoull, SkipSeparators, Print, TagAt, At, Pieces.Text, IsDigit, IsSeparator;
    var s := before + p.Text();
    var j := |before| + |Print(p.first)|;
    var k := j + |p.gap| + |p.tagText|;
    PiecesAt(before, p);
    Boundaries(s, j, p, tag);
    TagWidth(p, tag);
    NumberAt(s, |before|, p.first);
    GapAt(s, j, p.gap);
    TailStart(s, k + |Print(p.second)|, p, tag);
    NumberAt(s, k, p.second);
    GapAt(s, k + |Print(p.second)|, p.tail);
  }

  lemma TagWidth(p: Pieces, tag: Option<Tag>)
    requires p.Valid(tag)
    ensures p.tagText == "" || |p.tagText| == 2
    ensures tag.None? ==> p.tagText == ""
  {
  }

  /** `S H`: two plain numbers with any separators, at least one of them in between. */
  lemma ParsePlain(p: Pieces)
    requires p.Valid(None)
    ensures ParseTerm(p.Text()) == Some(FileId(p.first, p.second))
  {
    hide TwoNumbers, Print;
    TwoNumbersAt("", p, None);
    assert "" + p.Text() == p.Text();
    DigitsAreNotTags(p);
  }

  lemma DigitsAreNotTags(p: Pieces)
    ensures !TagAt(p.Text(), 0, SizeTag) && !TagAt(p.Text(), 0, HashTag)
  {
    hide Print;
    assert p.Text()[0] == Print(p.first)[0];
  }

  /** `S=.. H=..` and `H=.. S=..`, in either case, with any separators; the second tag may be left out if there is a
      separator in its place. */
  lemma ParseTagged(tag: Tag, tagText: string, p: Pieces)
    requires IsTag(tagText, tag) && p.Valid(Some(if tag.SizeTag? then HashTag else SizeTag))
    ensures ParseTerm(tagText + p.Text())
         == Some(if tag.SizeTag? then FileId(p.first, p.second) else FileId(p.second, p.first))
  {
    hide TwoNumbers, Print, Pieces.Text;
    var s := tagText + p.Text();
    assert s[0] == tagText[0] && s[1] == tagText[1];
    TwoNumbersAt(tagText, p, Some(if tag.SizeTag? then HashTag else SizeTag));
  }

  const TERM_BUFFER: nat := 64

  /** build_identity_find_term: fails when the term and its terminator do not fit the buffer. */
  function BuildIdentityTerm(size: nat, hash: nat): Option<string> {
    var term := Print(size) + " " + Print(hash);
    if |term| >= TERM_BUFFER then None else Some(term)
  }

  /** For all 64-bit sizes and hashes the client's term fits, and the server reads back exactly the pair. */
  lemma IdentityRoundTrip(size: nat, hash: nat)
    requires size < UINT64_LIMIT && hash < UINT64_LIMIT
    ensures BuildIdentityTerm(size, hash).Some? && |BuildIdentityTerm(size, hash).value| <= 41
    ensures ParseTerm(BuildIdentityTerm(size, hash).value) == Some(FileId(size, hash))
  {
    Uint64HasTwentyDigits(size);
    Uint64HasTwentyDigits(hash);
    var p := Pieces(size, " ", "", hash, "");
    ParsePlain(p);
    hide Print, ParseTerm;
    assert p.Text() == Print(size) + " " + Print(hash);
  }
}
