/** Shortening a tool result for the prompt: a true prefix, a marker that accounts for what is missing,
    and a true suffix. */
module BoundedExcerpt {
  import opened Wrappers
  import opened Decimals

  /** Bytes of a character in UTF-8. */
  function Utf8Width(c: char): nat {
    if c < 0x80 as char then 1 else if c < 0x800 as char then 2 else if c as int < 0x1_0000 then 3 else 4
  }

  function Utf8Length(s: string): nat {
    if s == "" then 0 else Utf8Width(s[0]) + Utf8Length(s[1..])
  }

  /** Lines end at a newline; a last line need not. */
  function LineCount(s: string): nat {
    if s == "" then 0
    else if s[0] == '\n' then 1 + LineCount(s[1..])
    else Max(1, LineCount(s[1..]))
  }

  const DIGEST_CHARS: nat := 64

  function Marker(chars: nat, bytes: nat, lines: nat, digest: string): string {
    "\n\n[tool result shortened for prompt: omitted " + Decimal(chars) + " chars/" + Decimal(bytes) + " bytes/"
    + Decimal(lines) + " lines; " + ("raw_sha256=" + digest + "]\n\n")
  }

  /** The marker as a function of its three counters. */
  type MarkerText = (nat, nat, nat) -> string

  function MarkerFor(digest: string): MarkerText {
    (chars: nat, bytes: nat, lines: nat) => Marker(chars, bytes, lines, digest)
  }

  datatype BoundedResult = BoundedResult(content: string, omittedChars: nat, omittedBytes: nat, omittedLines: nat)

  /** The excerpt that keeps the first `p` and the last `q` characters. */
  function Excerpt(result: string, marker: MarkerText, p: nat, q: nat): BoundedResult
    requires p + q <= |result|
  {
    var prefix, middle, suffix := result[..p], result[p..|result| - q], result[|result| - q..];
    var lines := SaturatingSub(LineCount(result), LineCount(prefix) + LineCount(suffix));
    BoundedResult(prefix + marker(|middle|, Utf8Length(middle), lines) + suffix, |middle|, Utf8Length(middle), lines)
  }

  // ---------------------------------------------------------------- counting

  lemma {:induction false} Utf8LengthConcat(a: string, b: string)
    ensures Utf8Length(a + b) == Utf8Length(a) + Utf8Length(b)
  {
    if a == "" {
      assert a + b == b;
    } else {
      assert (a + b)[1..] == a[1..] + b;
      Utf8LengthConcat(a[1..], b);
    }
  }

  lemma {:induction false} CountsAreBounded(s: string)
    ensures LineCount(s) <= |s| <= Utf8Length(s)
  {
    if s != "" {
      CountsAreBounded(s[1..]);
    }
  }

  /** The octets of a character, as in section 3 of RFC 3629. */
  function Encoded(c: char): seq<int> {
    var n := c as int;
    if n < 0x80 then [n]
    else if n < 0x800 then [0xC0 + n / 0x40, Tail(n)]
    else if n < 0x1_0000 then [0xE0 + n / 0x40 / 0x40, Tail(n / 0x40), Tail(n)]
    else [0xF0 + n / 0x40 / 0x40 / 0x40, Tail(n / 0x40 / 0x40), Tail(n / 0x40), Tail(n)]
  }

  /** The octet for the last six bits of a number. */
  function Tail(n: int): int {
    0x80 + n % 0x40
  }

  /** The number that the octets stand for: the first has its own part of it, the others six bits each. */
  function Decoded(octets: seq<int>): int
    requires octets != []
  {
    if |octets| == 1 then octets[0] - Lead(octets[0])
    else Decoded(octets[..|octets| - 1]) * 0x40 + octets[|octets| - 1] - 0x80
  }

  /** What marks a first octet: it tells how many there are. */
  function Lead(octet: int): int {
    if octet < 0x80 then 0 else if octet < 0xE0 then 0xC0 else if octet < 0xF0 then 0xE0 else 0xF0
  }

  ghost predicate WellFormed(octets: seq<int>) {
    && 1 <= |octets| <= 4
    && (forall i :: 1 <= i < |octets| ==> 0x80 <= octets[i] < 0xC0)
    && match |octets|
       case 1 => 0 <= octets[0] < 0x80
       case 2 => 0xC0 <= octets[0] < 0xE0
       case 3 => 0xE0 <= octets[0] < 0xF0
       case _ => 0xF0 <= octets[0] < 0xF8
  }

  lemma DecodedIs(octets: seq<int>)
    requires 1 <= |octets| <= 4
    ensures var first := octets[0] - Lead(octets[0]);
            Decoded(octets) == match |octets|
              case 1 => first
              case 2 => first * 0x40 + octets[1] - 0x80
              case 3 => (first * 0x40 + octets[1] - 0x80) * 0x40 + octets[2] - 0x80
              case _ => ((first * 0x40 + octets[1] - 0x80) * 0x40 + octets[2] - 0x80) * 0x40 + octets[3] - 0x80
  {
    if |octets| > 1 {
      DecodedIs(octets[..|octets| - 1]);
    }
  }

  /** A character's width is the number of octets that encode it, which decode to it again. */
  lemma Utf8WidthIsEncoded(c: char)
    ensures |Encoded(c)| == Utf8Width(c) && WellFormed(Encoded(c)) && Decoded(Encoded(c)) == c as int
  {
    DecodedIs(Encoded(c));
  }

  /** No fewer octets stand for the character. */
  lemma Utf8WidthIsLeast(c: char, octets: seq<int>)
    requires WellFormed(octets) && Decoded(octets) == c as int
    ensures Utf8Width(c) <= |octets|
  {
    DecodedIs(octets);
  }

  function EncodedText(s: string): seq<int> {
    if s == "" then [] else Encoded(s[0]) + EncodedText(s[1..])
  }

  lemma {:induction false} Utf8LengthIsEncoded(s: string)
    ensures Utf8Length(s) == |EncodedText(s)|
  {
    if s != "" {
      Utf8WidthIsEncoded(s[0]);
      Utf8LengthIsEncoded(s[1..]);
    }
  }

  /** The lines are counted by their newlines, and a last line without one counts as well. */
  lemma {:induction false} LineCountIsNewlines(s: string)
    ensures LineCount(s) == multiset(s)['\n'] + if s != "" && s[|s| - 1] != '\n' then 1 else 0
  {
    if s != "" {
      assert s == [s[0]] + s[1..];
      LineCountIsNewlines(s[1..]);
    }
  }

  predicate IsDigit(c: char) {
    '0' <= c <= '9'
  }

  ghost predicate StandsAt(text: string, part: string, i: nat) {
    i + |part| <= |text| && text[i..i + |part|] == part
  }

  /** Somewhere the text has the number, from its first digit on, followed by the unit. */
  ghost predicate Tells(text: string, n: nat, unit: string) {
    exists i: nat :: StandsAt(text, Decimal(n) + unit, i) && 0 < i <= |text| && !IsDigit(text[i - 1])
  }

  lemma NumberTells(front: string, n: nat, unit: string)
    requires front != "" && !IsDigit(front[|front| - 1])
    ensures Tells(front + Decimal(n) + unit, n, unit)
  {
    var text, part := front + Decimal(n) + unit, Decimal(n) + unit;
    assert text == front + part && text[|front|..] == part;
    assert StandsAt(text, part, |front|);
  }

  lemma LongerTells(text: string, more: string, n: nat, unit: string)
    requires Tells(text, n, unit)
    ensures Tells(text + more, n, unit)
  {
    var part := Decimal(n) + unit;
    var i: nat :| StandsAt(text, part, i) && 0 < i <= |text| && !IsDigit(text[i - 1]);
    assert (text + more)[i..i + |part|] == text[i..i + |part|];
    assert StandsAt(text + more, part, i) && (text + more)[i - 1] == text[i - 1];
  }

  /** Each counter stands in the marker in front of its unit. */
  lemma MarkerTells(chars: nat, bytes: nat, lines: nat, digest: string)
    ensures var marker := MarkerFor(digest)(chars, bytes, lines);
            Tells(marker, chars, " chars/") && Tells(marker, bytes, " bytes/") && Tells(marker, lines, " lines; ")
  {
    var lead, back := "\n\n[tool result shortened for prompt: omitted ", "raw_sha256=" + digest + "]\n\n";
    var c, b, l := Decimal(chars), Decimal(bytes), Decimal(lines);
    var upToChars := lead + c + " chars/";
    var upToBytes := upToChars + b + " bytes/";
    var upToLines := upToBytes + l + " lines; ";
    NumberTells(lead, chars, " chars/");
    NumberTells(upToChars, bytes, " bytes/");
    NumberTells(upToBytes, lines, " lines; ");
    LongerTells(upToChars, b, chars, " chars/");
    LongerTells(upToChars + b, " bytes/", chars, " chars/");
    LongerTells(upToBytes, l, chars, " chars/");
    LongerTells(upToBytes, l, bytes, " bytes/");
    LongerTells(upToBytes + l, " lines; ", chars, " chars/");
    LongerTells(upToBytes + l, " lines; ", bytes, " bytes/");
    LongerTells(upToLines, back, chars, " chars/");
    LongerTells(upToLines, back, bytes, " bytes/");
    LongerTells(upToLines, back, lines, " lines; ");
  }

  /** The marker has 145 characters besides its three counters. */
  lemma MarkerLength(chars: nat, bytes: nat, lines: nat, digest: string)
    requires |digest| == DIGEST_CHARS
    ensures |Marker(chars, bytes, lines, digest)| == 145 + |Decimal(chars)| + |Decimal(bytes)| + |Decimal(lines)|
  {
  }

  lemma Utf8LengthSplit(result: string, p: nat, q: nat)
    requires p + q <= |result|
    ensures Utf8Length(result) ==
              Utf8Length(result[..p]) + Utf8Length(result[p..|result| - q]) + Utf8Length(result[|result| - q..])
  {
    var middle, suffix := result[p..|result| - q], result[|result| - q..];
    assert result == result[..p] + (middle + suffix);
    Utf8LengthConcat(result[..p], middle + suffix);
    Utf8LengthConcat(middle, suffix);
  }

  /** Kept and omitted parts add up, in characters and in bytes. */
  lemma ExcerptAccounts(result: string, marker: MarkerText, p: nat, q: nat)
    requires p + q <= |result|
    ensures var r := Excerpt(result, marker, p, q);
            && r.content
               == result[..p] + marker(r.omittedChars, r.omittedBytes, r.omittedLines) + result[|result| - q..]
            && r.omittedChars == |result| - (p + q)
            && r.omittedBytes == Utf8Length(result) - (Utf8Length(result[..p]) + Utf8Length(result[|result| - q..]))
            && r.omittedChars <= r.omittedBytes <= Utf8Length(result)
            && r.omittedLines <= LineCount(result)
  {
    Utf8LengthSplit(result, p, q);
    CountsAreBounded(result[p..|result| - q]);
  }

  /** With 64-bit counters an excerpt is at most 205 characters longer than what it keeps. */
  lemma ExcerptLength(result: string, digest: string, p: nat, q: nat)
    requires p + q <= |result| && |digest| == DIGEST_CHARS && Utf8Length(result) <= WORD_MAX
    ensures |Excerpt(result, MarkerFor(digest), p, q).content| <= p + q + 205
  {
    var r := Excerpt(result, MarkerFor(digest), p, q);
    ExcerptAccounts(result, MarkerFor(digest), p, q);
    CountsAreBounded(result);
    MarkerIsShort(r.omittedChars, r.omittedBytes, r.omittedLines, digest);
  }

  lemma MarkerIsShort(chars: nat, bytes: nat, lines: nat, digest: string)
    requires |digest| == DIGEST_CHARS && chars <= WORD_MAX && bytes <= WORD_MAX && lines <= WORD_MAX
    ensures |MarkerFor(digest)(chars, bytes, lines)| <= 205
  {
    MarkerLength(chars, bytes, lines, digest);
    WordHasAtMost20Digits(chars);
    WordHasAtMost20Digits(bytes);
    WordHasAtMost20Digits(lines);
  }

  // ---------------------------------------------------------------- the shrinking loop

  /** The excerpt from counters taken on the kept parts alone. */
  lemma ExcerptFromKept(result: string, marker: MarkerText, p: nat, q: nat)
    requires p + q <= |result|
    ensures var prefix, suffix := result[..p], result[|result| - q..];
            var chars := SaturatingSub(|result|, |prefix| + |suffix|);
            var bytes := SaturatingSub(Utf8Length(result), Utf8Length(prefix) + Utf8Length(suffix));
            var lines := SaturatingSub(LineCount(result), LineCount(prefix) + LineCount(suffix));
            Excerpt(result, marker, p, q)
            == BoundedResult(prefix + marker(chars, bytes, lines) + suffix, chars, bytes, lines)
  {
    Utf8LengthSplit(result, p, q);
  }

  /** One turn of the loop: the excerpt with the given prefix and suffix, and its counters. */
  method Render(result: string, rawLines: nat, prefixChars: nat, suffix: string, ghost q: nat, marker: MarkerText)
    returns (r: BoundedResult)
    requires prefixChars + q <= |result| && suffix == result[|result| - q..] && rawLines == LineCount(result)
    ensures r == Excerpt(result, marker, prefixChars, q)
  {
    var prefix := result[..prefixChars];
    var omittedChars := SaturatingSub(|result|, |prefix| + |suffix|);
    var omittedBytes := SaturatingSub(Utf8Length(result), Utf8Length(prefix) + Utf8Length(suffix));
    var omittedLines := SaturatingSub(rawLines, LineCount(prefix) + LineCount(suffix));
    ExcerptFromKept(result, marker, prefixChars, q);
    var content := prefix + marker(omittedChars, omittedBytes, omittedLines) + suffix;
    return BoundedResult(content, omittedChars, omittedBytes, omittedLines);
  }

  /** What a bound leaves for the two kept parts once the marker's reserve is set aside. */
  function Available(maxChars: nat): nat {
    SaturatingSub(maxChars, Min(256, Max(maxChars / 2, 1)))
  }

  function SuffixChars(maxChars: nat): nat {
    Available(maxChars) / 3
  }

  function PrefixChars(maxChars: nat): nat {
    Available(maxChars) - SuffixChars(maxChars)
  }

  /** Half of a small bound, and 256 characters of a larger one, are set aside for the marker; of the rest
      the suffix gets a third. */
  lemma PlannedParts(maxChars: nat)
    ensures maxChars >= 512 ==> PrefixChars(maxChars) + SuffixChars(maxChars) == maxChars - 256
    ensures 2 <= maxChars < 512 ==> PrefixChars(maxChars) + SuffixChars(maxChars) == (maxChars + 1) / 2
    ensures maxChars < 2 ==> PrefixChars(maxChars) == SuffixChars(maxChars) == 0
    ensures 2 * SuffixChars(maxChars) <= PrefixChars(maxChars) <= 2 * SuffixChars(maxChars) + 2
  {
  }

  /** `r` keeps the full suffix and `p` leading characters: all that were planned, unless the excerpt
      with those is too long; and it fits, unless no prefix is left to give up. */
  ghost predicate Shortens(result: string, marker: MarkerText, maxChars: nat, p: nat, r: BoundedResult) {
    var q := SuffixChars(maxChars);
    && p <= PrefixChars(maxChars)
    && p + q <= PrefixChars(maxChars) + q <= |result|
    && r == Excerpt(result, marker, p, q)
    && (p < PrefixChars(maxChars) ==> |Excerpt(result, marker, PrefixChars(maxChars), q).content| > maxChars)
    && (p > 0 ==> |r.content| <= maxChars)
  }

  /** Short results pass unchanged; a longer one becomes an excerpt whose parts never overlap. */
  method BoundToolResult(result: string, maxChars: nat, digest: string) returns (r: BoundedResult)
    ensures |result| <= maxChars ==> r == BoundedResult(result, 0, 0, 0)
    ensures |result| > maxChars ==> exists p :: Shortens(result, MarkerFor(digest), maxChars, p, r)
  {
    var rawChars := |result|;
    if rawChars <= maxChars {
      return BoundedResult(result, 0, 0, 0);
    }
    var rawLines := LineCount(result);
    var markerReserve := Min(256, Max(maxChars / 2, 1));
    var available := SaturatingSub(maxChars, markerReserve);
    var suffixChars := available / 3;
    var suffix := result[rawChars - suffixChars..];
    r := Shrink(result, rawLines, suffix, maxChars, MarkerFor(digest));
  }

  /** The loop: the prefix gives up what the excerpt is too long by. */
  method Shrink(result: string, rawLines: nat, suffix: string, maxChars: nat, marker: MarkerText)
    returns (r: BoundedResult)
    requires |result| > maxChars && rawLines == LineCount(result)
    requires SuffixChars(maxChars) <= |result| && suffix == result[|result| - SuffixChars(maxChars)..]
    ensures exists p :: Shortens(result, marker, maxChars, p, r)
  {
    var prefixChars: nat := SaturatingSub(Available(maxChars), |suffix|);
    ghost var q := SuffixChars(maxChars);
    ghost var planned := Excerpt(result, marker, prefixChars, q);
    while true
      invariant prefixChars <= PrefixChars(maxChars)
      invariant prefixChars < PrefixChars(maxChars) ==> |planned.content| > maxChars
      decreases prefixChars
    {
      r := Render(result, rawLines, prefixChars, suffix, q, marker);
      var renderedChars := |r.content|;
      if renderedChars <= maxChars || prefixChars == 0 {
        assert Shortens(result, marker, maxChars, prefixChars, r);
        return r;
      }
      prefixChars := SaturatingSub(prefixChars, SaturatingSub(renderedChars, maxChars));
    }
  }

  /** From 256 characters up every excerpt of a 64-bit text fits the bound; from 410 up nothing of the
      planned prefix is given up, so the excerpt is known beforehand. */
  lemma ExcerptFits(result: string, digest: string, maxChars: nat, p: nat, r: BoundedResult)
    requires |digest| == DIGEST_CHARS && Utf8Length(result) <= WORD_MAX && |result| > maxChars
    requires Shortens(result, MarkerFor(digest), maxChars, p, r)
    ensures maxChars >= 256 ==> |r.content| <= maxChars
    ensures maxChars >= 410 ==> r == Excerpt(result, MarkerFor(digest), PrefixChars(maxChars), SuffixChars(maxChars))
  {
    ExcerptLength(result, digest, p, SuffixChars(maxChars));
    ExcerptLength(result, digest, PrefixChars(maxChars), SuffixChars(maxChars));
  }

  const MIN_PROMPT_CHARS: nat := 512
  const MAX_PROMPT_CHARS: nat := 16_000

  /** The bound callers pass: three eighths of the usable capacity, within limits. */
  function CharBudget(usableCapacity: nat): (budget: nat)
    ensures MIN_PROMPT_CHARS <= budget <= MAX_PROMPT_CHARS
  {
    Max(MIN_PROMPT_CHARS, Min(SaturatingMul(usableCapacity, 3) / 8, MAX_PROMPT_CHARS))
  }

  /** Within its limits the budget is three eighths, rounded down. */
  lemma CharBudgetIsThreeEighths(usableCapacity: nat)
    requires 3 * usableCapacity <= WORD_MAX
    ensures var budget := CharBudget(usableCapacity);
            if 3 * usableCapacity < 8 * 512 then budget == 512
            else if 3 * usableCapacity > 8 * 16_000 then budget == 16_000
            else 8 * budget <= 3 * usableCapacity < 8 * (budget + 1)
  {
  }
}
