/** The lines shown around the hunks of a diff: overlapping and adjacent ranges merge, and the numbered
    lines are rendered up to a budget. */
module HunkContext {
  import opened Wrappers
  import opened Decimals

  /** The new side of one hunk header. */
  datatype Hunk = Hunk(start: nat, count: nat)

  /** Line numbers from `first` to `last`, both included. */
  datatype Range = Range(first: nat, last: nat)

  const CONTEXT_LINES: nat := 3

  /** A hunk with three lines around it. The sum `count + 2` is taken in 64 bits. */
  function Around(hunk: Hunk): Range {
    Range(Max(SaturatingSub(hunk.start, CONTEXT_LINES), 1),
          SaturatingAdd(hunk.start, (hunk.count + 2) % (WORD_MAX + 1)))
  }

  predicate Within(range: Range, line: nat) {
    range.first <= line <= range.last
  }

  ghost predicate Covers(ranges: seq<Range>, line: nat) {
    exists i :: 0 <= i < |ranges| && Within(ranges[i], line)
  }

  // ---------------------------------------------------------------- merging

  predicate Before(a: Range, b: Range) {
    a.first < b.first || (a.first == b.first && a.last <= b.last)
  }

  function InsertRange(range: Range, sorted: seq<Range>): (r: seq<Range>)
    ensures forall x :: x in r <==> x == range || x in sorted
  {
    if sorted == [] then [range]
    else if Before(range, sorted[0]) then [range] + sorted
    else [sorted[0]] + InsertRange(range, sorted[1..])
  }

  function Sorted(ranges: seq<Range>): (r: seq<Range>)
    ensures forall x :: x in r <==> x in ranges
  {
    if ranges == [] then [] else InsertRange(ranges[0], Sorted(ranges[1..]))
  }

  ghost predicate InOrder(ranges: seq<Range>) {
    forall i, j :: 0 <= i < j < |ranges| ==> ranges[i].first <= ranges[j].first
  }

  /** Extends the last range if the next one touches it, else starts a new one. */
  function Absorb(merged: seq<Range>, range: Range): seq<Range> {
    var n := |merged|;
    if n > 0 && range.first <= SaturatingAdd(merged[n - 1].last, 1) then
      merged[..n - 1] + [Range(merged[n - 1].first, Max(merged[n - 1].last, range.last))]
    else merged + [range]
  }

  function Merge(sorted: seq<Range>): seq<Range> {
    if sorted == [] then [] else Absorb(Merge(sorted[..|sorted| - 1]), sorted[|sorted| - 1])
  }

  /** The ranges of the hunks that add lines, in header order. */
  function RangesOf(hunks: seq<Hunk>): seq<Range> {
    if hunks == [] then []
    else RangesOf(hunks[..|hunks| - 1]) + if hunks[|hunks| - 1].count > 0 then [Around(hunks[|hunks| - 1])] else []
  }

  method NewHunkRanges(hunks: seq<Hunk>) returns (merged: seq<Range>)
    ensures merged == Merge(Sorted(RangesOf(hunks)))
  {
    var ranges := [];
    for i := 0 to |hunks|
      invariant ranges == RangesOf(hunks[..i])
    {
      assert hunks[..i + 1][..i] == hunks[..i];
      if hunks[i].count > 0 {
        ranges := ranges + [Around(hunks[i])];
      }
    }
    assert hunks[..|hunks|] == hunks;
    merged := MergeRanges(Sorted(ranges));
  }

  /** The merging loop updates the last merged range in place. */
  method MergeRanges(ranges: seq<Range>) returns (merged: seq<Range>)
    ensures merged == Merge(ranges)
  {
    merged := [];
    for i := 0 to |ranges|
      invariant merged == Merge(ranges[..i])
    {
      MergeNext(ranges, i);
      var range, n := ranges[i], |merged|;
      if n > 0 && range.first <= SaturatingAdd(merged[n - 1].last, 1) {
        AbsorbInPlace(merged, range);
        merged := merged[n - 1 := merged[n - 1].(last := Max(merged[n - 1].last, range.last))];
      } else {
        merged := merged + [range];
      }
    }
    assert ranges[..|ranges|] == ranges;
  }

  lemma MergeNext(ranges: seq<Range>, i: nat)
    requires i < |ranges|
    ensures Merge(ranges[..i + 1]) == Absorb(Merge(ranges[..i]), ranges[i])
  {
    assert ranges[..i + 1][..i] == ranges[..i];
  }

  lemma AbsorbInPlace(merged: seq<Range>, range: Range)
    requires merged != [] && range.first <= SaturatingAdd(merged[|merged| - 1].last, 1)
    ensures var last := merged[|merged| - 1];
            Absorb(merged, range) == merged[|merged| - 1 := last.(last := Max(last.last, range.last))]
  {
  }

  // ---------------------------------------------------------------- what merging achieves

  /** At least one uncovered line lies between a range and the next. */
  ghost predicate Separated(ranges: seq<Range>) {
    forall i, j :: 0 <= i < j < |ranges| ==> Apart(ranges[i], ranges[j])
  }

  predicate Apart(a: Range, b: Range) {
    a.last + 1 < b.first
  }

  /** Every range has a line, and its numbers are 64-bit words. */
  ghost predicate Proper(ranges: seq<Range>) {
    forall i :: 0 <= i < |ranges| ==> ProperRange(ranges[i])
  }

  predicate ProperRange(range: Range) {
    range.first <= range.last <= WORD_MAX
  }

  ghost predicate Lexicographic(ranges: seq<Range>) {
    forall i, j :: 0 <= i < j < |ranges| ==> Before(ranges[i], ranges[j])
  }

  lemma {:induction false} InsertKeepsOrder(range: Range, sorted: seq<Range>)
    requires Lexicographic(sorted)
    ensures Lexicographic(InsertRange(range, sorted))
  {
    if sorted != [] && !Before(range, sorted[0]) {
      InsertKeepsOrder(range, sorted[1..]);
      var rest := InsertRange(range, sorted[1..]);
      forall j | 0 <= j < |rest| ensures Before(sorted[0], rest[j]) {
        assert rest[j] in rest;
      }
    }
  }

  lemma {:induction false} SortedIsLexicographic(ranges: seq<Range>)
    ensures Lexicographic(Sorted(ranges))
  {
    if ranges != [] {
      SortedIsLexicographic(ranges[1..]);
      InsertKeepsOrder(ranges[0], Sorted(ranges[1..]));
    }
  }

  lemma CoversSnoc(ranges: seq<Range>, range: Range, line: nat)
    ensures Covers(ranges + [range], line) <==> Covers(ranges, line) || Within(range, line)
  {
    var longer := ranges + [range];
    if Covers(ranges, line) {
      var i :| 0 <= i < |ranges| && Within(ranges[i], line);
      assert Within(longer[i], line);
    }
    assert longer[|ranges|] == range;
  }

  /** Merging separates the ranges, and the last starts no later than any input. */
  lemma {:induction false} MergeSeparates(sorted: seq<Range>)
    requires InOrder(sorted) && Proper(sorted)
    ensures Proper(Merge(sorted)) && Separated(Merge(sorted))
    ensures sorted != [] ==> LastStartsBy(Merge(sorted), sorted[|sorted| - 1].first)
  {
    if sorted != [] {
      var before, range := sorted[..|sorted| - 1], sorted[|sorted| - 1];
      InitInOrder(sorted);
      MergeSeparates(before);
      AbsorbKeepsSeparated(Merge(before), range);
    }
  }

  ghost predicate LastStartsBy(merged: seq<Range>, first: nat) {
    merged != [] ==> merged[|merged| - 1].first <= first
  }

  lemma InitInOrder(sorted: seq<Range>)
    requires sorted != [] && InOrder(sorted) && Proper(sorted)
    ensures var before, range := sorted[..|sorted| - 1], sorted[|sorted| - 1];
            && InOrder(before) && Proper(before) && ProperRange(range)
            && (before != [] ==> before[|before| - 1].first <= range.first)
  {
    var before := sorted[..|sorted| - 1];
    forall i | 0 <= i < |before| ensures ProperRange(before[i]) {
      assert ProperRange(sorted[i]);
    }
    assert ProperRange(sorted[|sorted| - 1]);
  }

  /** Merging keeps the covered lines. */
  lemma {:induction false} MergeCovers(sorted: seq<Range>, line: nat)
    requires InOrder(sorted) && Proper(sorted)
    ensures Covers(Merge(sorted), line) <==> Covers(sorted, line)
  {
    if sorted != [] {
      var before, range := sorted[..|sorted| - 1], sorted[|sorted| - 1];
      assert sorted == before + [range];
      InitInOrder(sorted);
      MergeSeparates(before);
      MergeCovers(before, line);
      AbsorbCovers(Merge(before), range, line);
      CoversSnoc(before, range, line);
    }
  }

  lemma AbsorbCovers(merged: seq<Range>, range: Range, line: nat)
    requires Proper(merged) && ProperRange(range) && LastStartsBy(merged, range.first)
    ensures Covers(Absorb(merged, range), line) <==> Covers(merged, line) || Within(range, line)
  {
    var n := |merged|;
    CoversSnoc(merged, range, line);
    if n > 0 {
      var last := merged[n - 1];
      assert ProperRange(last);
      assert merged == merged[..n - 1] + [last];
      CoversSnoc(merged[..n - 1], last, line);
      CoversSnoc(merged[..n - 1], Range(last.first, Max(last.last, range.last)), line);
    }
  }

  lemma AbsorbKeepsSeparated(merged: seq<Range>, range: Range)
    requires Proper(merged) && Separated(merged) && ProperRange(range) && LastStartsBy(merged, range.first)
    ensures Proper(Absorb(merged, range)) && Separated(Absorb(merged, range))
    ensures Absorb(merged, range) != [] && LastStartsBy(Absorb(merged, range), range.first)
  {
    var after, n := Absorb(merged, range), |merged|;
    forall i, j | 0 <= i < j < |after| ensures Apart(after[i], after[j]) {
      assert j < n ==> Apart(merged[i], merged[j]);
      if j == n {
        assert ProperRange(merged[n - 1]) && ProperRange(merged[i]);
        assert i < n - 1 ==> Apart(merged[i], merged[n - 1]);
      }
    }
  }

  /** Separated ranges are determined by the lines they cover. */
  lemma {:induction false} SeparatedIsCanonical(a: seq<Range>, b: seq<Range>)
    requires Proper(a) && Proper(b) && Separated(a) && Separated(b)
    requires forall line: nat :: Covers(a, line) <==> Covers(b, line)
    ensures a == b
  {
    if a == [] || b == [] {
      assert a != [] ==> ProperRange(a[0]) && Within(a[0], a[0].first) && Covers(b, a[0].first);
      assert b != [] ==> ProperRange(b[0]) && Within(b[0], b[0].first) && Covers(a, b[0].first);
    } else {
      FirstRangeLeads(a, b);
      FirstRangeLeads(b, a);
      forall line: nat ensures Covers(a[1..], line) <==> Covers(b[1..], line) {
        TailCovers(a, line);
        TailCovers(b, line);
      }
      SeparatedIsCanonical(a[1..], b[1..]);
      assert a == [a[0]] + a[1..] && b == [b[0]] + b[1..];
    }
  }

  /** What follows the first range covers the covered lines after it. */
  lemma TailCovers(a: seq<Range>, line: nat)
    requires a != [] && Proper(a) && Separated(a)
    ensures Covers(a[1..], line) <==> Covers(a, line) && line > a[0].last
  {
    if Covers(a[1..], line) {
      var i :| 0 <= i < |a[1..]| && Within(a[1..][i], line);
      assert Within(a[i + 1], line) && Apart(a[0], a[i + 1]);
    }
    if Covers(a, line) && line > a[0].last {
      var i :| 0 <= i < |a| && Within(a[i], line);
      assert Within(a[1..][i - 1], line);
    }
  }

  lemma FirstRangeLeads(a: seq<Range>, b: seq<Range>)
    requires a != [] && b != [] && Proper(a) && Proper(b) && Separated(a) && Separated(b)
    requires forall line: nat :: Covers(a, line) <==> Covers(b, line)
    ensures a[0].first <= b[0].first && (a[0].first == b[0].first ==> a[0].last <= b[0].last)
  {
    assert ProperRange(a[0]) && ProperRange(b[0]);
    assert Within(b[0], b[0].first) && Covers(b, b[0].first);
    var i :| 0 <= i < |a| && Within(a[i], b[0].first);
    assert i > 0 ==> Apart(a[0], a[i]);
    var gap := b[0].last + 1;
    GapIsUncovered(b);
    assert Within(a[0], gap) ==> Covers(a, gap);
  }

  lemma GapIsUncovered(b: seq<Range>)
    requires b != [] && Proper(b) && Separated(b)
    ensures !Covers(b, b[0].last + 1)
  {
    forall i | 0 <= i < |b| ensures !Within(b[i], b[0].last + 1) {
      if i > 0 {
        assert Apart(b[0], b[i]);
      }
    }
  }

  /** The numbers of a hunk header are 64-bit words. */
  ghost predicate Words(hunks: seq<Hunk>) {
    forall i :: 0 <= i < |hunks| ==> hunks[i].start <= WORD_MAX && hunks[i].count <= WORD_MAX
  }

  /** The one header whose range is empty: its count wraps to nothing, and it starts before the first line. */
  const EMPTY_CONTEXT := Hunk(0, WORD_MAX - 1)

  lemma {:induction false} RangesAreProperIff(hunks: seq<Hunk>)
    requires Words(hunks)
    ensures Proper(RangesOf(hunks)) <==> EMPTY_CONTEXT !in hunks
  {
    if hunks != [] {
      var init, last := hunks[..|hunks| - 1], hunks[|hunks| - 1];
      assert hunks == init + [last];
      RangesAreProperIff(init);
      AroundIsProperIff(last);
      if last.count > 0 {
        ProperSnoc(RangesOf(init), Around(last));
      } else {
        assert RangesOf(hunks) == RangesOf(init);
      }
    }
  }

  lemma AroundIsProperIff(hunk: Hunk)
    requires hunk.start <= WORD_MAX && hunk.count <= WORD_MAX
    ensures ProperRange(Around(hunk)) <==> hunk != EMPTY_CONTEXT
  {
    assert (hunk.count + 2) % (WORD_MAX + 1) ==
           if hunk.count + 2 <= WORD_MAX then hunk.count + 2 else hunk.count + 2 - (WORD_MAX + 1);
  }

  lemma ProperSnoc(ranges: seq<Range>, range: Range)
    ensures Proper(ranges + [range]) <==> Proper(ranges) && ProperRange(range)
  {
    var longer := ranges + [range];
    assert longer[|ranges|] == range;
    if Proper(longer) {
      forall i | 0 <= i < |ranges| ensures ProperRange(ranges[i]) {
        assert ProperRange(longer[i]);
      }
    }
  }

  lemma {:induction false} RangesArePositive(hunks: seq<Hunk>)
    ensures Positive(RangesOf(hunks))
  {
    if hunks != [] {
      RangesArePositive(hunks[..|hunks| - 1]);
    }
  }

  ghost predicate SameCoverage(a: seq<Range>, b: seq<Range>) {
    forall line: nat :: Covers(a, line) <==> Covers(b, line)
  }

  /** The range of that one header. */
  const NO_LINES := Range(1, 0)

  ghost predicate Sound(range: Range) {
    range == NO_LINES || (ProperRange(range) && range.first >= 1)
  }

  ghost predicate AllSound(ranges: seq<Range>) {
    forall i :: 0 <= i < |ranges| ==> Sound(ranges[i])
  }

  lemma {:induction false} RangesAreSound(hunks: seq<Hunk>)
    requires Words(hunks)
    ensures AllSound(RangesOf(hunks))
    ensures NO_LINES in RangesOf(hunks) <==> EMPTY_CONTEXT in hunks
  {
    if hunks != [] {
      var init, last := hunks[..|hunks| - 1], hunks[|hunks| - 1];
      assert hunks == init + [last];
      RangesAreSound(init);
      AroundIsProperIff(last);
      if last.count > 0 {
        assert RangesOf(hunks) == RangesOf(init) + [Around(last)];
        assert last == EMPTY_CONTEXT <==> Around(last) == NO_LINES;
      } else {
        assert RangesOf(hunks) == RangesOf(init);
      }
    }
  }

  /** Merging keeps the empty range if it is there and no range covers the first line. */
  ghost predicate KeepsEmpty(ranges: seq<Range>) {
    NO_LINES in ranges && !Covers(ranges, 1)
  }

  ghost function EmptyPart(ranges: seq<Range>): seq<Range> {
    if KeepsEmpty(ranges) then [NO_LINES] else []
  }

  /** Sorted, the empty ranges come first. */
  lemma {:induction false} EmptiesLead(sorted: seq<Range>) returns (n: nat)
    requires Lexicographic(sorted) && AllSound(sorted)
    ensures n <= |sorted| && forall i :: 0 <= i < n ==> sorted[i] == NO_LINES
    ensures Proper(sorted[n..]) && Positive(sorted[n..])
  {
    n := 0;
    if sorted != [] {
      assert Sound(sorted[0]);
      if sorted[0] == NO_LINES {
        assert forall i :: 0 <= i < |sorted[1..]| ==> sorted[1..][i] == sorted[i + 1];
        var m := EmptiesLead(sorted[1..]);
        n := m + 1;
        assert sorted[1..][m..] == sorted[n..];
      } else {
        forall i | 0 <= i < |sorted| ensures ProperRange(sorted[i]) && sorted[i].first >= 1 {
          assert Sound(sorted[i]);
          assert i > 0 ==> Before(sorted[0], sorted[i]);
        }
      }
    }
  }

  lemma AbsorbBehind(front: seq<Range>, merged: seq<Range>, range: Range)
    requires merged != []
    ensures Absorb(front + merged, range) == front + Absorb(merged, range)
  {
    var all, n := front + merged, |merged|;
    assert all[..|all| - 1] == front + merged[..n - 1];
  }

  /** What empty ranges in front of the others merge to: one, unless a range from the first line on
      swallows it. */
  function Front(empties: seq<Range>, ranges: seq<Range>): seq<Range> {
    if empties != [] && (ranges == [] || ranges[0].first != 1) then [NO_LINES] else []
  }

  lemma {:induction false} MergeEmpties(empties: seq<Range>)
    requires forall i :: 0 <= i < |empties| ==> empties[i] == NO_LINES
    ensures Merge(empties) == Front(empties, [])
  {
    if empties != [] {
      MergeEmpties(empties[..|empties| - 1]);
    }
  }

  lemma MergeOne(range: Range)
    ensures Merge([range]) == [range]
  {
    assert [range][..0] == [];
  }

  lemma AbsorbFirst(range: Range)
    requires ProperRange(range) && range.first >= 1
    ensures Absorb([NO_LINES], range) == if range.first == 1 then [range] else [NO_LINES] + [range]
  {
    assert [NO_LINES][..0] == [];
  }

  lemma MergeFirst(empties: seq<Range>, range: Range)
    requires forall i :: 0 <= i < |empties| ==> empties[i] == NO_LINES
    requires ProperRange(range) && range.first >= 1
    ensures Merge(empties + [range]) == Front(empties, [range]) + Merge([range])
    ensures Merge([range]) == [range]
  {
    var all := empties + [range];
    assert all[..|all| - 1] == empties && all[|all| - 1] == range;
    MergeEmpties(empties);
    MergeOne(range);
    AbsorbFirst(range);
  }

  lemma {:induction false} MergeBehindEmpties(empties: seq<Range>, ranges: seq<Range>)
    requires forall i :: 0 <= i < |empties| ==> empties[i] == NO_LINES
    requires Proper(ranges) && Positive(ranges)
    ensures Merge(empties + ranges) == Front(empties, ranges) + Merge(ranges)
    ensures ranges != [] ==> Merge(ranges) != []
    decreases |ranges|
  {
    if ranges == [] {
      assert empties + [] == empties;
      MergeEmpties(empties);
    } else if |ranges| == 1 {
      assert ranges == [ranges[0]] && ProperRange(ranges[0]);
      MergeFirst(empties, ranges[0]);
    } else {
      InitIsProper(ranges);
      MergeBehindEmpties(empties, ranges[..|ranges| - 1]);
      MergeBehindNext(empties, ranges);
    }
  }

  lemma InitIsProper(ranges: seq<Range>)
    requires ranges != [] && Proper(ranges) && Positive(ranges)
    ensures Proper(ranges[..|ranges| - 1]) && Positive(ranges[..|ranges| - 1])
  {
    var init := ranges[..|ranges| - 1];
    forall i | 0 <= i < |init| ensures ProperRange(init[i]) && init[i].first >= 1 {
      assert ProperRange(ranges[i]);
    }
  }

  lemma MergeBehindNext(empties: seq<Range>, ranges: seq<Range>)
    requires |ranges| > 1
    requires var init := ranges[..|ranges| - 1];
             Merge(empties + init) == Front(empties, init) + Merge(init) && Merge(init) != []
    ensures Merge(empties + ranges) == Front(empties, ranges) + Merge(ranges) && Merge(ranges) != []
  {
    var init, last := ranges[..|ranges| - 1], ranges[|ranges| - 1];
    LastOfConcat(empties, ranges);
    MergeLast(empties + ranges);
    MergeLast(ranges);
    AbsorbBehind(Front(empties, init), Merge(init), last);
    AbsorbKeepsSome(Merge(init), last);
  }

  lemma LastOfConcat(empties: seq<Range>, ranges: seq<Range>)
    requires ranges != []
    ensures var all := empties + ranges;
            all[..|all| - 1] == empties + ranges[..|ranges| - 1] && all[|all| - 1] == ranges[|ranges| - 1]
  {
  }

  lemma MergeLast(ranges: seq<Range>)
    requires ranges != []
    ensures Merge(ranges) == Absorb(Merge(ranges[..|ranges| - 1]), ranges[|ranges| - 1])
  {
  }

  lemma AbsorbKeepsSome(merged: seq<Range>, range: Range)
    ensures Absorb(merged, range) != []
  {
  }

  lemma FirstLineCovered(ranges: seq<Range>)
    requires InOrder(ranges) && Proper(ranges) && Positive(ranges)
    ensures Covers(ranges, 1) <==> ranges != [] && ranges[0].first == 1
  {
    if i :| 0 <= i < |ranges| && Within(ranges[i], 1) {
      assert i > 0 ==> ranges[0].first <= ranges[i].first;
      assert ranges[0].first >= 1;
    }
    if ranges != [] && ranges[0].first == 1 {
      assert ProperRange(ranges[0]) && Within(ranges[0], 1);
    }
  }

  lemma TailInOrder(sorted: seq<Range>, n: nat)
    requires Lexicographic(sorted) && n <= |sorted|
    ensures InOrder(sorted[n..])
  {
    var rest := sorted[n..];
    forall i, j | 0 <= i < j < |rest| ensures rest[i].first <= rest[j].first {
      assert Before(sorted[n + i], sorted[n + j]);
    }
  }

  /** The merged ranges: perhaps the empty one, then separated ranges that cover the lines of the input. */
  lemma MergedForm(ranges: seq<Range>) returns (proper: seq<Range>)
    requires AllSound(ranges)
    ensures Merge(Sorted(ranges)) == EmptyPart(ranges) + proper
    ensures Proper(proper) && Positive(proper) && Separated(proper) && SameCoverage(proper, ranges)
  {
    var sorted := Sorted(ranges);
    SortedIsLexicographic(ranges);
    forall i | 0 <= i < |sorted| ensures Sound(sorted[i]) {
      assert sorted[i] in ranges;
    }
    var n := EmptiesLead(sorted);
    var empties, rest := sorted[..n], sorted[n..];
    assert sorted == empties + rest;
    TailInOrder(sorted, n);
    MergeBehindEmpties(empties, rest);
    proper := Merge(rest);
    MergeSeparates(rest);
    forall line: nat ensures Covers(proper, line) <==> Covers(ranges, line) {
      MergeCovers(rest, line);
      RestCovers(ranges, empties, rest, line);
    }
    MergedIsPositive(rest);
    FirstLineCovered(rest);
    assert Covers(ranges, 1) <==> Covers(rest, 1) by {
      RestCovers(ranges, empties, rest, 1);
    }
    EmptyIsListed(ranges, empties, rest);
  }

  lemma EmptyIsListed(ranges: seq<Range>, empties: seq<Range>, rest: seq<Range>)
    requires forall x :: x in empties + rest <==> x in ranges
    requires (forall i :: 0 <= i < |empties| ==> empties[i] == NO_LINES) && Proper(rest)
    ensures NO_LINES in ranges <==> empties != []
  {
    if empties != [] {
      assert empties[0] in empties + rest;
    }
    forall i | 0 <= i < |rest| ensures rest[i] != NO_LINES {
      assert ProperRange(rest[i]);
    }
  }

  lemma RestCovers(ranges: seq<Range>, empties: seq<Range>, rest: seq<Range>, line: nat)
    requires forall x :: x in empties + rest <==> x in ranges
    requires forall i :: 0 <= i < |empties| ==> empties[i] == NO_LINES
    ensures Covers(rest, line) <==> Covers(ranges, line)
  {
    SameElementsCover(empties + rest, ranges, line);
    SameElementsCover(ranges, empties + rest, line);
    SameElementsCover(rest, empties + rest, line);
    if i :| 0 <= i < |empties + rest| && Within((empties + rest)[i], line) {
      assert i >= |empties| && Within(rest[i - |empties|], line);
    }
  }

  lemma MergedIsPositive(rest: seq<Range>)
    requires Positive(rest) && Proper(Merge(rest)) && InOrder(rest) && Proper(rest)
    ensures Positive(Merge(rest))
  {
    var merged := Merge(rest);
    forall i | 0 <= i < |merged| ensures merged[i].first >= 1 {
      assert ProperRange(merged[i]) && Within(merged[i], merged[i].first);
      MergeCovers(rest, merged[i].first);
      var j :| 0 <= j < |rest| && Within(rest[j], merged[i].first);
    }
  }

  // ---------------------------------------------------------------- the lines around hunks

  /** Is `a` one of the lines that the hunk adds? */
  predicate Adds(hunk: Hunk, a: nat) {
    hunk.start <= a < hunk.start + hunk.count
  }

  /** Some added line is at most three lines away. */
  ghost predicate NearAdded(hunk: Hunk, line: nat) {
    exists a: nat :: Adds(hunk, a) && a - 3 <= line <= a + 3
  }

  /** The lines shown for one hunk: line numbers are words and start at one. For a count that is the
      largest word or the one before, `count + 2` wraps, and the lines end near the start of the hunk. */
  ghost predicate ShowsLine(hunk: Hunk, line: nat) {
    && hunk.count > 0 && 1 <= line <= WORD_MAX
    && if hunk.count + 2 <= WORD_MAX then NearAdded(hunk, line)
       else hunk.start - 3 <= line <= hunk.start + (hunk.count + 2 - WORD_MAX - 1)
  }

  ghost predicate Shown(hunks: seq<Hunk>, line: nat) {
    exists i :: 0 <= i < |hunks| && ShowsLine(hunks[i], line)
  }

  lemma AroundShows(hunk: Hunk, line: nat)
    requires hunk.start <= WORD_MAX && 0 < hunk.count <= WORD_MAX
    ensures Within(Around(hunk), line) <==> ShowsLine(hunk, line)
  {
    var sum := hunk.count + 2;
    assert sum % (WORD_MAX + 1) == if sum <= WORD_MAX then sum else sum - (WORD_MAX + 1);
    if sum <= WORD_MAX && Within(Around(hunk), line) {
      var a: nat := if line < hunk.start then hunk.start else Min(line, hunk.start + hunk.count - 1);
      assert Adds(hunk, a) && a - 3 <= line <= a + 3;
    }
  }

  /** A line is covered if and only if it is shown for some hunk. */
  lemma {:induction false} CoversIffShown(hunks: seq<Hunk>, line: nat)
    requires Words(hunks)
    ensures Covers(RangesOf(hunks), line) <==> Shown(hunks, line)
  {
    if hunks != [] {
      var init, last := hunks[..|hunks| - 1], hunks[|hunks| - 1];
      assert hunks == init + [last];
      CoversIffShown(init, line);
      ShownSnoc(init, last, line);
      if last.count > 0 {
        AroundShows(last, line);
        CoversSnoc(RangesOf(init), Around(last), line);
      } else {
        assert RangesOf(hunks) == RangesOf(init);
      }
    }
  }

  lemma ShownSnoc(hunks: seq<Hunk>, hunk: Hunk, line: nat)
    ensures Shown(hunks + [hunk], line) <==> Shown(hunks, line) || ShowsLine(hunk, line)
  {
    var longer := hunks + [hunk];
    assert longer[|hunks|] == hunk;
    if i :| 0 <= i < |hunks| && ShowsLine(hunks[i], line) {
      assert ShowsLine(longer[i], line);
    }
  }

  /** The merged ranges hold exactly the lines within three lines of an added one. */
  lemma MergedRangesShow(hunks: seq<Hunk>, line: nat)
    requires Words(hunks)
    ensures Covers(Merge(Sorted(RangesOf(hunks))), line) <==> Shown(hunks, line)
  {
    RangesAreSound(hunks);
    var proper := MergedForm(RangesOf(hunks));
    CoversIffShown(hunks, line);
    EmptyPartCoversNothing(RangesOf(hunks), proper, line);
  }

  lemma EmptyPartCoversNothing(ranges: seq<Range>, proper: seq<Range>, line: nat)
    ensures Covers(EmptyPart(ranges) + proper, line) <==> Covers(proper, line)
  {
    var all, cut := EmptyPart(ranges) + proper, |EmptyPart(ranges)|;
    if i :| 0 <= i < |proper| && Within(proper[i], line) {
      assert Within(all[cut + i], line);
    }
    if i :| 0 <= i < |all| && Within(all[i], line) {
      assert i >= cut && all[i] == proper[i - cut];
    }
  }

  ghost predicate ShowSameLines(hunks: seq<Hunk>, others: seq<Hunk>) {
    forall line: nat :: Shown(hunks, line) <==> Shown(others, line)
  }

  /** The empty range of the one header that has one is kept if nothing shows the first line. */
  ghost predicate KeepsEmptyContext(hunks: seq<Hunk>) {
    EMPTY_CONTEXT in hunks && !Shown(hunks, 1)
  }

  /** The merged ranges are a canonical form: whatever order and overlap of the hunks, two lists merge to
      the same ranges if and only if they show the same lines and both or neither keep the empty range. */
  lemma HunkRangesAreCanonical(hunks: seq<Hunk>, others: seq<Hunk>)
    requires Words(hunks) && Words(others)
    ensures Merge(Sorted(RangesOf(hunks))) == Merge(Sorted(RangesOf(others))) <==>
              && ShowSameLines(hunks, others) && (KeepsEmptyContext(hunks) <==> KeepsEmptyContext(others))
  {
    var a, b := RangesOf(hunks), RangesOf(others);
    forall line: nat ensures (Covers(a, line) <==> Shown(hunks, line)) && (Covers(b, line) <==> Shown(others, line)) {
      CoversIffShown(hunks, line);
      CoversIffShown(others, line);
    }
    RangesAreSound(hunks);
    RangesAreSound(others);
    MergeIsCanonical(a, b);
  }

  lemma MergeIsCanonical(a: seq<Range>, b: seq<Range>)
    requires AllSound(a) && AllSound(b)
    ensures Merge(Sorted(a)) == Merge(Sorted(b)) <==> SameCoverage(a, b) && (KeepsEmpty(a) <==> KeepsEmpty(b))
  {
    var p := MergedForm(a);
    var q := MergedForm(b);
    if SameCoverage(a, b) {
      SeparatedIsCanonical(p, q);
    }
    if EmptyPart(a) + p == EmptyPart(b) + q {
      FrontsAgree(EmptyPart(a), p, EmptyPart(b), q);
    }
  }

  lemma FrontsAgree(front: seq<Range>, p: seq<Range>, other: seq<Range>, q: seq<Range>)
    requires front in {[], [NO_LINES]} && other in {[], [NO_LINES]}
    requires Proper(p) && Proper(q) && front + p == other + q
    ensures front == other && p == q
  {
    assert p != [] ==> ProperRange(p[0]);
    assert q != [] ==> ProperRange(q[0]);
    assert front != [] ==> (front + p)[0] == NO_LINES;
    assert other != [] ==> (other + q)[0] == NO_LINES;
    assert p == (front + p)[|front|..] && q == (other + q)[|other|..];
  }

  /** The empty range of that one header covers no line and, alone, still stays. */
  lemma EmptyContextIsNotCanonical()
    ensures forall line: nat :: !Shown([EMPTY_CONTEXT], line)
    ensures Merge(Sorted(RangesOf([EMPTY_CONTEXT]))) != Merge(Sorted(RangesOf([])))
  {
    RangesAreSound([EMPTY_CONTEXT]);
    RangesAreSound([]);
    assert [EMPTY_CONTEXT][..0] == [];
    assert RangesOf([EMPTY_CONTEXT]) == [NO_LINES];
    HunkRangesAreCanonical([EMPTY_CONTEXT], []);
  }

  lemma SameElementsCover(a: seq<Range>, b: seq<Range>, line: nat)
    requires forall x :: x in a ==> x in b
    ensures Covers(a, line) ==> Covers(b, line)
  {
    if i :| 0 <= i < |a| && Within(a[i], line) {
      assert a[i] in b;
      var j :| 0 <= j < |b| && b[j] == a[i];
    }
  }

  // ---------------------------------------------------------------- rendering

  predicate AreLines(lines: seq<string>, ks: seq<nat>) {
    forall i :: 0 <= i < |ks| ==> 1 <= ks[i] <= |lines|
  }

  function NumberedLine(lines: seq<string>, k: nat): string
    requires 1 <= k <= |lines|
  {
    Decimal(k) + ": " + lines[k - 1] + "\n"
  }

  function Notice(next: nat, total: nat): string {
    "[current context bounded; next_unshown_line=" + Decimal(next) + "; total_lines=" + Decimal(total) + "]"
  }

  /** The lines of a range that exist among `n` lines. */
  function LinesIn(range: Range, n: nat): (ks: seq<nat>)
    requires range.first >= 1
    ensures forall i :: 0 <= i < |ks| ==> ks[i] == range.first + i && ks[i] <= n
  {
    seq(Max(Min(range.last, n) + 1 - range.first, 0), i requires i >= 0 => range.first + i)
  }

  predicate Positive(ranges: seq<Range>) {
    forall i :: 0 <= i < |ranges| ==> ranges[i].first >= 1
  }

  function RequestedBy(ranges: seq<Range>, n: nat): (ks: seq<nat>)
    requires Positive(ranges)
    ensures forall i :: 0 <= i < |ks| ==> 1 <= ks[i] <= n
  {
    if ranges == [] then [] else LinesIn(ranges[0], n) + RequestedBy(ranges[1..], n)
  }

  /** Without ranges the whole text is requested. */
  function WantedRanges(ranges: seq<Range>, n: nat): seq<Range> {
    if ranges == [] then [Range(1, n)] else ranges
  }

  /** The output so far, the lines in it, and the line at which the budget stopped it. */
  datatype Page = Page(output: string, emitted: set<nat>, stopped: Option<nat>)

  function Emit(lines: seq<string>, maxChars: nat, page: Page, k: nat): Page
    requires 1 <= k <= |lines|
  {
    if page.stopped.Some? || k in page.emitted then page
    else
      var rendered := NumberedLine(lines, k);
      if |page.output| + |rendered| > maxChars then page.(stopped := Some(k))
      else Page(page.output + rendered, page.emitted + {k}, None)
  }

  function EmitAll(lines: seq<string>, maxChars: nat, page: Page, ks: seq<nat>): Page
    requires AreLines(lines, ks)
    decreases |ks|
  {
    if ks == [] then page else EmitAll(lines, maxChars, Emit(lines, maxChars, page, ks[0]), ks[1..])
  }

  lemma {:induction false} StoppedStays(lines: seq<string>, maxChars: nat, page: Page, ks: seq<nat>)
    requires AreLines(lines, ks) && page.stopped.Some?
    ensures EmitAll(lines, maxChars, page, ks) == page
  {
    if ks != [] {
      StoppedStays(lines, maxChars, page, ks[1..]);
    }
  }

  lemma {:induction false} EmitConcat(lines: seq<string>, maxChars: nat, page: Page, a: seq<nat>, b: seq<nat>)
    requires AreLines(lines, a) && AreLines(lines, b)
    ensures AreLines(lines, a + b)
    ensures EmitAll(lines, maxChars, page, a + b) == EmitAll(lines, maxChars, EmitAll(lines, maxChars, page, a), b)
    decreases |a|
  {
    if a == [] {
      assert a + b == b;
    } else {
      assert (a + b)[1..] == a[1..] + b && (a + b)[0] == a[0];
      EmitConcat(lines, maxChars, Emit(lines, maxChars, page, a[0]), a[1..], b);
    }
  }

  /** The inner loop: the lines of one range, until the budget stops it. */
  method RenderRange(lines: seq<string>, range: Range, maxChars: nat, output: string, emitted: set<nat>)
    returns (output': string, emitted': set<nat>, stopped: Option<nat>)
    requires range.first >= 1
    ensures Page(output', emitted', stopped)
            == EmitAll(lines, maxChars, Page(output, emitted, None), LinesIn(range, |lines|))
  {
    output', emitted', stopped := output, emitted, None;
    ghost var all := LinesIn(range, |lines|);
    var line := range.first;
    while line <= Min(range.last, |lines|)
      invariant line - range.first <= |all| && range.first <= line
      invariant EmitAll(lines, maxChars, Page(output', emitted', None), all[line - range.first..])
                == EmitAll(lines, maxChars, Page(output, emitted, None), all)
      decreases |lines| - line
    {
      ghost var rest := all[line - range.first..];
      assert rest[0] == line && rest[1..] == all[line - range.first + 1..];
      if line !in emitted' {
        var rendered := Decimal(line) + ": " + lines[line - 1] + "\n";
        if |output'| + |rendered| > maxChars {
          StoppedStays(lines, maxChars, Page(output', emitted', Some(line)), rest[1..]);
          return output', emitted', Some(line);
        }
        emitted' := emitted' + {line};
        output' := output' + rendered;
      }
      line := line + 1;
    }
  }

  /** What becomes of a finished page. */
  function Closed(page: Page, total: nat): string {
    if page.stopped.Some? then page.output + Notice(page.stopped.value, total)
    else if page.output == "" then "[no current text lines]"
    else page.output
  }

  /** The text that ends a page cut short. */
  method WriteNotice(next: nat, total: nat) returns (notice: string)
    ensures notice == Notice(next, total)
  {
    notice := "[current context bounded; next_unshown_line=" + Decimal(next);
    notice := notice + "; total_lines=" + Decimal(total) + "]";
  }

  method RenderHunkContext(lines: seq<string>, ranges: seq<Range>, maxChars: nat) returns (output: string)
    requires Positive(ranges)
    ensures var wanted := WantedRanges(ranges, |lines|);
            output == Closed(EmitAll(lines, maxChars, Page("", {}, None), RequestedBy(wanted, |lines|)), |lines|)
  {
    var n := |lines|;
    var wanted := if ranges == [] then [Range(1, n)] else ranges;
    ghost var page := EmitAll(lines, maxChars, Page("", {}, None), RequestedBy(wanted, n));
    var emitted: set<nat>;
    output, emitted := "", {};
    for i := 0 to |wanted|
      invariant page == EmitAll(lines, maxChars, Page(output, emitted, None), RequestedBy(wanted[i..], n))
    {
      assert wanted[i..][1..] == wanted[i + 1..];
      EmitConcat(lines, maxChars, Page(output, emitted, None), LinesIn(wanted[i], n), RequestedBy(wanted[i + 1..], n));
      var stopped: Option<nat>;
      output, emitted, stopped := RenderRange(lines, wanted[i], maxChars, output, emitted);
      if stopped.Some? {
        StoppedStays(lines, maxChars, Page(output, emitted, stopped), RequestedBy(wanted[i + 1..], n));
        var notice := WriteNotice(stopped.value, n);
        return output + notice;
      }
    }
    if output == "" {
      output := "[no current text lines]";
    }
  }

  // ---------------------------------------------------------------- what is shown

  function Text(lines: seq<string>, ks: seq<nat>): string
    requires AreLines(lines, ks)
  {
    if ks == [] then "" else Text(lines, ks[..|ks| - 1]) + NumberedLine(lines, ks[|ks| - 1])
  }

  /** The numbers of `ks` not seen before, each where it first occurs. */
  function Unseen(seen: seq<nat>, ks: seq<nat>): seq<nat>
    decreases |ks|
  {
    if ks == [] then []
    else if ks[0] in seen then Unseen(seen, ks[1..])
    else [ks[0]] + Unseen(seen + [ks[0]], ks[1..])
  }

  /** The page shows the first `j` of the lines `ks`: all of them, or as many as fit the budget. */
  ghost predicate ShowsFirst(lines: seq<string>, ks: seq<nat>, maxChars: nat, j: nat, page: Page)
    requires AreLines(lines, ks)
  {
    && j <= |ks|
    && page.output == Text(lines, ks[..j]) && |page.output| <= maxChars
    && page.stopped == (if j < |ks| then Some(ks[j]) else None)
    && (j < |ks| ==> |Text(lines, ks[..j])| + |NumberedLine(lines, ks[j])| > maxChars)
  }

  lemma {:induction false} UnseenAreLines(lines: seq<string>, seen: seq<nat>, ks: seq<nat>)
    requires AreLines(lines, ks)
    ensures AreLines(lines, Unseen(seen, ks))
    decreases |ks|
  {
    if ks == [] {
    } else if ks[0] in seen {
      UnseenAreLines(lines, seen, ks[1..]);
    } else {
      UnseenAreLines(lines, seen + [ks[0]], ks[1..]);
    }
  }

  lemma TextSnoc(lines: seq<string>, seen: seq<nat>, k: nat)
    requires AreLines(lines, seen) && 1 <= k <= |lines|
    ensures AreLines(lines, seen + [k])
    ensures Text(lines, seen + [k]) == Text(lines, seen) + NumberedLine(lines, k)
  {
    assert (seen + [k])[..|seen|] == seen;
  }

  lemma UnseenFirst(seen: seq<nat>, ks: seq<nat>)
    requires ks != [] && ks[0] !in seen
    ensures seen + Unseen(seen, ks) == (seen + [ks[0]]) + Unseen(seen + [ks[0]], ks[1..])
  {
  }

  /** A page on which the lines `seen` are shown. */
  function PageOf(lines: seq<string>, seen: seq<nat>, emitted: set<nat>): Page
    requires AreLines(lines, seen)
  {
    Page(Text(lines, seen), emitted, None)
  }

  /** An unseen line that fits is shown next. */
  lemma EmitsFirst(lines: seq<string>, maxChars: nat, seen: seq<nat>, emitted: set<nat>, ks: seq<nat>)
    requires AreLines(lines, seen) && AreLines(lines, ks) && ks != [] && ks[0] !in emitted
    requires |Text(lines, seen)| + |NumberedLine(lines, ks[0])| <= maxChars
    ensures AreLines(lines, seen + [ks[0]])
    ensures EmitAll(lines, maxChars, PageOf(lines, seen, emitted), ks)
            == EmitAll(lines, maxChars, PageOf(lines, seen + [ks[0]], emitted + {ks[0]}), ks[1..])
  {
    TextSnoc(lines, seen, ks[0]);
  }

  /** An unseen line that does not fit ends the page. */
  lemma StopsHere(lines: seq<string>, maxChars: nat, seen: seq<nat>, emitted: set<nat>, ks: seq<nat>)
    requires AreLines(lines, seen) && AreLines(lines, ks) && ks != [] && ks[0] !in emitted
    requires |Text(lines, seen)| + |NumberedLine(lines, ks[0])| > maxChars
    ensures EmitAll(lines, maxChars, PageOf(lines, seen, emitted), ks)
            == PageOf(lines, seen, emitted).(stopped := Some(ks[0]))
  {
    StoppedStays(lines, maxChars, PageOf(lines, seen, emitted).(stopped := Some(ks[0])), ks[1..]);
  }

  lemma ShowsAll(lines: seq<string>, maxChars: nat, seen: seq<nat>, emitted: set<nat>)
    requires AreLines(lines, seen) && |Text(lines, seen)| <= maxChars
    ensures ShowsFirst(lines, seen, maxChars, |seen|, PageOf(lines, seen, emitted))
  {
    assert seen[..|seen|] == seen;
  }

  lemma ShowsUpTo(lines: seq<string>, maxChars: nat, seen: seq<nat>, emitted: set<nat>, k: nat, others: seq<nat>)
    requires AreLines(lines, seen) && AreLines(lines, seen + [k] + others) && |Text(lines, seen)| <= maxChars
    requires 1 <= k <= |lines| && |Text(lines, seen)| + |NumberedLine(lines, k)| > maxChars
    ensures ShowsFirst(lines, seen + [k] + others, maxChars, |seen|, PageOf(lines, seen, emitted).(stopped := Some(k)))
  {
    var all := seen + [k] + others;
    assert all[..|seen|] == seen && all[|seen|] == k;
  }

  lemma {:induction false} EmitShows(lines: seq<string>, maxChars: nat, seen: seq<nat>, emitted: set<nat>, ks: seq<nat>)
    returns (j: nat)
    requires AreLines(lines, seen) && AreLines(lines, ks) && |Text(lines, seen)| <= maxChars
    requires forall k :: k in emitted <==> k in seen
    ensures AreLines(lines, seen + Unseen(seen, ks))
    ensures ShowsFirst(lines, seen + Unseen(seen, ks), maxChars, j,
                       EmitAll(lines, maxChars, PageOf(lines, seen, emitted), ks))
    decreases |ks|
  {
    UnseenAreLines(lines, seen, ks);
    if ks == [] {
      assert seen + [] == seen;
      ShowsAll(lines, maxChars, seen, emitted);
      j := |seen|;
    } else if ks[0] in seen {
      j := EmitShows(lines, maxChars, seen, emitted, ks[1..]);
    } else {
      UnseenFirst(seen, ks);
      if |Text(lines, seen)| + |NumberedLine(lines, ks[0])| > maxChars {
        StopsHere(lines, maxChars, seen, emitted, ks);
        ShowsUpTo(lines, maxChars, seen, emitted, ks[0], Unseen(seen + [ks[0]], ks[1..]));
        j := |seen|;
      } else {
        TextSnoc(lines, seen, ks[0]);
        EmitsFirst(lines, maxChars, seen, emitted, ks);
        j := EmitShows(lines, maxChars, seen + [ks[0]], emitted + {ks[0]}, ks[1..]);
      }
    }
  }

  lemma CoversCons(ranges: seq<Range>, line: nat)
    requires ranges != []
    ensures Covers(ranges, line) <==> Within(ranges[0], line) || Covers(ranges[1..], line)
  {
    if i :| 0 <= i < |ranges[1..]| && Within(ranges[1..][i], line) {
      assert Within(ranges[i + 1], line);
    }
    if i :| 0 <= i < |ranges| && Within(ranges[i], line) {
      assert i > 0 ==> Within(ranges[1..][i - 1], line);
    }
  }

  lemma {:induction false} RequestedCovers(ranges: seq<Range>, n: nat, k: nat)
    requires Positive(ranges)
    ensures k in RequestedBy(ranges, n) <==> Covers(ranges, k) && k <= n
  {
    if ranges != [] {
      RequestedCovers(ranges[1..], n, k);
      CoversCons(ranges, k);
      if Within(ranges[0], k) && k <= n {
        assert LinesIn(ranges[0], n)[k - ranges[0].first] == k;
      }
    }
  }

  ghost predicate Ascending(ks: seq<nat>) {
    forall i, j :: 0 <= i < j < |ks| ==> ks[i] < ks[j]
  }

  lemma {:induction false} RequestsAscend(ranges: seq<Range>, n: nat)
    requires Positive(ranges) && Separated(ranges)
    ensures Ascending(RequestedBy(ranges, n))
  {
    if ranges != [] {
      RequestsAscend(ranges[1..], n);
      var later := RequestedBy(ranges[1..], n);
      forall i | 0 <= i < |later| ensures ranges[0].last < later[i] {
        assert later[i] in later;
        RequestedCovers(ranges[1..], n, later[i]);
        var j :| 0 <= j < |ranges[1..]| && Within(ranges[1..][j], later[i]);
        assert Apart(ranges[0], ranges[j + 1]);
      }
    }
  }

  lemma {:induction false} AscendingIsUnseen(seen: seq<nat>, ks: seq<nat>)
    requires Ascending(ks) && forall i :: 0 <= i < |ks| ==> ks[i] !in seen
    ensures Unseen(seen, ks) == ks
    decreases |ks|
  {
    if ks != [] {
      var rest := ks[1..];
      forall i | 0 <= i < |rest| ensures rest[i] !in seen + [ks[0]] {
        assert ks[0] < ks[i + 1] && ks[i + 1] !in seen;
      }
      AscendingIsUnseen(seen + [ks[0]], rest);
      assert ks[0] !in seen;
      assert ks == [ks[0]] + rest;
    }
  }

  /** The page shows the lines that are near an added line, or the whole text if no hunk adds lines,
      ascending and each once: all of them, or as many as fit, and then it names the first line it does not
      show. */
  lemma MergedContextShows(lines: seq<string>, hunks: seq<Hunk>, maxChars: nat) returns (ks: seq<nat>, j: nat)
    requires Words(hunks)
    ensures AreLines(lines, ks) && Ascending(ks)
    ensures forall k: nat :: k in ks <==> 1 <= k <= |lines| && (AddNothing(hunks) || Shown(hunks, k))
    ensures Positive(Merge(Sorted(RangesOf(hunks))))
    ensures var wanted := WantedRanges(Merge(Sorted(RangesOf(hunks))), |lines|);
            ShowsFirst(lines, ks, maxChars, j,
                       EmitAll(lines, maxChars, Page("", {}, None), RequestedBy(wanted, |lines|)))
  {
    var ranges, n := RangesOf(hunks), |lines|;
    RangesAreSound(hunks);
    var proper := MergedForm(ranges);
    RequestedBehindEmpty(EmptyPart(ranges), proper, n);
    MergedIsNotEmpty(ranges, proper);
    NoRangesIff(hunks);
    var shown := if ranges == [] then [Range(1, n)] else proper;
    ks, j := SeparatedShows(lines, shown, maxChars);
    forall k: nat ensures k in ks <==> 1 <= k <= n && (AddNothing(hunks) || Shown(hunks, k)) {
      ShownIff(ranges, proper, n, k);
      CoversIffShown(hunks, k);
    }
  }

  ghost predicate AddNothing(hunks: seq<Hunk>) {
    forall i :: 0 <= i < |hunks| ==> hunks[i].count == 0
  }

  lemma {:induction false} NoRangesIff(hunks: seq<Hunk>)
    ensures RangesOf(hunks) == [] <==> AddNothing(hunks)
  {
    if hunks != [] {
      NoRangesIff(hunks[..|hunks| - 1]);
    }
  }

  lemma ShownIff(ranges: seq<Range>, proper: seq<Range>, n: nat, k: nat)
    requires SameCoverage(proper, ranges)
    ensures var shown := if ranges == [] then [Range(1, n)] else proper;
            1 <= k <= n && Covers(shown, k) <==> 1 <= k <= n && (ranges == [] || Covers(ranges, k))
  {
    if 1 <= k <= n {
      assert Within([Range(1, n)][0], k);
    }
  }

  lemma SeparatedShows(lines: seq<string>, ranges: seq<Range>, maxChars: nat) returns (ks: seq<nat>, j: nat)
    requires Positive(ranges) && Separated(ranges)
    ensures ks == RequestedBy(ranges, |lines|) && AreLines(lines, ks) && Ascending(ks)
    ensures forall k: nat :: k in ks <==> 1 <= k <= |lines| && Covers(ranges, k)
    ensures ShowsFirst(lines, ks, maxChars, j, EmitAll(lines, maxChars, Page("", {}, None), ks))
  {
    ks := RequestedBy(ranges, |lines|);
    RequestsAscend(ranges, |lines|);
    AscendingIsUnseen([], ks);
    j := EmitShows(lines, maxChars, [], {}, ks);
    assert [] + ks == ks;
    forall k: nat ensures k in ks <==> 1 <= k <= |lines| && Covers(ranges, k) {
      RequestedCovers(ranges, |lines|, k);
      CoveredIsPositive(ranges, k);
    }
  }

  lemma CoveredIsPositive(ranges: seq<Range>, k: nat)
    requires Positive(ranges)
    ensures Covers(ranges, k) ==> k >= 1
  {
  }

  lemma RequestedBehindEmpty(front: seq<Range>, proper: seq<Range>, n: nat)
    requires front in {[], [NO_LINES]} && Positive(proper)
    ensures Positive(front + proper) && RequestedBy(front + proper, n) == RequestedBy(proper, n)
  {
    if front == [] {
      assert front + proper == proper;
    } else {
      assert (front + proper)[0] == NO_LINES && (front + proper)[1..] == proper;
      assert LinesIn(NO_LINES, n) == [];
    }
  }

  /** Only a list without hunks merges to no range at all, which stands for the whole text. */
  lemma MergedIsNotEmpty(ranges: seq<Range>, proper: seq<Range>)
    requires AllSound(ranges) && Merge(Sorted(ranges)) == EmptyPart(ranges) + proper && SameCoverage(proper, ranges)
    ensures Merge(Sorted(ranges)) == [] <==> ranges == []
  {
    if ranges != [] {
      assert Sound(ranges[0]) && ranges[0] in ranges;
      if ranges[0] != NO_LINES {
        assert Within(ranges[0], ranges[0].first) && Covers(ranges, ranges[0].first);
        assert Covers(proper, ranges[0].first);
      } else if Covers(ranges, 1) {
        assert Covers(proper, 1);
      }
    }
  }
}
