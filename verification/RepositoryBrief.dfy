/** Fitting a repository brief into its character bound: excerpts are shortened, then breadth is trimmed
    evenly, then whole categories go in a fixed order. */
module RepositoryBrief {
  import opened Wrappers

  const MAX_BRIEF_CHARS: nat := 16_000
  const MIN_EXCERPT_CHARS: nat := 240

  /** One entry of a category; only project instructions have an excerpt. */
  datatype Item = Item(record: string, excerpt: string)

  datatype Category = Category(items: seq<Item>, omitted: nat)

  const COMPONENTS: nat := 0
  const EXECUTORS: nat := 1
  const CHECKS: nat := 2
  const TASKS: nat := 3
  const MANIFESTS: nat := 4
  const ENTRY_POINTS: nat := 5
  const INSTRUCTIONS: nat := 6
  const TOP_LEVEL_PATHS: nat := 7
  const DIRTY_PATHS: nat := 8

  /** The order in which whole categories are given up. */
  const LAST_RESORT: seq<nat> :=
    [TOP_LEVEL_PATHS, TASKS, ENTRY_POINTS, DIRTY_PATHS, INSTRUCTIONS, MANIFESTS, EXECUTORS, CHECKS, COMPONENTS]

  /** The nine lists of a brief with their omission counters. */
  type Brief = c: seq<Category> | |c| == 9 witness seq(9, _ => Category([], 0))

  /** The serialized length of a brief; serialization may fail. */
  type Measure = Brief -> Option<nat>

  datatype FitError = SerializationFailed | AnchorsExceedBound

  // ---------------------------------------------------------------- one step, as a function

  function TruncateChars(value: string, maxChars: nat): string {
    if |value| <= maxChars then value else value[..SaturatingSub(maxChars, 1)] + "…"
  }

  function Shortened(item: Item): Item {
    item.(excerpt := TruncateChars(item.excerpt, Max(|item.excerpt| / 2, MIN_EXCERPT_CHARS)))
  }

  predicate IsLong(item: Item) {
    |item.excerpt| > MIN_EXCERPT_CHARS
  }

  /** The last instruction whose excerpt can still be shortened, searched from index `i` downwards. */
  function LastLong(items: seq<Item>, i: nat): (r: Option<nat>)
    requires i <= |items|
    ensures r.Some? ==> r.value < i && IsLong(items[r.value])
    ensures r.None? ==> forall k :: 0 <= k < i ==> !IsLong(items[k])
  {
    if i == 0 then None else if IsLong(items[i - 1]) then Some(i - 1) else LastLong(items, i - 1)
  }

  function Popped(category: Category): Category {
    if category.items == [] then category
    else Category(category.items[..|category.items| - 1], SaturatingAdd(category.omitted, 1))
  }

  /** A category after one even round: it loses its last item unless that is its only one. */
  function Trimmed(category: Category): Category {
    if |category.items| > 1 then Popped(category) else category
  }

  function Round(brief: Brief): Brief {
    seq(9, i requires 0 <= i < 9 => Trimmed(brief[i]))
  }

  predicate CanTrim(brief: Brief) {
    exists i :: 0 <= i < 9 && |brief[i].items| > 1
  }

  /** The first category, in last-resort order from position `k`, that still has an item. */
  function FirstNonempty(brief: Brief, k: nat): (r: Option<nat>)
    requires k <= 9
    ensures r.Some? ==> k <= r.value < 9 && brief[LAST_RESORT[r.value]].items != []
    ensures r.Some? ==> forall j :: k <= j < r.value ==> brief[LAST_RESORT[j]].items == []
    ensures r.None? ==> forall j :: k <= j < 9 ==> brief[LAST_RESORT[j]].items == []
    decreases 9 - k
  {
    if k == 9 then None
    else if brief[LAST_RESORT[k]].items != [] then Some(k)
    else FirstNonempty(brief, k + 1)
  }

  /** What the loop does to a brief that is too long; `None` when nothing is left to give up. */
  function Reduce(brief: Brief): Option<Brief> {
    var long := LastLong(brief[INSTRUCTIONS].items, |brief[INSTRUCTIONS].items|);
    if long.Some? then
      var items := brief[INSTRUCTIONS].items;
      Some(brief[INSTRUCTIONS := brief[INSTRUCTIONS].(items := items[long.value := Shortened(items[long.value])])])
    else if CanTrim(brief) then Some(Round(brief))
    else
      var position := FirstNonempty(brief, 0);
      if position.None? then None
      else
        var i := LAST_RESORT[position.value];
        Some(brief[i := Popped(brief[i])])
  }

  // ---------------------------------------------------------------- what every reduction keeps

  /** `b` is `a`, or starts like it, is shorter by a character at least, has 240 characters at least, and
      ends in an ellipsis. */
  predicate ExcerptOf(a: string, b: string) {
    b == a || (240 <= |b| < |a| && b[|b| - 1] == '…' && b[..|b| - 1] == a[..|b| - 1])
  }

  /** `b` keeps a prefix of the items of `a`, excerpts perhaps shortened, and counts the others. */
  ghost predicate Keeps(a: Category, b: Category) {
    && |b.items| <= |a.items|
    && |b.items| + b.omitted == |a.items| + a.omitted
    && forall j :: 0 <= j < |b.items| ==>
           b.items[j].record == a.items[j].record && ExcerptOf(a.items[j].excerpt, b.items[j].excerpt)
  }

  ghost predicate KeepsPrefixes(original: Brief, brief: Brief) {
    && (forall i :: 0 <= i < 9 ==> Keeps(original[i], brief[i]))
    && (forall i :: 0 <= i < 9 && i != INSTRUCTIONS ==> brief[i].items <= original[i].items)
  }

  function SizeAfter(n: nat, rounds: nat): int {
    Max(Min(n, 1), n - rounds)
  }

  /** Every category has lost the same number of items, as far as it had more than one. */
  ghost predicate TrimmedEvenly(original: Brief, brief: Brief, rounds: nat) {
    forall i :: 0 <= i < 9 ==> |brief[i].items| == SizeAfter(|original[i].items|, rounds)
  }

  /** Every category is down to one item or none, and those given up come first in last-resort order. */
  ghost predicate GivenUpInOrder(original: Brief, brief: Brief) {
    && (forall i :: 0 <= i < 9 ==> |brief[i].items| <= Min(|original[i].items|, 1))
    && forall j, k :: 0 <= j < k < 9 && |brief[LAST_RESORT[k]].items| < Min(|original[LAST_RESORT[k]].items|, 1)
         ==> brief[LAST_RESORT[j]].items == []
  }

  ghost predicate Shape(original: Brief, brief: Brief) {
    (exists rounds :: TrimmedEvenly(original, brief, rounds)) || GivenUpInOrder(original, brief)
  }

  /** The omission counters have not saturated: no list is longer than a machine word counts. */
  predicate Countable(brief: Brief) {
    forall i :: 0 <= i < 9 ==> |brief[i].items| + brief[i].omitted <= WORD_MAX
  }

  lemma PoppedKeeps(a: Category, b: Category)
    requires Keeps(a, b) && |b.items| + b.omitted <= WORD_MAX
    ensures Keeps(a, Popped(b)) && (b.items <= a.items ==> Popped(b).items <= a.items)
    ensures |Popped(b).items| + Popped(b).omitted == |b.items| + b.omitted
    ensures |Popped(b).items| == SaturatingSub(|b.items|, 1)
  {
  }

  /** Shortening halves a long excerpt, though not below 240 characters, the ellipsis counted. */
  lemma ShortenedIsHalf(item: Item)
    requires |item.excerpt| > 240
    ensures Shortened(item).record == item.record && IsLong(item)
    ensures var text, shorter := item.excerpt, Shortened(item).excerpt;
            && |shorter| == (if |text| >= 480 then |text| / 2 else 240)
            && shorter == text[..|shorter| - 1] + "…"
  {
  }

  lemma ShortenedIsExcerpt(a: string, item: Item)
    requires ExcerptOf(a, item.excerpt) && IsLong(item)
    ensures ExcerptOf(a, Shortened(item).excerpt) && |Shortened(item).excerpt| < |item.excerpt|
    ensures Shortened(item).record == item.record
  {
    ShortenedIsHalf(item);
  }

  /** Each reduction keeps prefixes and exact counts. */
  lemma ReduceKeepsPrefixes(original: Brief, brief: Brief)
    requires KeepsPrefixes(original, brief) && Countable(brief) && Reduce(brief).Some?
    ensures KeepsPrefixes(original, Reduce(brief).value) && Countable(Reduce(brief).value)
  {
    var after := Reduce(brief).value;
    var items := brief[INSTRUCTIONS].items;
    var long := LastLong(items, |items|);
    if long.Some? {
      ShortenedIsExcerpt(original[INSTRUCTIONS].items[long.value].excerpt, items[long.value]);
    } else {
      forall i | 0 <= i < 9
        ensures Keeps(original[i], after[i])
        ensures brief[i].items <= original[i].items ==> after[i].items <= original[i].items
        ensures |after[i].items| + after[i].omitted == |brief[i].items| + brief[i].omitted
      {
        PoppedKeeps(original[i], brief[i]);
      }
    }
  }

  /** Trimming is even until nothing but single items is left; only then do categories go, in order. */
  lemma ReduceKeepsShape(original: Brief, brief: Brief)
    requires Shape(original, brief) && Reduce(brief).Some?
    ensures Shape(original, Reduce(brief).value)
  {
    var after := Reduce(brief).value;
    var items := brief[INSTRUCTIONS].items;
    if LastLong(items, |items|).Some? {
      assert forall i :: 0 <= i < 9 ==> |after[i].items| == |brief[i].items|;
      if rounds: nat :| TrimmedEvenly(original, brief, rounds) {
        assert TrimmedEvenly(original, after, rounds);
      } else {
        assert GivenUpInOrder(original, after);
      }
    } else if CanTrim(brief) {
      var rounds: nat :| TrimmedEvenly(original, brief, rounds);
      assert TrimmedEvenly(original, after, rounds + 1);
    } else {
      SinglesGivenUpInOrder(original, brief);
      GivesUpNext(original, brief, FirstNonempty(brief, 0).value);
    }
  }

  lemma SinglesGivenUpInOrder(original: Brief, brief: Brief)
    requires Shape(original, brief) && !CanTrim(brief)
    ensures GivenUpInOrder(original, brief)
  {
    forall i | 0 <= i < 9 ensures |brief[i].items| <= 1 {}
    if rounds: nat :| TrimmedEvenly(original, brief, rounds) {
      forall i | 0 <= i < 9 ensures |brief[i].items| == Min(|original[i].items|, 1) {}
    }
  }

  lemma GivesUpNext(original: Brief, brief: Brief, position: nat)
    requires GivenUpInOrder(original, brief) && position < 9
    requires brief[LAST_RESORT[position]].items != []
    requires forall j :: 0 <= j < position ==> brief[LAST_RESORT[j]].items == []
    ensures GivenUpInOrder(original, brief[LAST_RESORT[position] := Popped(brief[LAST_RESORT[position]])])
  {
    var i := LAST_RESORT[position];
    var after := brief[i := Popped(brief[i])];
    assert |brief[i].items| == 1 && after[i].items == [];
    forall j, k | 0 <= j < k < 9 && |after[LAST_RESORT[k]].items| < Min(|original[LAST_RESORT[k]].items|, 1)
      ensures after[LAST_RESORT[j]].items == []
    {
      LastResortIsPermutation();
    }
  }

  lemma LastResortIsPermutation()
    ensures forall j, k :: 0 <= j < k < 9 ==> LAST_RESORT[j] != LAST_RESORT[k]
    ensures forall i :: 0 <= i < 9 ==> i in LAST_RESORT
  {
  }

  // ---------------------------------------------------------------- the loop ends

  function TotalItems(brief: seq<Category>): nat {
    if brief == [] then 0 else |brief[0].items| + TotalItems(brief[1..])
  }

  function TotalExcerpts(items: seq<Item>): nat {
    if items == [] then 0 else |items[0].excerpt| + TotalExcerpts(items[1..])
  }

  lemma {:induction false} TotalItemsFalls(a: seq<Category>, b: seq<Category>, i: nat)
    requires |a| == |b| && (forall k :: 0 <= k < |a| ==> |b[k].items| <= |a[k].items|)
    ensures TotalItems(b) <= TotalItems(a)
    ensures i < |a| && |b[i].items| < |a[i].items| ==> TotalItems(b) < TotalItems(a)
  {
    if a != [] {
      TotalItemsFalls(a[1..], b[1..], if i == 0 then |a| else i - 1);
    }
  }

  lemma {:induction false} TotalExcerptsFalls(items: seq<Item>, i: nat, item: Item)
    requires i < |items| && |item.excerpt| < |items[i].excerpt|
    ensures TotalExcerpts(items[i := item]) < TotalExcerpts(items)
  {
    if i > 0 {
      assert items[i := item][1..] == items[1..][i - 1 := item];
      TotalExcerptsFalls(items[1..], i - 1, item);
    } else {
      assert items[i := item][1..] == items[1..];
    }
  }

  /** Each reduction loses items or, losing none, shortens an excerpt. */
  lemma ReduceMakesProgress(brief: Brief)
    requires Reduce(brief).Some?
    ensures var after := Reduce(brief).value;
            || TotalItems(after) < TotalItems(brief)
            || (TotalItems(after) == TotalItems(brief)
                && TotalExcerpts(after[INSTRUCTIONS].items) < TotalExcerpts(brief[INSTRUCTIONS].items))
  {
    var after := Reduce(brief).value;
    var items := brief[INSTRUCTIONS].items;
    var long := LastLong(items, |items|);
    if long.Some? {
      ShortenedIsExcerpt(items[long.value].excerpt, items[long.value]);
      TotalExcerptsFalls(items, long.value, Shortened(items[long.value]));
      TotalItemsFalls(brief, after, 9);
      TotalItemsFalls(after, brief, 9);
    } else if CanTrim(brief) {
      var i :| 0 <= i < 9 && |brief[i].items| > 1;
      TotalItemsFalls(brief, after, i);
    } else {
      TotalItemsFalls(brief, after, LAST_RESORT[FirstNonempty(brief, 0).value]);
    }
  }

  lemma NothingLeft(brief: Brief)
    requires Reduce(brief).None?
    ensures forall i :: 0 <= i < 9 ==> brief[i].items == []
  {
    LastResortIsPermutation();
    forall i | 0 <= i < 9 ensures brief[i].items == [] {
      var j :| 0 <= j < 9 && LAST_RESORT[j] == i;
    }
  }

  // ---------------------------------------------------------------- one even round

  /** The order in which a round visits the categories. */
  const ROUND_ORDER: seq<nat> :=
    [TOP_LEVEL_PATHS, TASKS, CHECKS, COMPONENTS, EXECUTORS, ENTRY_POINTS, INSTRUCTIONS, MANIFESTS, DIRTY_PATHS]

  /** The position of a category in the round. */
  function Turn(i: nat): nat
    requires i < 9
  {
    [3, 4, 2, 1, 7, 5, 6, 0, 8][i]
  }

  /** A brief after the first `k` categories of a round. */
  function TrimmedUpTo(brief: Brief, k: nat): Brief {
    seq(9, i requires 0 <= i < 9 => if Turn(i) < k then Trimmed(brief[i]) else brief[i])
  }

  lemma TurnInvertsOrder()
    ensures forall k :: 0 <= k < 9 ==> Turn(ROUND_ORDER[k]) == k
    ensures forall i :: 0 <= i < 9 ==> Turn(i) < 9 && ROUND_ORDER[Turn(i)] == i
  {
  }

  lemma TrimsNext(brief: Brief, k: nat)
    requires k < 9
    ensures ROUND_ORDER[k] < 9
    ensures TrimmedUpTo(brief, k)[ROUND_ORDER[k]] == brief[ROUND_ORDER[k]]
    ensures TrimmedUpTo(brief, k + 1) == TrimmedUpTo(brief, k)[ROUND_ORDER[k] := Trimmed(brief[ROUND_ORDER[k]])]
  {
    TurnInvertsOrder();
    forall i | 0 <= i < 9 && i != ROUND_ORDER[k] ensures TrimmedUpTo(brief, k + 1)[i] == TrimmedUpTo(brief, k)[i] {
      assert Turn(i) != k;
    }
  }

  lemma TrimmedAll(brief: Brief)
    ensures TrimmedUpTo(brief, 9) == Round(brief)
    ensures CanTrim(brief) <==> exists j :: 0 <= j < 9 && |brief[ROUND_ORDER[j]].items| > 1
  {
    TurnInvertsOrder();
    if i :| 0 <= i < 9 && |brief[i].items| > 1 {
      assert |brief[ROUND_ORDER[Turn(i)]].items| > 1;
    }
    if j :| 0 <= j < 9 && |brief[ROUND_ORDER[j]].items| > 1 {
      assert |brief[ROUND_ORDER[j]].items| > 1;
    }
  }

  // ---------------------------------------------------------------- the loop

  class BriefBuilder {
    var categories: Brief

    constructor (categories: Brief)
      ensures this.categories == categories
    {
      this.categories := categories;
    }

    method PopCounted(i: nat) returns (popped: bool)
      requires i < 9
      modifies this
      ensures popped <==> old(categories)[i].items != []
      ensures categories == old(categories)[i := Popped(old(categories)[i])]
    {
      var category := categories[i];
      if category.items == [] {
        return false;
      }
      categories := categories[i := Category(category.items[..|category.items| - 1],
                                             SaturatingAdd(category.omitted, 1))];
      return true;
    }

    method PopCountedAbove(i: nat, minimum: nat) returns (popped: bool)
      requires i < 9
      modifies this
      ensures popped <==> |old(categories)[i].items| > minimum
      ensures categories == if popped then old(categories)[i := Popped(old(categories)[i])] else old(categories)
    {
      if |categories[i].items| <= minimum {
        return false;
      }
      popped := PopCounted(i);
    }

    /** Trims every category that has more than one item. */
    method TrimRound() returns (trimmed: bool)
      modifies this
      ensures trimmed <==> CanTrim(old(categories))
      ensures categories == Round(old(categories))
    {
      ghost var before := categories;
      assert categories == TrimmedUpTo(before, 0);
      trimmed := false;
      for k := 0 to 9
        invariant categories == TrimmedUpTo(before, k)
        invariant trimmed <==> exists j :: 0 <= j < k && |before[ROUND_ORDER[j]].items| > 1
      {
        TrimsNext(before, k);
        var popped := PopCountedAbove(ROUND_ORDER[k], 1);
        trimmed := trimmed || popped;
      }
      TrimmedAll(before);
    }

    /** Gives up one item of the first nonempty category in last-resort order. */
    method GiveUpOne() returns (gaveUp: bool)
      modifies this
      ensures gaveUp <==> FirstNonempty(old(categories), 0).Some?
      ensures gaveUp ==> var i := LAST_RESORT[FirstNonempty(old(categories), 0).value];
                         categories == old(categories)[i := Popped(old(categories)[i])]
      ensures !gaveUp ==> categories == old(categories)
    {
      ghost var before := categories;
      var order := [TOP_LEVEL_PATHS, TASKS, ENTRY_POINTS, DIRTY_PATHS, INSTRUCTIONS, MANIFESTS, EXECUTORS, CHECKS,
                    COMPONENTS];
      assert order == LAST_RESORT;
      for k := 0 to 9
        invariant categories == before && FirstNonempty(before, 0) == FirstNonempty(before, k)
      {
        var popped := PopCounted(order[k]);
        if popped {
          return true;
        }
        assert categories == before;
      }
      return false;
    }

    method ShortenLastLong() returns (shortened: bool)
      modifies this
      ensures var long := LastLong(old(categories)[INSTRUCTIONS].items, |old(categories)[INSTRUCTIONS].items|);
              && (shortened <==> long.Some?)
              && (shortened ==> Reduce(old(categories)) == Some(categories))
              && (!shortened ==> categories == old(categories))
    {
      var items := categories[INSTRUCTIONS].items;
      var i := |items|;
      while i > 0
        invariant 0 <= i <= |items| && categories == old(categories)
        invariant LastLong(items, |items|) == LastLong(items, i)
      {
        i := i - 1;
        if IsLong(items[i]) {
          categories := categories[INSTRUCTIONS := categories[INSTRUCTIONS].(items := items[i := Shortened(items[i])])];
          return true;
        }
      }
      return false;
    }

    /** The body of the loop for a brief that is too long. */
    method ReduceOnce() returns (reduced: bool)
      modifies this
      ensures reduced <==> Reduce(old(categories)).Some?
      ensures categories == if reduced then Reduce(old(categories)).value else old(categories)
    {
      reduced := ShortenLastLong();
      if reduced {
        return;
      }
      NothingTrimmed(categories);
      reduced := TrimRound();
      if reduced {
        return;
      }
      reduced := GiveUpOne();
    }

    /** The fitting loop always ends. A brief that fits keeps prefixes, exact omission counts and even
        trimming; it fails for size only when all nine lists are empty and it is still too long. */
    method FitToBound(measure: Measure) returns (r: Result<nat, FitError>)
      requires Countable(categories)
      modifies this
      ensures KeepsPrefixes(old(categories), categories)
      ensures Shape(old(categories), categories)
      ensures r.Ok? ==> measure(categories) == Some(r.value) && r.value <= 16_000
      ensures r == Err(AnchorsExceedBound) ==>
                && (forall i :: 0 <= i < 9 ==> categories[i].items == [])
                && measure(categories).Some? && measure(categories).value > 16_000
      ensures r == Err(SerializationFailed) <==> measure(categories).None?
      ensures exists steps: seq<Brief> :: IsReduction(measure, old(categories), steps, categories)
    {
      ghost var original := categories;
      ghost var steps := [categories];
      assert TrimmedEvenly(original, categories, 0);
      while true
        invariant KeepsPrefixes(original, categories) && Countable(categories) && Shape(original, categories)
        invariant IsReduction(measure, original, steps, categories)
        decreases TotalItems(categories), TotalExcerpts(categories[INSTRUCTIONS].items)
      {
        var size := measure(categories);
        if size.None? {
          return Err(SerializationFailed);
        }
        if size.value <= MAX_BRIEF_CHARS {
          return Ok(size.value);
        }
        ghost var before := categories;
        var reduced := ReduceOnce();
        if !reduced {
          NothingLeft(before);
          return Err(AnchorsExceedBound);
        }
        ReduceMakesProgress(before);
        ReduceKeepsPrefixes(original, before);
        ReduceKeepsShape(original, before);
        ReductionGrows(measure, original, steps, before);
        steps := steps + [categories];
      }
    }
  }

  lemma NothingTrimmed(brief: Brief)
    ensures !CanTrim(brief) ==> Round(brief) == brief
  {
  }

  lemma ReductionGrows(measure: Measure, original: Brief, steps: seq<Brief>, last: Brief)
    requires IsReduction(measure, original, steps, last) && Reduce(last).Some?
    requires measure(last).Some? && measure(last).value > MAX_BRIEF_CHARS
    ensures IsReduction(measure, original, steps + [Reduce(last).value], Reduce(last).value)
  {
    var longer := steps + [Reduce(last).value];
    forall k | 0 <= k < |longer| - 1 ensures ReducedAt(measure, longer, k) {
      if k < |steps| - 1 { assert ReducedAt(measure, steps, k); }
    }
  }

  /** The briefs the loop went through: each too long and reduced to the next. */
  ghost predicate IsReduction(measure: Measure, original: Brief, steps: seq<Brief>, last: Brief) {
    && |steps| > 0 && steps[0] == original && steps[|steps| - 1] == last
    && forall k :: 0 <= k < |steps| - 1 ==> ReducedAt(measure, steps, k)
  }

  ghost predicate ReducedAt(measure: Measure, steps: seq<Brief>, k: nat)
    requires k + 1 < |steps|
  {
    && Reduce(steps[k]) == Some(steps[k + 1])
    && measure(steps[k]).Some? && measure(steps[k]).value > MAX_BRIEF_CHARS
  }
}
