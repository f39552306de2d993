/** Prompt compaction: completed tool groups are folded into receipts, oldest first, until the prompt
    fits its target. */
module PromptCompaction {
  import opened Wrappers

  datatype ToolCall = ToolCall(id: Option<string>, tool: string, arguments: string)

  /** The part of a tool result's metadata that compaction accounts for, and the rest. */
  datatype ResultMetadata = ResultMetadata(omittedChars: nat, details: string)

  datatype Message = Message(
    role: string,
    content: string,
    toolCalls: seq<ToolCall>,
    toolCallId: Option<string>,
    name: Option<string>,
    toolResult: Option<ResultMetadata>)
  {
    /** May this message open a tool group? */
    predicate Opens() {
      role == "assistant" && toolCalls != []
    }

    predicate IsTool() {
      role == "tool"
    }
  }

  /** How a group is summarised; the wording is not modelled. */
  type Renderer = seq<Message> -> (string, ResultMetadata)

  /** Counts prompt tokens; it may fail. */
  type Measure = seq<Message> -> Option<nat>

  function ContextReceipt(content: string, metadata: ResultMetadata): Message {
    Message("user", content, [], None, None, Some(metadata))
  }

  function Receipt(render: Renderer, group: seq<Message>): Message {
    var (content, metadata) := render(group);
    ContextReceipt(content, metadata)
  }

  // ---------------------------------------------------------------- tool groups

  datatype Group = Group(start: int, end: int)

  /** An assistant message with tool calls and the maximal, nonempty run of tool messages after it. */
  predicate IsGroup(m: seq<Message>, group: Group) {
    var Group(start, end) := group;
    && 0 <= start < end - 1 < |m|
    && m[start].Opens()
    && (forall i :: start < i < end ==> m[i].IsTool())
    && (end == |m| || !m[end].IsTool())
  }

  predicate StartsGroup(m: seq<Message>, i: nat)
    requires i < |m|
  {
    m[i].Opens() && i + 1 < |m| && m[i + 1].IsTool()
  }

  /** The end of the run of tool messages from `i`. */
  function ToolEnd(m: seq<Message>, i: nat): (end: nat)
    requires i <= |m|
    ensures i <= end <= |m|
    ensures forall k :: i <= k < end ==> m[k].IsTool()
    ensures end == |m| || !m[end].IsTool()
    decreases |m| - i
  {
    if i < |m| && m[i].IsTool() then ToolEnd(m, i + 1) else i
  }

  /** The completed groups from index `i` on. */
  function Groups(m: seq<Message>, i: nat): seq<Group>
    requires i <= |m|
    decreases |m| - i
  {
    if i == |m| then []
    else if StartsGroup(m, i) then [Group(i, ToolEnd(m, i + 1))] + Groups(m, ToolEnd(m, i + 1))
    else Groups(m, i + 1)
  }

  /** The list holds exactly the groups of the messages, in order and without overlap. */
  lemma {:induction false} GroupsMeaning(m: seq<Message>, i: nat)
    requires i <= |m|
    ensures forall k :: 0 <= k < |Groups(m, i)| ==> i <= Groups(m, i)[k].start && IsGroup(m, Groups(m, i)[k])
    ensures forall k, l :: 0 <= k < l < |Groups(m, i)| ==> Groups(m, i)[k].end <= Groups(m, i)[l].start
    ensures forall g: Group :: i <= g.start && IsGroup(m, g) ==> g in Groups(m, i)
    decreases |m| - i
  {
    if i < |m| {
      if StartsGroup(m, i) {
        var end := ToolEnd(m, i + 1);
        GroupsMeaning(m, end);
        forall g: Group | i <= g.start && IsGroup(m, g) ensures g in Groups(m, i) {
          assert g.start == i ==> g.end == end;
          assert g.start != i ==> g.start >= end;
        }
      } else {
        GroupsMeaning(m, i + 1);
        assert forall g: Group :: g.start == i ==> !IsGroup(m, g);
      }
    }
  }

  /** One group of the messages, and the order of those before it. */
  lemma GroupAt(m: seq<Message>, k: nat)
    requires k < |Groups(m, 0)|
    ensures IsGroup(m, Groups(m, 0)[k])
    ensures InOrder(m, Groups(m, 0)[..k]) && InOrder(m, Groups(m, 0)[..k + 1])
    ensures EndOf(Groups(m, 0)[..k]) <= Groups(m, 0)[k].start
    ensures Groups(m, 0)[..k + 1][..k] == Groups(m, 0)[..k]
  {
    GroupsMeaning(m, 0);
  }

  /** The scan over the messages. */
  method CompletedToolGroups(m: seq<Message>) returns (groups: seq<Group>)
    ensures groups == Groups(m, 0)
  {
    groups := [];
    var index := 0;
    while index < |m|
      invariant index <= |m|
      invariant groups + Groups(m, index) == Groups(m, 0)
    {
      if m[index].role == "assistant" && m[index].toolCalls != [] {
        var end := index + 1;
        while end < |m| && m[end].role == "tool"
          invariant index < end <= |m| && ToolEnd(m, end) == ToolEnd(m, index + 1)
        {
          end := end + 1;
        }
        if end > index + 1 {
          groups := groups + [Group(index, end)];
          index := end;
          continue;
        }
      }
      index := index + 1;
    }
  }

  // ---------------------------------------------------------------- replacing groups by receipts

  function EndOf(groups: seq<Group>): int {
    if groups == [] then 0 else groups[|groups| - 1].end
  }

  /** Disjoint stretches of `m`, in order. */
  predicate InOrder(m: seq<Message>, groups: seq<Group>) {
    && (forall k :: 0 <= k < |groups| ==> 0 <= groups[k].start < groups[k].end <= |m|)
    && (forall k, l :: 0 <= k < l < |groups| ==> groups[k].end <= groups[l].start)
  }

  /** The messages up to the end of the last group, each group replaced by its receipt. */
  function Head(render: Renderer, m: seq<Message>, groups: seq<Group>): seq<Message>
    requires InOrder(m, groups)
  {
    if groups == [] then []
    else
      var earlier, last := groups[..|groups| - 1], groups[|groups| - 1];
      Head(render, m, earlier) + m[EndOf(earlier)..last.start] + [Receipt(render, m[last.start..last.end])]
  }

  /** `m` with each of the groups replaced by one receipt and everything else in place. */
  function Compacted(render: Renderer, m: seq<Message>, groups: seq<Group>): seq<Message>
    requires InOrder(m, groups)
  {
    Head(render, m, groups) + m[EndOf(groups)..]
  }

  function GroupedMessages(groups: seq<Group>): int {
    if groups == [] then 0
    else GroupedMessages(groups[..|groups| - 1]) + groups[|groups| - 1].end - groups[|groups| - 1].start
  }

  /** A head that opens no group, whatever follows it. */
  predicate Quiet(head: seq<Message>) {
    && (forall i :: 0 <= i < |head| - 1 ==> !(head[i].Opens() && head[i + 1].IsTool()))
    && (head != [] ==> !head[|head| - 1].Opens())
  }

  lemma {:induction false} QuietIsSkipped(head: seq<Message>, rest: seq<Message>, i: nat)
    requires Quiet(head) && i <= |head|
    ensures Groups(head + rest, i) == Groups(head + rest, |head|)
    decreases |head| - i
  {
    if i < |head| {
      assert !StartsGroup(head + rest, i);
      QuietIsSkipped(head, rest, i + 1);
    }
  }

  function Shift(groups: seq<Group>, delta: int): seq<Group> {
    if groups == [] then [] else [Group(groups[0].start + delta, groups[0].end + delta)] + Shift(groups[1..], delta)
  }

  /** From `i` in `m` and `j` in `p` on, the messages are the same. */
  predicate SameTail(m: seq<Message>, p: seq<Message>, i: nat, j: nat) {
    && i <= |m| && j <= |p| && |m| - i == |p| - j
    && forall k :: i <= k < |m| ==> p[k - i + j] == m[k]
  }

  lemma SameTailFurther(m: seq<Message>, p: seq<Message>, i: nat, j: nat, n: nat)
    requires SameTail(m, p, i, j) && i + n <= |m|
    ensures SameTail(m, p, i + n, j + n)
    ensures i < |m| ==> p[j] == m[i]
    ensures i + 1 < |m| ==> p[j + 1] == m[i + 1]
  {
    assert i < |m| ==> p[i - i + j] == m[i];
    assert i + 1 < |m| ==> p[i + 1 - i + j] == m[i + 1];
    forall k | i + n <= k < |m| ensures p[k - (i + n) + (j + n)] == m[k] {
      assert p[k - i + j] == m[k];
    }
  }

  lemma {:induction false} ToolEndShifts(m: seq<Message>, p: seq<Message>, i: nat, j: nat)
    requires SameTail(m, p, i, j)
    ensures ToolEnd(p, j) == ToolEnd(m, i) - i + j
    decreases |m| - i
  {
    if i < |m| {
      SameTailFurther(m, p, i, j, 1);
      ToolEndShifts(m, p, i + 1, j + 1);
    }
  }

  lemma ShiftCons(group: Group, groups: seq<Group>, delta: int)
    ensures Shift([group] + groups, delta) == [Group(group.start + delta, group.end + delta)] + Shift(groups, delta)
  {
    assert ([group] + groups)[1..] == groups;
  }

  /** Equal tails hold the same groups, at shifted positions. */
  lemma {:induction false} GroupsShift(m: seq<Message>, p: seq<Message>, i: nat, j: nat, delta: int)
    requires SameTail(m, p, i, j) && j == i + delta
    ensures Groups(p, j) == Shift(Groups(m, i), delta)
    decreases |m| - i
  {
    if i < |m| {
      SameTailFurther(m, p, i, j, 1);
      if StartsGroup(m, i) {
        ToolEndShifts(m, p, i + 1, j + 1);
        var end, end' := ToolEnd(m, i + 1), ToolEnd(p, j + 1);
        SameTailFurther(m, p, i, j, end - i);
        GroupsShift(m, p, end, end', delta);
        ShiftCons(Group(i, end), Groups(m, end), delta);
        assert StartsGroup(p, j);
        assert Groups(p, j) == [Group(j, end')] + Groups(p, end');
        assert Groups(m, i) == [Group(i, end)] + Groups(m, end);
      } else {
        GroupsShift(m, p, i + 1, j + 1, delta);
      }
    }
  }

  lemma {:induction false} ShiftLength(groups: seq<Group>, delta: int)
    ensures |Shift(groups, delta)| == |groups|
  {
    if groups != [] {
      ShiftLength(groups[1..], delta);
    }
  }

  /** What the loop knows after folding the first `k` groups. */
  ghost predicate Folded(render: Renderer, m: seq<Message>, k: nat, prepared: seq<Message>) {
    && k <= |Groups(m, 0)|
    && prepared == FirstFolded(render, m, k)
    && Quiet(HeadFolded(render, m, k))
    && 0 <= EndOf(Groups(m, 0)[..k]) <= |m|
    && Groups(m, EndOf(Groups(m, 0)[..k])) == Groups(m, 0)[k..]
  }

  function FirstFolded(render: Renderer, m: seq<Message>, k: nat): seq<Message>
    requires k <= |Groups(m, 0)|
  {
    GroupsMeaning(m, 0);
    Compacted(render, m, Groups(m, 0)[..k])
  }

  function HeadFolded(render: Renderer, m: seq<Message>, k: nat): seq<Message>
    requires k <= |Groups(m, 0)|
  {
    GroupsMeaning(m, 0);
    Head(render, m, Groups(m, 0)[..k])
  }

  lemma FoldedStarts(render: Renderer, m: seq<Message>)
    ensures Folded(render, m, 0, m)
  {
    assert Groups(m, 0)[..0] == [];
    assert FirstFolded(render, m, 0) == m;
  }

  /** The groups of the current messages are those still to fold. */
  lemma GroupsStillToFold(render: Renderer, m: seq<Message>, k: nat, prepared: seq<Message>)
    requires Folded(render, m, k, prepared)
    ensures Groups(prepared, 0) == Shift(Groups(m, 0)[k..], |HeadFolded(render, m, k)| - EndOf(Groups(m, 0)[..k]))
    ensures |Groups(prepared, 0)| == |Groups(m, 0)| - k
  {
    var head, from := HeadFolded(render, m, k), EndOf(Groups(m, 0)[..k]);
    assert prepared == head + m[from..];
    QuietIsSkipped(head, m[from..], 0);
    GroupsShift(m, prepared, from, |head|, |head| - from);
    ShiftLength(Groups(m, 0)[k..], |head| - from);
  }

  /** Where the next group to fold stands in the current messages. */
  lemma NextGroupPosition(render: Renderer, m: seq<Message>, k: nat, prepared: seq<Message>, group: Group, delta: int)
    requires Folded(render, m, k, prepared) && k < |Groups(m, 0)| && group == Groups(m, 0)[k]
    requires delta == |HeadFolded(render, m, k)| - EndOf(Groups(m, 0)[..k])
    ensures Groups(prepared, 0) != [] && IsGroup(prepared, Groups(prepared, 0)[0])
    ensures Groups(prepared, 0)[0] == Group(group.start + delta, group.end + delta)
  {
    GroupsStillToFold(render, m, k, prepared);
    GroupAt(prepared, 0);
    assert Groups(m, 0)[k..][0] == group;
  }

  /** One more group folded, piece by piece. */
  lemma FoldOneMore(render: Renderer, m: seq<Message>, k: nat)
    requires k < |Groups(m, 0)|
    ensures var group, from := Groups(m, 0)[k], EndOf(Groups(m, 0)[..k]);
            && 0 <= from <= group.start < group.end <= |m|
            && EndOf(Groups(m, 0)[..k + 1]) == group.end
            && HeadFolded(render, m, k + 1)
               == HeadFolded(render, m, k) + m[from..group.start] + [Receipt(render, m[group.start..group.end])]
            && GroupedMessages(Groups(m, 0)[..k + 1]) == GroupedMessages(Groups(m, 0)[..k]) + (group.end - group.start)
  {
    GroupAt(m, k);
  }

  /** `prepared` with its first group replaced by a receipt. */
  function FoldFirst(render: Renderer, prepared: seq<Message>): seq<Message>
    requires Groups(prepared, 0) != []
  {
    GroupsMeaning(prepared, 0);
    var Group(start, end) := Groups(prepared, 0)[0];
    prepared[..start] + [Receipt(render, prepared[start..end])] + prepared[end..]
  }

  /** Folding the first group of the current messages folds the next group of the original. */
  lemma FoldsNext(render: Renderer, m: seq<Message>, k: nat, prepared: seq<Message>)
    requires Folded(render, m, k, prepared) && k < |Groups(m, 0)|
    ensures Groups(prepared, 0) != [] && IsGroup(prepared, Groups(prepared, 0)[0])
    ensures Groups(prepared, 0)[0].end - Groups(prepared, 0)[0].start == Groups(m, 0)[k].end - Groups(m, 0)[k].start
    ensures Folded(render, m, k + 1, FoldFirst(render, prepared))
  {
    NextGroupPosition(render, m, k, prepared, Groups(m, 0)[k], |HeadFolded(render, m, k)| - EndOf(Groups(m, 0)[..k]));
    SpliceFoldsNext(render, m, k, prepared, Groups(prepared, 0)[0]);
    HeadGrows(render, m, k);
  }

  lemma SpliceFoldsNext(render: Renderer, m: seq<Message>, k: nat, prepared: seq<Message>, first: Group)
    requires k < |Groups(m, 0)| && prepared == FirstFolded(render, m, k) && 0 <= EndOf(Groups(m, 0)[..k]) <= |m|
    requires var delta := |HeadFolded(render, m, k)| - EndOf(Groups(m, 0)[..k]);
             first == Group(Groups(m, 0)[k].start + delta, Groups(m, 0)[k].end + delta)
    requires IsGroup(prepared, first)
    ensures prepared[..first.start] + [Receipt(render, prepared[first.start..first.end])] + prepared[first.end..]
            == FirstFolded(render, m, k + 1)
  {
    var group, head, from := Groups(m, 0)[k], HeadFolded(render, m, k), EndOf(Groups(m, 0)[..k]);
    FoldOneMore(render, m, k);
    SpliceIsFold(head, m, from, group, prepared, Receipt(render, m[group.start..group.end]));
  }

  /** The folded part stays free of groups, and what follows it holds those still to fold. */
  lemma HeadGrows(render: Renderer, m: seq<Message>, k: nat)
    requires k < |Groups(m, 0)| && Quiet(HeadFolded(render, m, k))
    requires var from := EndOf(Groups(m, 0)[..k]); 0 <= from <= |m| && Groups(m, from) == Groups(m, 0)[k..]
    ensures Quiet(HeadFolded(render, m, k + 1))
    ensures var from := EndOf(Groups(m, 0)[..k + 1]); 0 <= from <= |m| && Groups(m, from) == Groups(m, 0)[k + 1..]
  {
    var group, from := Groups(m, 0)[k], EndOf(Groups(m, 0)[..k]);
    FoldOneMore(render, m, k);
    FirstGroup(m, from);
    assert Groups(m, 0)[k..][0] == group && Groups(m, 0)[k..][1..] == Groups(m, 0)[k + 1..];
    HeadStaysQuiet(HeadFolded(render, m, k), m[from..group.start], Receipt(render, m[group.start..group.end]), m, from);
  }

  /** Splicing a receipt over a group of the current messages. */
  lemma SpliceIsFold(
      head: seq<Message>, m: seq<Message>, from: int, group: Group, prepared: seq<Message>, receipt: Message)
    requires 0 <= from <= group.start <= group.end <= |m| && prepared == head + m[from..]
    ensures var s, e := group.start - from + |head|, group.end - from + |head|;
            && prepared[s..e] == m[group.start..group.end]
            && prepared[..s] + [receipt] + prepared[e..] == head + m[from..group.start] + [receipt] + m[group.end..]
  {
  }

  /** The first group from `i` on: nothing starts a group before it, and the others follow it. */
  lemma {:induction false} FirstGroup(m: seq<Message>, i: nat)
    requires i <= |m| && Groups(m, i) != []
    ensures var g := Groups(m, i)[0];
            && i <= g.start && IsGroup(m, g)
            && (forall k :: i <= k < g.start ==> !StartsGroup(m, k))
            && Groups(m, g.end) == Groups(m, i)[1..]
    decreases |m| - i
  {
    if !StartsGroup(m, i) {
      FirstGroup(m, i + 1);
    }
  }

  lemma HeadStaysQuiet(head: seq<Message>, between: seq<Message>, receipt: Message, m: seq<Message>, from: int)
    requires Quiet(head) && !receipt.Opens() && !receipt.IsTool()
    requires 0 <= from && from + |between| <= |m| && between == m[from..from + |between|]
    requires forall k :: from <= k < from + |between| ==> !StartsGroup(m, k)
    ensures Quiet(head + between + [receipt])
  {
    var longer := head + between + [receipt];
    forall i | 0 <= i < |longer| - 1 ensures !(longer[i].Opens() && longer[i + 1].IsTool()) {
      if |head| <= i < |head| + |between| - 1 {
        assert !StartsGroup(m, from + i - |head|);
      }
    }
  }

  // ---------------------------------------------------------------- where the messages end up

  /** By how much the messages behind the first `i` groups move forward. */
  function Gained(groups: seq<Group>, i: nat): int
    requires i <= |groups|
  {
    GroupedMessages(groups[..i]) - i
  }

  lemma {:induction false} HeadLength(render: Renderer, m: seq<Message>, groups: seq<Group>)
    requires InOrder(m, groups)
    ensures 0 <= EndOf(groups) <= |m| && |Head(render, m, groups)| == EndOf(groups) - Gained(groups, |groups|)
  {
    assert groups[..|groups|] == groups;
    if groups != [] {
      var earlier := groups[..|groups| - 1];
      HeadLength(render, m, earlier);
      assert earlier[..|earlier|] == earlier;
    }
  }

  lemma {:induction false} HeadIsPrefix(render: Renderer, m: seq<Message>, groups: seq<Group>, i: nat)
    requires InOrder(m, groups) && i <= |groups|
    ensures Head(render, m, groups[..i]) <= Head(render, m, groups)
    decreases |groups|
  {
    if i == |groups| {
      assert groups[..i] == groups;
    } else {
      var earlier := groups[..|groups| - 1];
      HeadLength(render, m, earlier);
      HeadIsPrefix(render, m, earlier, i);
      assert earlier[..i] == groups[..i];
    }
  }

  /** The stretch of the folded messages that the `i`th group and the messages before it have become. */
  lemma HeadStretch(render: Renderer, m: seq<Message>, groups: seq<Group>, i: nat) returns (head: seq<Message>)
    requires InOrder(m, groups) && i < |groups|
    ensures 0 <= EndOf(groups[..i]) <= groups[i].start && |head| == EndOf(groups[..i]) - Gained(groups, i)
    ensures var receipt := Receipt(render, m[groups[i].start..groups[i].end]);
            head + m[EndOf(groups[..i])..groups[i].start] + [receipt] <= Head(render, m, groups)
  {
    head := Head(render, m, groups[..i]);
    HeadLength(render, m, groups[..i]);
    assert groups[..i][..i] == groups[..i];
    HeadNext(render, m, groups, i);
    HeadIsPrefix(render, m, groups, i + 1);
  }

  lemma HeadNext(render: Renderer, m: seq<Message>, groups: seq<Group>, i: nat)
    requires InOrder(m, groups) && i < |groups|
    ensures 0 <= EndOf(groups[..i]) <= groups[i].start
    ensures Head(render, m, groups[..i + 1])
            == Head(render, m, groups[..i]) + m[EndOf(groups[..i])..groups[i].start]
               + [Receipt(render, m[groups[i].start..groups[i].end])]
  {
    assert groups[..i + 1][..i] == groups[..i];
  }

  lemma ReceiptInPlace(render: Renderer, m: seq<Message>, groups: seq<Group>, i: nat)
    requires InOrder(m, groups) && i < |groups|
    ensures var place := groups[i].start - Gained(groups, i);
            && 0 <= EndOf(groups) <= |m| && 0 <= place < |Compacted(render, m, groups)|
            && Compacted(render, m, groups)[place] == Receipt(render, m[groups[i].start..groups[i].end])
  {
    HeadLength(render, m, groups);
    var head := HeadStretch(render, m, groups, i);
    var from := EndOf(groups[..i]);
    var before := head + m[from..groups[i].start];
    EndOfPrefix(before, Receipt(render, m[groups[i].start..groups[i].end]), Head(render, m, groups));
  }

  lemma EndOfPrefix<T>(before: seq<T>, x: T, all: seq<T>)
    requires before + [x] <= all
    ensures |before| < |all| && all[|before|] == x
  {
    assert all[|before|] == (before + [x])[|before|];
  }

  lemma GapInPlace(render: Renderer, m: seq<Message>, groups: seq<Group>, i: nat, x: nat)
    requires InOrder(m, groups) && i <= |groups| && x < |m|
    requires i > 0 ==> groups[i - 1].end <= x
    requires i < |groups| ==> x < groups[i].start
    ensures var place := x - Gained(groups, i);
            && 0 <= EndOf(groups) <= |m| && 0 <= place < |Compacted(render, m, groups)|
            && Compacted(render, m, groups)[place] == m[x]
  {
    HeadLength(render, m, groups);
    if i < |groups| {
      BetweenInPlace(render, m, groups, i, x);
    } else {
      BehindInPlace(render, m, groups, x);
    }
  }

  lemma BetweenInPlace(render: Renderer, m: seq<Message>, groups: seq<Group>, i: nat, x: nat)
    requires InOrder(m, groups) && i < |groups| && EndOf(groups[..i]) <= x < groups[i].start
    ensures var place := x - Gained(groups, i);
            0 <= place < |Head(render, m, groups)| && Head(render, m, groups)[place] == m[x]
  {
    var head := HeadStretch(render, m, groups, i);
    InsidePrefix(head, m, EndOf(groups[..i]), groups[i].start, Receipt(render, m[groups[i].start..groups[i].end]),
                 Head(render, m, groups), x);
  }

  lemma BehindInPlace(render: Renderer, m: seq<Message>, groups: seq<Group>, x: nat)
    requires InOrder(m, groups) && 0 <= EndOf(groups) <= x < |m|
    ensures var place := x - Gained(groups, |groups|);
            && 0 <= place < |Compacted(render, m, groups)| && Compacted(render, m, groups)[place] == m[x]
  {
    HeadLength(render, m, groups);
  }

  lemma InsidePrefix<T>(head: seq<T>, m: seq<T>, from: int, to: int, y: T, all: seq<T>, x: int)
    requires 0 <= from <= x < to <= |m| && head + m[from..to] + [y] <= all
    ensures |head| + (x - from) < |all| && all[|head| + (x - from)] == m[x]
  {
    assert all[|head| + (x - from)] == (head + m[from..to] + [y])[|head| + (x - from)];
  }

  lemma FoldedIsCompacted(render: Renderer, m: seq<Message>, k: nat) returns (groups: seq<Group>)
    requires k <= |Groups(m, 0)|
    ensures groups == Groups(m, 0)[..k] && InOrder(m, groups)
    ensures FirstFolded(render, m, k) == Compacted(render, m, groups)
  {
    GroupsMeaning(m, 0);
    groups := Groups(m, 0)[..k];
  }

  /** Where a folded group ends up: it has become one user message with the rendered text and metadata. */
  lemma ReceiptPosition(render: Renderer, m: seq<Message>, k: nat, i: nat)
    requires i < k <= |Groups(m, 0)|
    ensures var Group(start, end) := Groups(m, 0)[i];
            var place := start - Gained(Groups(m, 0)[..k], i);
            && 0 <= start < end <= |m| && 0 <= place < |FirstFolded(render, m, k)|
            && FirstFolded(render, m, k)[place]
               == Message("user", render(m[start..end]).0, [], None, None, Some(render(m[start..end]).1))
  {
    var groups := FoldedIsCompacted(render, m, k);
    ReceiptInPlace(render, m, groups, i);
  }

  /** Where a message outside the folded groups ends up: unchanged, behind the first `i` groups. */
  lemma KeptPosition(render: Renderer, m: seq<Message>, k: nat, i: nat, x: nat)
    requires i <= k <= |Groups(m, 0)| && x < |m|
    requires i > 0 ==> Groups(m, 0)[i - 1].end <= x
    requires i < k ==> x < Groups(m, 0)[i].start
    ensures var place := x - Gained(Groups(m, 0)[..k], i);
            0 <= place < |FirstFolded(render, m, k)| && FirstFolded(render, m, k)[place] == m[x]
  {
    var groups := FoldedIsCompacted(render, m, k);
    GapInPlace(render, m, groups, i, x);
  }

  lemma FoldedLength(render: Renderer, m: seq<Message>, k: nat)
    requires k <= |Groups(m, 0)|
    ensures |FirstFolded(render, m, k)| == |m| - GroupedMessages(Groups(m, 0)[..k]) + k
  {
    GroupsMeaning(m, 0);
    var groups := Groups(m, 0)[..k];
    assert groups[..k] == groups;
    HeadLength(render, m, groups);
  }

  // ---------------------------------------------------------------- preparing a prompt

  const SAFETY_MARGIN_TOKENS: nat := 32
  const SOFT_LIMIT_PERCENT: nat := 70
  const TARGET_PERCENT: nat := 60

  function UsableCapacity(contextCapacity: nat, reservedGenerationTokens: nat): nat {
    SaturatingSub(SaturatingSub(contextCapacity, reservedGenerationTokens), SAFETY_MARGIN_TOKENS)
  }

  function PercentOf(capacity: nat, percent: nat): nat {
    SaturatingMul(capacity, percent) / 100
  }

  datatype PreparedPrompt = PreparedPrompt(
    messages: seq<Message>,
    promptTokens: nat,
    usableCapacity: nat,
    compactedMessages: int,
    omittedToolResultChars: nat)

  datatype PromptError = MeasureFailed | ContextLimit(usableCapacity: nat, measuredTokens: nat)

  function OmittedChars(m: seq<Message>): nat {
    if m == [] then 0
    else OmittedChars(m[..|m| - 1]) + if m[|m| - 1].toolResult.Some? then m[|m| - 1].toolResult.value.omittedChars
         else 0
  }

  /** The first `k` groups folded still measure above the limit. */
  predicate MeasuresAbove(render: Renderer, measure: Measure, m: seq<Message>, k: nat, limit: nat)
    requires k <= |Groups(m, 0)|
  {
    var tokens := measure(FirstFolded(render, m, k));
    tokens.Some? && tokens.value > limit
  }

  /** `k` groups are folded: none below the soft limit, else the fewest that meet the target, or all. */
  ghost predicate FoldsExactly(
      render: Renderer, measure: Measure, m: seq<Message>, softLimit: nat, target: nat, k: nat)
  {
    && k <= |Groups(m, 0)|
    && (k > 0 ==> MeasuresAbove(render, measure, m, 0, softLimit))
    && (forall j :: 0 <= j < k ==> MeasuresAbove(render, measure, m, j, target))
    && (MeasuresAbove(render, measure, m, k, target) ==>
          k == |Groups(m, 0)| || (k == 0 && !MeasuresAbove(render, measure, m, 0, softLimit)))
  }

  /** The answer that goes with folding `k` groups. */
  function Answer(
      render: Renderer, measure: Measure, m: seq<Message>, usable: nat, k: nat): Result<PreparedPrompt, PromptError>
    requires k <= |Groups(m, 0)|
  {
    var folded := FirstFolded(render, m, k);
    var tokens := measure(folded);
    if tokens.None? then Err(MeasureFailed)
    else if tokens.value > usable then Err(ContextLimit(usable, tokens.value))
    else Ok(PreparedPrompt(folded, tokens.value, usable, GroupedMessages(Groups(m, 0)[..k]), OmittedChars(folded)))
  }

  method SumOmitted(m: seq<Message>) returns (sum: nat)
    ensures sum == OmittedChars(m)
  {
    sum := 0;
    for i := 0 to |m|
      invariant sum == OmittedChars(m[..i])
    {
      assert m[..i + 1][..i] == m[..i];
      if m[i].toolResult.Some? {
        sum := sum + m[i].toolResult.value.omittedChars;
      }
    }
    assert m[..|m|] == m;
  }

  /** The compaction loop: it folds groups, oldest first, while the prompt measures above the target. */
  method FoldToTarget(render: Renderer, measure: Measure, m: seq<Message>, tokens: nat, target: nat)
    returns (prepared: seq<Message>, measured: Option<nat>, compacted: int, ghost k: nat)
    requires measure(m) == Some(tokens)
    ensures k <= |Groups(m, 0)| && prepared == FirstFolded(render, m, k) && measured == measure(prepared)
    ensures compacted == GroupedMessages(Groups(m, 0)[..k])
    ensures forall j :: 0 <= j < k ==> MeasuresAbove(render, measure, m, j, target)
    ensures MeasuresAbove(render, measure, m, k, target) ==> k == |Groups(m, 0)|
  {
    prepared, measured, compacted, k := m, Some(tokens), 0, 0;
    FoldedStarts(render, m);
    while measured.Some? && measured.value > target
      invariant Folded(render, m, k, prepared) && measured == measure(prepared)
      invariant compacted == GroupedMessages(Groups(m, 0)[..k])
      invariant AllAbove(render, measure, m, k, target)
      decreases |Groups(m, 0)| - k
    {
      assert MeasuresAbove(render, measure, m, k, target);
      GroupsStillToFold(render, m, k, prepared);
      var groups := CompletedToolGroups(prepared);
      if groups == [] {
        break;
      }
      FoldsNext(render, m, k, prepared);
      FoldOneMore(render, m, k);
      var Group(start, end) := groups[0];
      compacted := compacted + (end - start);
      var (content, metadata) := render(prepared[start..end]);
      prepared := prepared[..start] + [Message("user", content, [], None, None, Some(metadata))] + prepared[end..];
      measured := measure(prepared);
      k := k + 1;
    }
    AllAboveMeans(render, measure, m, k, target);
  }

  predicate AllAbove(render: Renderer, measure: Measure, m: seq<Message>, k: nat, target: nat)
    requires k <= |Groups(m, 0)|
  {
    k == 0 || (MeasuresAbove(render, measure, m, k - 1, target) && AllAbove(render, measure, m, k - 1, target))
  }

  lemma {:induction false} AllAboveMeans(render: Renderer, measure: Measure, m: seq<Message>, k: nat, target: nat)
    requires k <= |Groups(m, 0)| && AllAbove(render, measure, m, k, target)
    ensures forall j :: 0 <= j < k ==> MeasuresAbove(render, measure, m, j, target)
  {
    if k > 0 {
      AllAboveMeans(render, measure, m, k - 1, target);
    }
  }

  /** The tokens, the generation reserve and a margin of 32 fit the context together. A prompt that
      measures no token at all counts as fitting even if the reserve and the margin alone do not. */
  predicate FitsContext(tokens: nat, contextCapacity: nat, reservedGenerationTokens: nat) {
    || tokens + reservedGenerationTokens + 32 <= contextCapacity
    || (tokens == 0 && contextCapacity < reservedGenerationTokens + 32)
  }

  /** The first `k` groups folded measure above this percentage of what reserve and margin leave of the
      context. The product is taken in 64 bits, saturating. */
  predicate MeasuresAbovePercent(
      render: Renderer, measure: Measure, m: seq<Message>, k: nat, percent: nat,
      contextCapacity: nat, reservedGenerationTokens: nat)
    requires k <= |Groups(m, 0)|
  {
    var tokens := measure(FirstFolded(render, m, k));
    tokens.Some?
    && 100 * tokens.value > Min(percent * Max(contextCapacity - reservedGenerationTokens - 32, 0), WORD_MAX)
  }

  /** `k` groups are folded: none up to 70 percent, else the fewest that come down to 60, or all. */
  ghost predicate FoldsFrom70To60(
      render: Renderer, measure: Measure, m: seq<Message>, contextCapacity: nat, reservedGenerationTokens: nat, k: nat)
  {
    && k <= |Groups(m, 0)|
    && (k > 0 ==> MeasuresAbovePercent(render, measure, m, 0, 70, contextCapacity, reservedGenerationTokens))
    && (forall j :: 0 <= j < k ==>
          MeasuresAbovePercent(render, measure, m, j, 60, contextCapacity, reservedGenerationTokens))
    && (MeasuresAbovePercent(render, measure, m, k, 60, contextCapacity, reservedGenerationTokens) ==>
          || k == |Groups(m, 0)|
          || (k == 0 && !MeasuresAbovePercent(render, measure, m, 0, 70, contextCapacity, reservedGenerationTokens)))
  }

  lemma UsableIffFits(tokens: nat, contextCapacity: nat, reservedGenerationTokens: nat)
    ensures tokens <= UsableCapacity(contextCapacity, reservedGenerationTokens)
            <==> FitsContext(tokens, contextCapacity, reservedGenerationTokens)
  {
  }

  lemma AbovePercent(tokens: nat, capacity: nat, percent: nat)
    ensures tokens > PercentOf(capacity, percent) <==> 100 * tokens > Min(percent * capacity, WORD_MAX)
  {
    var product := SaturatingMul(capacity, percent);
    assert product == Min(percent * capacity, WORD_MAX);
    assert product == 100 * (product / 100) + product % 100;
  }

  lemma FoldsBetweenPercents(
      render: Renderer, measure: Measure, m: seq<Message>, contextCapacity: nat, reservedGenerationTokens: nat, k: nat)
    requires var usable := UsableCapacity(contextCapacity, reservedGenerationTokens);
             FoldsExactly(render, measure, m, PercentOf(usable, SOFT_LIMIT_PERCENT),
                          PercentOf(usable, TARGET_PERCENT), k)
    ensures FoldsFrom70To60(render, measure, m, contextCapacity, reservedGenerationTokens, k)
  {
    var usable := UsableCapacity(contextCapacity, reservedGenerationTokens);
    forall j, percent: nat | 0 <= j <= |Groups(m, 0)|
      ensures MeasuresAbove(render, measure, m, j, PercentOf(usable, percent))
              <==> MeasuresAbovePercent(render, measure, m, j, percent, contextCapacity, reservedGenerationTokens)
    {
      var tokens := measure(FirstFolded(render, m, j));
      if tokens.Some? {
        AbovePercent(tokens.value, usable, percent);
      }
    }
  }

  /** Folds exactly the groups it should, and fails only when the folded prompt cannot be measured or
      leaves no room for the reserve and the margin. */
  method PreparePrompt(
      render: Renderer, measure: Measure, m: seq<Message>, contextCapacity: nat, reservedGenerationTokens: nat)
    returns (r: Result<PreparedPrompt, PromptError>)
    ensures exists k :: FoldsFrom70To60(render, measure, m, contextCapacity, reservedGenerationTokens, k)
                        && r == Answer(render, measure, m, UsableCapacity(contextCapacity, reservedGenerationTokens), k)
    ensures r.Ok? ==> FitsContext(r.value.promptTokens, contextCapacity, reservedGenerationTokens)
    ensures r.Err? && r.error.ContextLimit? ==>
              && !FitsContext(r.error.measuredTokens, contextCapacity, reservedGenerationTokens)
              && r.error.usableCapacity == Max(contextCapacity - reservedGenerationTokens - 32, 0)
  {
    var usable := UsableCapacity(contextCapacity, reservedGenerationTokens);
    var softLimit, target := PercentOf(usable, SOFT_LIMIT_PERCENT), PercentOf(usable, TARGET_PERCENT);
    var prepared, measured, compacted := m, measure(m), 0;
    ghost var k: nat := 0;
    FoldedStarts(render, m);
    if measured.Some? && measured.value > softLimit {
      prepared, measured, compacted, k := FoldToTarget(render, measure, m, measured.value, target);
    }
    assert FoldsExactly(render, measure, m, softLimit, target, k);
    FoldsBetweenPercents(render, measure, m, contextCapacity, reservedGenerationTokens, k);
    if measured.None? {
      return Err(MeasureFailed);
    }
    UsableIffFits(measured.value, contextCapacity, reservedGenerationTokens);
    var omitted := SumOmitted(prepared);
    if measured.value > usable {
      return Err(ContextLimit(usable, measured.value));
    }
    return Ok(PreparedPrompt(prepared, measured.value, usable, compacted, omitted));
  }

  /** An empty measurement passes although the reserve does not fit the context. */
  lemma EmptyMeasurementPasses(render: Renderer, m: seq<Message>, reservedGenerationTokens: nat)
    ensures var usable := UsableCapacity(0, reservedGenerationTokens);
            Answer(render, _ => Some(0), m, usable, 0).Ok? && !(0 + reservedGenerationTokens + 32 <= 0)
  {
  }

  /** The number of folded groups, and so the whole answer, is determined. */
  lemma FoldCountIsUnique(
      render: Renderer, measure: Measure, m: seq<Message>, contextCapacity: nat, reservedGenerationTokens: nat,
      k: nat, l: nat)
    requires FoldsFrom70To60(render, measure, m, contextCapacity, reservedGenerationTokens, k)
    requires FoldsFrom70To60(render, measure, m, contextCapacity, reservedGenerationTokens, l)
    ensures k == l
  {
    var left := Max(contextCapacity - reservedGenerationTokens - 32, 0);
    assert Min(60 * left, WORD_MAX) <= Min(70 * left, WORD_MAX);
  }

  // ---------------------------------------------------------------- no orphaned tool results

  /** Every tool message directly continues a group. */
  predicate Anchored(m: seq<Message>) {
    forall i :: 0 <= i < |m| && m[i].IsTool() ==> AnchoredAt(m, i)
  }

  predicate AnchoredAt(m: seq<Message>, i: nat)
    requires i < |m|
  {
    i > 0 && (m[i - 1].Opens() || m[i - 1].IsTool())
  }

  /** Anchored means: each tool message lies in a completed group. */
  lemma {:induction false} AnchoredToolIsGrouped(m: seq<Message>, i: nat) returns (group: Group)
    requires Anchored(m) && i < |m| && m[i].IsTool()
    ensures group in Groups(m, 0) && group.start < i < group.end
  {
    assert AnchoredAt(m, i);
    GroupsMeaning(m, 0);
    if m[i - 1].IsTool() {
      group := AnchoredToolIsGrouped(m, i - 1);
      assert IsGroup(m, group);
    } else {
      group := Group(i - 1, ToolEnd(m, i));
      assert IsGroup(m, group);
    }
  }

  lemma AnchoredJoin(head: seq<Message>, tail: seq<Message>)
    requires Anchored(head) && (forall i :: 0 < i < |tail| && tail[i].IsTool() ==> AnchoredAt(tail, i))
    requires tail != [] ==> !tail[0].IsTool()
    ensures Anchored(head + tail)
  {
    var joined := head + tail;
    forall i | 0 <= i < |joined| && joined[i].IsTool() ensures AnchoredAt(joined, i) {
      if i < |head| {
        assert AnchoredAt(head, i);
      } else {
        assert AnchoredAt(tail, i - |head|);
      }
    }
  }

  lemma AnchoredSlice(m: seq<Message>, from: int, to: int)
    requires Anchored(m) && 0 <= from <= to <= |m|
    ensures forall i :: 0 < i < to - from && m[from..to][i].IsTool() ==> AnchoredAt(m[from..to], i)
  {
    forall i | 0 < i < to - from && m[from..to][i].IsTool() ensures AnchoredAt(m[from..to], i) {
      assert AnchoredAt(m, from + i);
    }
  }

  /** The folded part is anchored, and what follows it starts with no tool message. */
  lemma {:induction false} HeadIsAnchored(render: Renderer, m: seq<Message>, k: nat)
    requires k <= |Groups(m, 0)| && Anchored(m)
    ensures Anchored(HeadFolded(render, m, k))
    ensures var end := EndOf(Groups(m, 0)[..k]); 0 <= end <= |m| && (end < |m| ==> !m[end].IsTool())
  {
    if k > 0 {
      HeadIsAnchored(render, m, k - 1);
      GroupAt(m, k - 1);
      var group, from := Groups(m, 0)[k - 1], EndOf(Groups(m, 0)[..k - 1]);
      var head, between := HeadFolded(render, m, k - 1), m[from..group.start];
      AnchoredSlice(m, from, group.start);
      AnchoredJoin(head, between);
      AnchoredJoin(head + between, [Receipt(render, m[group.start..group.end])]);
    }
  }

  /** Folding orphans no tool message. */
  lemma FoldingKeepsAnchors(render: Renderer, m: seq<Message>, k: nat)
    requires k <= |Groups(m, 0)| && Anchored(m)
    ensures Anchored(FirstFolded(render, m, k))
  {
    HeadIsAnchored(render, m, k);
    var from := EndOf(Groups(m, 0)[..k]);
    AnchoredSlice(m, from, |m|);
    AnchoredJoin(HeadFolded(render, m, k), m[from..]);
  }
}
