/** Spelling suggestions: the two-row Levenshtein computation, the metric it computes and the choice
    of the nearest tool name. */
module EditDistance {
  import opened Wrappers
  import opened StringOrder

  // ---------------------------------------------------------------- the distance

  function Differ(x: char, y: char): nat {
    if x == y then 0 else 1
  }

  /** The recursive definition, on last characters. */
  function Distance(a: string, b: string): nat
    decreases |a| + |b|
  {
    if a == "" then |b|
    else if b == "" then |a|
    else
      var a', b' := a[..|a| - 1], b[..|b| - 1];
      Min(Min(Distance(a', b) + 1, Distance(a, b') + 1), Distance(a', b') + Differ(a[|a| - 1], b[|b| - 1]))
  }

  /** The distance between a prefix of each string: one cell of the table. */
  function Cell(left: string, right: string, l: nat, r: nat): nat
    requires l <= |left| && r <= |right|
  {
    Distance(left[..l], right[..r])
  }

  lemma CellStep(left: string, right: string, l: nat, r: nat)
    requires l < |left| && r < |right|
    ensures Cell(left, right, l + 1, r + 1) ==
              Min(Min(Cell(left, right, l, r + 1) + 1, Cell(left, right, l + 1, r) + 1),
                  Cell(left, right, l, r) + Differ(left[l], right[r]))
  {
    assert left[..l + 1][..l] == left[..l] && right[..r + 1][..r] == right[..r];
  }

  /** `row` holds the first cells of row `l` of the table. */
  ghost predicate IsRow(left: string, right: string, l: nat, row: seq<nat>) {
    l <= |left| && |row| <= |right| + 1 && forall r :: 0 <= r < |row| ==> row[r] == Cell(left, right, l, r)
  }

  /** The two-row dynamic program computes the distance. */
  method EditDistance(left: string, right: string) returns (distance: nat)
    ensures distance == Distance(left, right)
  {
    var previous: seq<nat> := seq(|right| + 1, (i: nat) => i);
    for l := 0 to |left|
      invariant |previous| == |right| + 1 && IsRow(left, right, l, previous)
    {
      var current: seq<nat> := [l + 1];
      for r := 0 to |right|
        invariant |current| == r + 1 && IsRow(left, right, l + 1, current)
      {
        CellStep(left, right, l, r);
        current := current + [Min(
          Min(previous[r + 1] + 1, current[r] + 1),
          previous[r] + if left[l] != right[r] then 1 else 0)];
      }
      previous := current;
    }
    assert left[..|left|] == left && right[..|right|] == right;
    return previous[|right|];
  }

  // ---------------------------------------------------------------- a metric

  lemma {:induction false} DistanceBounds(a: string, b: string)
    ensures |a| - |b| <= Distance(a, b) && |b| - |a| <= Distance(a, b)
    ensures Distance(a, b) <= Max(|a|, |b|)
    decreases |a| + |b|
  {
    if a != "" && b != "" {
      var a', b' := a[..|a| - 1], b[..|b| - 1];
      DistanceBounds(a', b);
      DistanceBounds(a, b');
      DistanceBounds(a', b');
    }
  }

  lemma {:induction false} DistanceZeroIffEqual(a: string, b: string)
    ensures Distance(a, b) == 0 <==> a == b
    decreases |a| + |b|
  {
    if a != "" && b != "" {
      var a', b' := a[..|a| - 1], b[..|b| - 1];
      DistanceZeroIffEqual(a', b');
      assert a == a' + [a[|a| - 1]] && b == b' + [b[|b| - 1]];
    }
  }

  lemma {:induction false} DistanceSymmetric(a: string, b: string)
    ensures Distance(a, b) == Distance(b, a)
    decreases |a| + |b|
  {
    if a != "" && b != "" {
      var a', b' := a[..|a| - 1], b[..|b| - 1];
      DistanceSymmetric(a', b);
      DistanceSymmetric(a, b');
      DistanceSymmetric(a', b');
    }
  }

  lemma {:induction false} DistanceTriangle(a: string, b: string, c: string)
    ensures Distance(a, c) <= Distance(a, b) + Distance(b, c)
    decreases |a| + |b| + |c|
  {
    if a == "" || b == "" || c == "" {
      DistanceBounds(a, b);
      DistanceBounds(b, c);
      DistanceBounds(a, c);
    } else {
      var a', b', c' := a[..|a| - 1], b[..|b| - 1], c[..|c| - 1];
      DistanceTriangle(a', b, c);
      DistanceTriangle(a, b, c');
      DistanceTriangle(a, b', c);
      DistanceTriangle(a, b', c');
      DistanceTriangle(a', b', c);
      DistanceTriangle(a', b', c');
    }
  }

  // ---------------------------------------------------------------- scripts of single edits

  /** `t` is `s` with a character inserted at `i`. */
  predicate InsertedAt(s: string, t: string, i: nat) {
    i <= |s| && |t| == |s| + 1 && t[..i] == s[..i] && t[i + 1..] == s[i..]
  }

  predicate SubstitutedAt(s: string, t: string, i: nat) {
    i < |s| && |t| == |s| && t[..i] == s[..i] && t[i + 1..] == s[i + 1..]
  }

  predicate EditedAt(s: string, t: string, i: nat) {
    InsertedAt(s, t, i) || InsertedAt(t, s, i) || SubstitutedAt(s, t, i)
  }

  /** `t` is `s` with one character inserted, deleted or substituted. */
  ghost predicate OneEdit(s: string, t: string) {
    exists i :: EditedAt(s, t, i)
  }

  /** Successive strings of a script differ by one edit. */
  ghost predicate IsScript(script: seq<string>, a: string, b: string) {
    && |script| > 0 && script[0] == a && script[|script| - 1] == b
    && forall k :: 0 <= k < |script| - 1 ==> EditAt(script, k)
  }

  ghost predicate EditAt(script: seq<string>, k: nat)
    requires k + 1 < |script|
  {
    OneEdit(script[k], script[k + 1])
  }

  lemma {:induction false} CommonSuffix(a: string, b: string, s: string)
    ensures Distance(a + s, b + s) <= Distance(a, b)
  {
    if s == "" {
      assert a + s == a && b + s == b;
    } else {
      var s', last := s[..|s| - 1], s[|s| - 1];
      CommonSuffix(a, b, s');
      assert (a + s)[..|a + s| - 1] == a + s' && (b + s)[..|b + s| - 1] == b + s';
    }
  }

  lemma InsertedIsClose(s: string, t: string, i: nat)
    requires InsertedAt(s, t, i)
    ensures Distance(s, t) <= 1 && Distance(t, s) <= 1
  {
    var prefix, longer, suffix := s[..i], t[..i + 1], s[i..];
    assert longer[..i] == prefix;
    DistanceZeroIffEqual(prefix, prefix);
    assert Distance(prefix, longer) <= 1;
    CommonSuffix(prefix, longer, suffix);
    assert s == prefix + suffix && t == longer + suffix;
    DistanceSymmetric(s, t);
  }

  lemma SubstitutedIsClose(s: string, t: string, i: nat)
    requires SubstitutedAt(s, t, i)
    ensures Distance(s, t) <= 1
  {
    var from, to, suffix := s[..i + 1], t[..i + 1], s[i + 1..];
    assert from[..i] == s[..i] && to[..i] == t[..i];
    DistanceZeroIffEqual(s[..i], t[..i]);
    assert Distance(from, to) <= 1;
    CommonSuffix(from, to, suffix);
    assert s == from + suffix && t == to + suffix;
  }

  /** One edit moves at most one unit of distance. */
  lemma OneEditIsClose(s: string, t: string)
    requires OneEdit(s, t)
    ensures Distance(s, t) <= 1
  {
    var i :| EditedAt(s, t, i);
    if InsertedAt(s, t, i) {
      InsertedIsClose(s, t, i);
    } else if InsertedAt(t, s, i) {
      InsertedIsClose(t, s, i);
    } else {
      SubstitutedIsClose(s, t, i);
    }
  }

  /** No script is shorter than the distance. */
  lemma {:induction false} ScriptsAreLongEnough(script: seq<string>, a: string, b: string)
    requires IsScript(script, a, b)
    ensures Distance(a, b) <= |script| - 1
  {
    if |script| == 1 {
      DistanceZeroIffEqual(a, b);
    } else {
      var shorter, middle := script[..|script| - 1], script[|script| - 2];
      forall k | 0 <= k < |shorter| - 1 ensures EditAt(shorter, k) {
        assert EditAt(script, k);
      }
      ScriptsAreLongEnough(shorter, a, middle);
      assert EditAt(script, |script| - 2);
      OneEditIsClose(middle, b);
      DistanceTriangle(a, middle, b);
    }
  }

  lemma InsertedOnSuffixed(s: string, t: string, i: nat, suffix: string)
    requires InsertedAt(s, t, i)
    ensures InsertedAt(s + suffix, t + suffix, i)
  {
    assert (s + suffix)[..i] == s[..i] && (t + suffix)[..i] == t[..i];
    assert (s + suffix)[i..] == s[i..] + suffix && (t + suffix)[i + 1..] == t[i + 1..] + suffix;
  }

  lemma SubstitutedOnSuffixed(s: string, t: string, i: nat, suffix: string)
    requires SubstitutedAt(s, t, i)
    ensures SubstitutedAt(s + suffix, t + suffix, i)
  {
    assert (s + suffix)[..i] == s[..i] && (t + suffix)[..i] == t[..i];
    assert (s + suffix)[i + 1..] == s[i + 1..] + suffix && (t + suffix)[i + 1..] == t[i + 1..] + suffix;
  }

  lemma OneEditOnSuffixed(s: string, t: string, suffix: string)
    requires OneEdit(s, t)
    ensures OneEdit(s + suffix, t + suffix)
  {
    var i :| EditedAt(s, t, i);
    if InsertedAt(s, t, i) {
      InsertedOnSuffixed(s, t, i, suffix);
    } else if InsertedAt(t, s, i) {
      InsertedOnSuffixed(t, s, i, suffix);
    } else {
      SubstitutedOnSuffixed(s, t, i, suffix);
    }
    assert EditedAt(s + suffix, t + suffix, i);
  }

  /** A script still works with a suffix added to every string. */
  lemma SuffixedScript(script: seq<string>, a: string, b: string, suffix: string) returns (longer: seq<string>)
    requires IsScript(script, a, b)
    ensures IsScript(longer, a + suffix, b + suffix) && |longer| == |script|
  {
    longer := seq(|script|, k requires 0 <= k < |script| => script[k] + suffix);
    forall k | 0 <= k < |longer| - 1 ensures EditAt(longer, k) {
      assert EditAt(script, k);
      OneEditOnSuffixed(script[k], script[k + 1], suffix);
    }
  }

  lemma AppendEdit(script: seq<string>, a: string, b: string, c: string)
    requires IsScript(script, a, b) && OneEdit(b, c)
    ensures IsScript(script + [c], a, c)
  {
    forall k | 0 <= k < |script| ensures EditAt(script + [c], k) {
      if k < |script| - 1 { assert EditAt(script, k); }
    }
  }

  /** Some script is exactly as long as the distance. */
  lemma {:induction false} ShortestScript(a: string, b: string) returns (script: seq<string>)
    ensures IsScript(script, a, b) && |script| - 1 == Distance(a, b)
    decreases |a| + |b|, 1
  {
    if a == "" && b == "" {
      script := [a];
    } else if b != "" && (a == "" || Distance(a, b) == Distance(a, b[..|b| - 1]) + 1) {
      var b' := b[..|b| - 1];
      script := ShortestScript(a, b');
      assert EditedAt(b', b, |b'|);
      AppendEdit(script, a, b', b);
      script := script + [b];
    } else if a != "" && (b == "" || Distance(a, b) == Distance(a[..|a| - 1], b) + 1) {
      script := DeleteLast(a, b);
    } else {
      script := ReplaceLast(a, b);
    }
  }

  /** Scripts for strings whose last character the edits delete. */
  lemma DeleteLast(a: string, b: string) returns (script: seq<string>)
    requires a != "" && Distance(a, b) == Distance(a[..|a| - 1], b) + 1
    ensures IsScript(script, a, b) && |script| - 1 == Distance(a, b)
    decreases |a| + |b|, 0
  {
    var a', last := a[..|a| - 1], a[|a| - 1..];
    var shorter := ShortestScript(a', b);
    script := SuffixedScript(shorter, a', b, last);
    assert a' + last == a;
    assert EditedAt(b + last, b, |b|);
    AppendEdit(script, a, b + last, b);
    script := script + [b];
  }

  /** Scripts for strings whose last characters the edits keep or substitute. */
  lemma ReplaceLast(a: string, b: string) returns (script: seq<string>)
    requires a != "" && b != ""
    requires Distance(a, b) == Distance(a[..|a| - 1], b[..|b| - 1]) + Differ(a[|a| - 1], b[|b| - 1])
    ensures IsScript(script, a, b) && |script| - 1 == Distance(a, b)
    decreases |a| + |b|, 0
  {
    var a', b', last := a[..|a| - 1], b[..|b| - 1], a[|a| - 1..];
    var shorter := ShortestScript(a', b');
    script := SuffixedScript(shorter, a', b', last);
    assert a' + last == a;
    if a[|a| - 1] == b[|b| - 1] {
      assert b' + last == b;
    } else {
      assert EditedAt(b' + last, b, |b'|);
      AppendEdit(script, a, b' + last, b);
      script := script + [b];
    }
  }

  /** The distance is the minimum number of single-character edits. */
  lemma DistanceIsMinimalScript(a: string, b: string)
    ensures exists script :: IsScript(script, a, b) && |script| - 1 == Distance(a, b)
    ensures forall script :: IsScript(script, a, b) ==> |script| - 1 >= Distance(a, b)
  {
    var script := ShortestScript(a, b);
    forall other | IsScript(other, a, b) ensures |other| - 1 >= Distance(a, b) {
      ScriptsAreLongEnough(other, a, b);
    }
  }

  // ---------------------------------------------------------------- the nearest tool

  /** The order candidates are sorted in: by distance, then by name. */
  predicate Nearer(requested: string, s: string, t: string) {
    var ds, dt := Distance(requested, s), Distance(requested, t);
    ds < dt || (ds == dt && AtMost(s, t))
  }

  ghost predicate IsNearest(requested: string, exposed: seq<string>, t: string) {
    t in exposed && forall s :: s in exposed ==> Nearer(requested, t, s)
  }

  /** How far a suggestion may be from the requested name. */
  predicate CloseEnough(requested: string, t: string) {
    0 < Distance(requested, t) <= 2 && Distance(requested, t) <= Max(Max(|requested|, |t|) / 3, 1)
  }

  /** The first candidate in sorted order. */
  method LeastCandidate(requested: string, exposed: seq<string>) returns (distance: nat, least: string)
    requires exposed != []
    ensures IsNearest(requested, exposed, least) && distance == Distance(requested, least)
  {
    least := exposed[0];
    distance := EditDistance(requested, least);
    for i := 1 to |exposed|
      invariant least in exposed[..i] && distance == Distance(requested, least)
      invariant forall s :: s in exposed[..i] ==> Nearer(requested, least, s)
    {
      var candidate := exposed[i];
      var d := EditDistance(requested, candidate);
      assert exposed[..i + 1] == exposed[..i] + [candidate];
      LessIsTotal(least, candidate);
      if d < distance || (d == distance && Less(candidate, least)) {
        forall s | s in exposed[..i] ensures Nearer(requested, candidate, s) {
          if Less(candidate, least) && Less(least, s) { LessIsTransitive(candidate, least, s); }
        }
        least, distance := candidate, d;
      }
    }
    assert exposed[..|exposed|] == exposed;
  }

  /** Suggests the nearest exposed name, the lexicographically least among equals, if it is close enough. */
  method NearestTool(requested: string, exposed: seq<string>) returns (r: Option<string>)
    ensures r.Some? ==> IsNearest(requested, exposed, r.value) && CloseEnough(requested, r.value)
    ensures r.None? ==> forall t :: IsNearest(requested, exposed, t) ==> !CloseEnough(requested, t)
    ensures requested in exposed ==> r.None?
  {
    if exposed == [] {
      return None;
    }
    var distance, candidate := LeastCandidate(requested, exposed);
    var threshold := Max(|requested|, |candidate|) / 3;
    DistanceZeroIffEqual(requested, requested);
    forall t | IsNearest(requested, exposed, t) ensures t == candidate {
      LessIsTotal(t, candidate);
    }
    return if distance > 0 && distance <= 2 && distance <= Max(threshold, 1) then Some(candidate) else None;
  }
}
