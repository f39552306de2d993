/** The no-progress guard: it warns and then blocks a run whose tool calls keep failing while nothing
    in the workspace or the evidence changes. */
module ProgressGuard {
  import opened Wrappers

  const MAX_PROGRESS_WINDOW: nat := 8

  datatype ProgressState = ProgressState(workspaceFingerprint: string, evidenceFingerprint: string)

  datatype Observation = Observation(
    toolFamily: string,
    callFingerprint: string,
    outcomeFingerprint: string,
    outcomeSummary: string,
    success: bool,
    state: ProgressState)

  datatype FailedOutcome = FailedOutcome(signature: string, callFingerprint: string, family: string, summary: string)

  datatype Decision = Continue | Warn | Block

  datatype PreflightDecision = Proceed | Redirect | BlockCall

  function FailureOf(o: Observation): FailedOutcome {
    FailedOutcome(o.toolFamily + ":" + o.outcomeFingerprint, o.callFingerprint, o.toolFamily, o.outcomeSummary)
  }

  // ---------------------------------------------------------------- decisions as functions of history

  function Count(failures: seq<FailedOutcome>, signature: string): nat {
    if failures == [] then 0
    else Count(failures[..|failures| - 1], signature) + if failures[|failures| - 1].signature == signature then 1 else 0
  }

  /** The last failure repeats the one before the previous, with a different one between. */
  predicate Alternates(failures: seq<FailedOutcome>) {
    var n := |failures|;
    && n >= 3
    && failures[n - 3].signature == failures[n - 1].signature
    && failures[n - 2].signature != failures[n - 1].signature
  }

  /** Does the last of these failures, all since the latest reset, stop the run? */
  predicate Blocks(history: seq<FailedOutcome>) {
    && history != []
    && (Count(Last(history, MAX_PROGRESS_WINDOW), history[|history| - 1].signature) >= 3 || Alternates(history))
  }

  /** What the guard answers to the last failure of a history: a warning on exactly the second one. */
  function Decide(history: seq<FailedOutcome>): Decision {
    if Blocks(history) then Block else if |history| == 2 then Warn else Continue
  }

  lemma {:induction false} CountAtMostLength(failures: seq<FailedOutcome>, signature: string)
    ensures Count(failures, signature) <= |failures|
  {
    if failures != [] {
      CountAtMostLength(failures[..|failures| - 1], signature);
    }
  }

  /** Every block comes after a warning. */
  lemma WarnedBeforeBlocked(history: seq<FailedOutcome>)
    requires Decide(history) == Block
    ensures |history| >= 3 && Decide(history[..2]) == Warn
  {
    CountAtMostLength(Last(history, MAX_PROGRESS_WINDOW), history[|history| - 1].signature);
    CountAtMostLength(Last(history[..2], MAX_PROGRESS_WINDOW), history[..2][|history[..2]| - 1].signature);
  }

  // ---------------------------------------------------------------- what is blocked

  /** Outcome fingerprints are hexadecimal digests, so they have no colon. */
  ghost predicate HasNoColon(s: string) {
    forall i :: 0 <= i < |s| ==> s[i] != ':'
  }

  /** Two failures are of one kind if and only if tool family and outcome agree. */
  lemma SameKindIff(a: Observation, b: Observation)
    requires HasNoColon(a.outcomeFingerprint) && HasNoColon(b.outcomeFingerprint)
    ensures FailureOf(a).signature == FailureOf(b).signature <==>
              a.toolFamily == b.toolFamily && a.outcomeFingerprint == b.outcomeFingerprint
  {
    var f, p, g, q := a.toolFamily, a.outcomeFingerprint, b.toolFamily, b.outcomeFingerprint;
    assert FailureOf(a).signature == f + [':'] + p && FailureOf(b).signature == g + [':'] + q;
    if f + [':'] + p == g + [':'] + q {
      NoLaterColon(f, p, g, q);
      NoLaterColon(g, q, f, p);
      assert f == (f + [':'] + p)[..|f|] && g == (g + [':'] + q)[..|g|];
      assert p == (f + [':'] + p)[|f| + 1..] && q == (g + [':'] + q)[|g| + 1..];
    }
  }

  lemma NoLaterColon(f: string, p: string, g: string, q: string)
    requires HasNoColon(p) && f + [':'] + p == g + [':'] + q
    ensures |g| <= |f|
  {
    var s := f + [':'] + p;
    assert forall i :: |f| < i < |s| ==> s[i] == p[i - |f| - 1];
    assert (g + [':'] + q)[|g|] == ':';
  }

  /** The failures between `from` and `to` that are of the given kind. */
  function OfKind(history: seq<FailedOutcome>, from: nat, to: nat, signature: string): set<nat>
    requires to <= |history|
  {
    set i | from <= i < to && history[i].signature == signature
  }

  lemma {:induction false} CountIsOfKind(history: seq<FailedOutcome>, from: nat, to: nat, signature: string)
    requires from <= to <= |history|
    ensures Count(history[from..to], signature) == |OfKind(history, from, to, signature)|
  {
    if from < to {
      CountIsOfKind(history, from, to - 1, signature);
      assert history[from..to][..to - 1 - from] == history[from..to - 1];
      OfKindNext(history, from, to, signature);
    }
  }

  lemma OfKindNext(history: seq<FailedOutcome>, from: nat, to: nat, signature: string)
    requires from < to <= |history|
    ensures |OfKind(history, from, to, signature)|
            == |OfKind(history, from, to - 1, signature)| + if history[to - 1].signature == signature then 1 else 0
  {
    OfKindGrows(history, from, to, signature);
    assert to - 1 !in OfKind(history, from, to - 1, signature);
  }

  lemma OfKindGrows(history: seq<FailedOutcome>, from: nat, to: nat, signature: string)
    requires from < to <= |history|
    ensures OfKind(history, from, to, signature) == OfKind(history, from, to - 1, signature)
                                                    + if history[to - 1].signature == signature then {to - 1} else {}
  {
  }

  /** A failure stops the run if and only if three of the latest eight failures, itself included, are of
      its kind, or the one before the previous is of its kind and the previous is not. */
  lemma BlocksIff(history: seq<FailedOutcome>)
    requires history != []
    ensures var n := |history|;
            Decide(history) == Block <==>
              || |OfKind(history, Max(n - 8, 0), n, history[n - 1].signature)| >= 3
              || (n >= 3 && history[n - 3].signature == history[n - 1].signature != history[n - 2].signature)
  {
    var n := |history|;
    CountIsOfKind(history, Max(n - 8, 0), n, history[n - 1].signature);
    assert history[Max(n - 8, 0)..n] == Last(history, MAX_PROGRESS_WINDOW);
  }

  /** A second kind of failure between two of a first stops the run at the third, whatever came before. */
  lemma AlternationIsBlocked(history: seq<FailedOutcome>, a: FailedOutcome, b: FailedOutcome, c: FailedOutcome)
    requires a.signature == c.signature != b.signature
    ensures Decide(history + [a, b, c]) == Block
  {
    BlocksIff(history + [a, b, c]);
  }

  // ---------------------------------------------------------------- how soon it blocks

  lemma {:induction false} ThreeSignaturesCount(history: seq<FailedOutcome>, a: string, b: string, c: string)
    requires forall f :: f in history ==> f.signature in {a, b, c}
    ensures Count(history, a) + Count(history, b) + Count(history, c) >= |history|
  {
    if history != [] {
      ThreeSignaturesCount(history[..|history| - 1], a, b, c);
    }
  }

  /** A failure seen three times was seen for the third time at some point. */
  lemma {:induction false} ThirdOccurrence(history: seq<FailedOutcome>, signature: string) returns (n: nat)
    requires Count(history, signature) >= 3
    ensures 0 < n <= |history| && history[n - 1].signature == signature && Count(history[..n], signature) >= 3
  {
    var shorter := history[..|history| - 1];
    if history[|history| - 1].signature == signature {
      n := |history|;
      assert history[..n] == history;
    } else {
      n := ThirdOccurrence(shorter, signature);
      assert shorter[..n] == history[..n];
    }
  }

  /** With at most three kinds of failure the run is blocked by the seventh failure. */
  lemma BlockedBySeventhFailure(history: seq<FailedOutcome>, a: string, b: string, c: string) returns (n: nat)
    requires |history| == 7 && forall f :: f in history ==> f.signature in {a, b, c}
    ensures 0 < n <= 7 && Decide(history[..n]) == Block
  {
    ThreeSignaturesCount(history, a, b, c);
    var often := if Count(history, a) >= 3 then a else if Count(history, b) >= 3 then b else c;
    n := ThirdOccurrence(history, often);
    assert Last(history[..n], MAX_PROGRESS_WINDOW) == history[..n];
  }

  function Failure(signature: string): FailedOutcome {
    FailedOutcome(signature, "", "", "")
  }

  /** Six failures of three kinds need not block: the bound of seven is tight. */
  lemma SixFailuresMayPass(n: nat)
    requires n <= 6
    ensures var a, b, c := Failure("a"), Failure("b"), Failure("c");
            Decide([a, a, b, b, c, c][..n]) != Block
  {
    var a, b, c := Failure("a"), Failure("b"), Failure("c");
    assert a.signature[0] != b.signature[0] && b.signature[0] != c.signature[0] && a.signature[0] != c.signature[0];
    var h1, h2, h3, h4, h5, h6 := [a], [a, a], [a, a, b], [a, a, b, b], [a, a, b, b, c], [a, a, b, b, c, c];
    assert h6[..5] == h5 && h6[..4] == h4 && h6[..3] == h3 && h6[..2] == h2 && h6[..1] == h1;
    assert h6[..0] == [] && h6[..6] == h6;
    assert h5[..4] == h4 && h4[..3] == h3 && h3[..2] == h2 && h2[..1] == h1 && h1[..0] == [];
    assert Count(h1, "a") == 1 && Count(h1, "b") == 0 && Count(h1, "c") == 0;
    assert Count(h2, "a") == 2 && Count(h2, "b") == 0 && Count(h2, "c") == 0;
    assert Count(h3, "b") == 1 && Count(h3, "c") == 0;
    assert Count(h4, "b") == 2 && Count(h4, "c") == 0;
    assert Count(h5, "c") == 1 && Count(h6, "c") == 2;
  }

  /** The failures of a run that cycles through four kinds. */
  function FourCycle(kinds: seq<FailedOutcome>, n: nat): seq<FailedOutcome>
    requires |kinds| == 4
  {
    seq(n, i requires i >= 0 => Turn(kinds, i))
  }

  function Turn(kinds: seq<FailedOutcome>, i: nat): FailedOutcome
    requires |kinds| == 4
  {
    kinds[i % 4]
  }

  /** Four kinds of failure in rotation are never blocked, however long the run. */
  lemma FourKindsAreNeverBlocked(kinds: seq<FailedOutcome>, n: nat)
    requires |kinds| == 4 && forall i, j :: 0 <= i < j < 4 ==> kinds[i].signature != kinds[j].signature
    ensures Decide(FourCycle(kinds, n)) != Block
  {
    var history := FourCycle(kinds, n);
    if n > 0 {
      var window := Last(history, MAX_PROGRESS_WINDOW);
      forall i, j | 0 <= i < j < i + 4 && j < n ensures history[i].signature != history[j].signature {
        TurnsDiffer(kinds, i, j);
      }
      assert Spread(window);
      SpreadWindowCount(window, history[n - 1].signature);
    }
  }

  lemma TurnsDiffer(kinds: seq<FailedOutcome>, i: nat, j: nat)
    requires |kinds| == 4 && forall k, l :: 0 <= k < l < 4 ==> kinds[k].signature != kinds[l].signature
    requires i < j < i + 4
    ensures Turn(kinds, i).signature != Turn(kinds, j).signature
  {
    assert i % 4 != j % 4;
  }

  /** Any four failures in a row are of different kinds. */
  ghost predicate Spread(s: seq<FailedOutcome>) {
    forall i, j :: 0 <= i < j < |s| && j < i + 4 ==> s[i].signature != s[j].signature
  }

  lemma SpreadWindowCount(window: seq<FailedOutcome>, signature: string)
    requires Spread(window) && |window| <= MAX_PROGRESS_WINDOW
    ensures Count(window, signature) <= 2
  {
    var half := Min(|window|, 4);
    assert window == window[..half] + window[half..];
    CountConcat(window[..half], window[half..], signature);
    SpreadCount(window[..half], signature);
    SpreadCount(window[half..], signature);
  }

  lemma {:induction false} CountConcat(a: seq<FailedOutcome>, b: seq<FailedOutcome>, signature: string)
    ensures Count(a + b, signature) == Count(a, signature) + Count(b, signature)
  {
    if b == [] {
      assert a + b == a;
    } else {
      assert (a + b)[..|a + b| - 1] == a + b[..|b| - 1];
      CountConcat(a, b[..|b| - 1], signature);
    }
  }

  lemma {:induction false} CountedOccurs(failures: seq<FailedOutcome>, signature: string) returns (i: nat)
    requires Count(failures, signature) > 0
    ensures i < |failures| && failures[i].signature == signature
  {
    if failures[|failures| - 1].signature == signature {
      i := |failures| - 1;
    } else {
      i := CountedOccurs(failures[..|failures| - 1], signature);
    }
  }

  lemma {:induction false} SpreadCount(s: seq<FailedOutcome>, signature: string)
    requires Spread(s) && |s| <= 4
    ensures Count(s, signature) <= 1
  {
    if s != [] {
      var shorter := s[..|s| - 1];
      SpreadCount(shorter, signature);
      if Count(shorter, signature) > 0 {
        var i := CountedOccurs(shorter, signature);
        assert s[i] == shorter[i];
      }
    }
  }

  /** The window is enough to decide. */
  lemma DecideMeaning(history: seq<FailedOutcome>)
    requires history != []
    ensures var window := Last(history, MAX_PROGRESS_WINDOW);
            && window != [] && window[|window| - 1] == history[|history| - 1]
            && (Alternates(window) <==> Alternates(history))
            && Count(window, history[|history| - 1].signature) <= |window|
            && (|window| == 2 <==> |history| == 2)
            && (|window| >= 2 <==> |history| >= 2)
            && (|window| >= 3 <==> |history| >= 3)
  {
    CountAtMostLength(Last(history, MAX_PROGRESS_WINDOW), history[|history| - 1].signature);
  }

  /** What the window and the warning so far make of its last failure. */
  function WindowDecision(window: seq<FailedOutcome>, warned: bool): Decision
    requires window != []
  {
    var n := |window|;
    var signature := window[n - 1].signature;
    var count := Count(window, signature);
    if count >= 3 || (n >= 3 && window[n - 3].signature == signature && window[n - 2].signature != signature) then Block
    else if !warned && (count >= 2 || n >= 2) then Warn
    else Continue
  }

  /** The window and the warning decide as the history does, and a block finds the warning given. */
  lemma WindowDecides(before: seq<FailedOutcome>, failure: FailedOutcome, warned: bool)
    requires warned <==> |Last(before, MAX_PROGRESS_WINDOW)| >= 2
    ensures var history := before + [failure];
            var window := Last(history, MAX_PROGRESS_WINDOW);
            && window != [] && window[|window| - 1] == failure
            && WindowDecision(window, warned) == Decide(history)
            && (Decide(history) == Block ==> warned)
            && (Decide(history) == Continue ==> (warned <==> |window| >= 2))
            && (Decide(history) == Warn ==> |window| >= 2)
            && (warned ==> |window| >= 2)
  {
    DecideMeaning(before + [failure]);
  }

  lemma TrimmedIsLast(before: seq<FailedOutcome>, failure: FailedOutcome, kept: seq<FailedOutcome>)
    requires var all := Last(before, MAX_PROGRESS_WINDOW) + [failure];
             |kept| == Min(|all|, MAX_PROGRESS_WINDOW) && kept == all[|all| - |kept|..]
    ensures kept == Last(before + [failure], MAX_PROGRESS_WINDOW)
  {
    var longer := before + [failure];
    if |longer| > MAX_PROGRESS_WINDOW {
      var all := Last(before, MAX_PROGRESS_WINDOW) + [failure];
      assert all == longer[|longer| - |all|..];
      assert kept == longer[|longer| - MAX_PROGRESS_WINDOW..];
    }
  }

  // ---------------------------------------------------------------- call fingerprints

  function StripPrefix(s: string, prefix: string): Option<string> {
    if prefix <= s then Some(s[|prefix|..]) else None
  }

  function UntilColon(s: string): string {
    if s == "" || s[0] == ':' then "" else [s[0]] + UntilColon(s[1..])
  }

  function KnownEmptyReadPath(fingerprint: string): Option<string> {
    StripPrefix(fingerprint, "read_file:known_empty:")
  }

  function CacheReplayRequest(fingerprint: string): Option<string> {
    StripPrefix(fingerprint, "read_file:cache_replay:")
  }

  function PriorEmptyReadPath(fingerprint: string): Option<string> {
    var known := KnownEmptyReadPath(fingerprint);
    var replay := CacheReplayRequest(fingerprint);
    if known.Some? then known else if replay.Some? then Some(UntilColon(replay.value)) else None
  }

  function ReadRequest(fingerprint: string): Option<string> {
    var path := StripPrefix(fingerprint, "read_file:path:");
    if path.Some? then path else CacheReplayRequest(fingerprint)
  }

  /** The previous read was answered from the cache and this one asks the same. */
  predicate RepeatsReplay(previous: FailedOutcome, callFingerprint: string) {
    var replay := CacheReplayRequest(previous.callFingerprint);
    replay.Some? && ReadRequest(callFingerprint) == replay
  }

  /** The previous read found the range of this one empty. */
  predicate RepeatsEmptyRead(previous: FailedOutcome, callFingerprint: string) {
    var path := KnownEmptyReadPath(callFingerprint);
    path.Some? && PriorEmptyReadPath(previous.callFingerprint) == path
  }

  /** Two equal failed edits before another edit, or a call that returns to the one before the previous. */
  predicate RepeatsFailure(
      earlier: FailedOutcome, previous: FailedOutcome, toolFamily: string, callFingerprint: string)
  {
    || (toolFamily == previous.family == "workspace_edit" && previous.signature == earlier.signature)
    || (earlier.callFingerprint == callFingerprint && previous.callFingerprint != callFingerprint)
  }

  lemma StrippedIff(s: string, prefix: string, rest: string)
    ensures StripPrefix(s, prefix) == Some(rest) <==> s == prefix + rest
  {
  }

  const CACHE_REPLAY := "read_file:cache_replay:"
  const KNOWN_EMPTY := "read_file:known_empty:"
  const READ_PATH := "read_file:path:"

  /** A read repeats a replay if the previous call was answered from the cache for the same request. */
  lemma RepeatsReplayIff(previous: FailedOutcome, call: string)
    ensures RepeatsReplay(previous, call) <==>
              exists request: string :: previous.callFingerprint == CACHE_REPLAY + request
                                        && (call == READ_PATH + request || call == CACHE_REPLAY + request)
  {
    var before := previous.callFingerprint;
    if RepeatsReplay(previous, call) {
      var request := CacheReplayRequest(before).value;
      StrippedIff(before, CACHE_REPLAY, request);
      StrippedIff(call, READ_PATH, request);
      StrippedIff(call, CACHE_REPLAY, request);
    }
    if request: string :| before == CACHE_REPLAY + request
                          && (call == READ_PATH + request || call == CACHE_REPLAY + request)
    {
      StrippedIff(before, CACHE_REPLAY, request);
      StrippedIff(call, READ_PATH, request);
      StrippedIff(call, CACHE_REPLAY, request);
      assert call == CACHE_REPLAY + request ==> call[10] == 'c';
    }
  }

  lemma {:induction false} UntilColonIff(s: string, path: string)
    ensures UntilColon(s) == path <==> HasNoColon(path) && (s == path || path + ":" <= s)
  {
    assert path != "" ==> (path + ":")[0] == path[0];
    if s != "" && s[0] != ':' && path != "" && path[0] == s[0] {
      UntilColonIff(s[1..], path[1..]);
      assert path == [s[0]] + path[1..] && s == [s[0]] + s[1..];
      assert path + ":" == [s[0]] + (path[1..] + ":");
      assert path + ":" <= s <==> path[1..] + ":" <= s[1..];
      assert HasNoColon(path) <==> HasNoColon(path[1..]);
    }
  }

  /** A read repeats an empty one if the previous call was for the same path, known to be empty or answered
      from the cache. */
  lemma RepeatsEmptyReadIff(previous: FailedOutcome, call: string)
    ensures RepeatsEmptyRead(previous, call) <==>
              exists path: string :: call == KNOWN_EMPTY + path && WasEmptyAt(previous.callFingerprint, path)
  {
    var before := previous.callFingerprint;
    if RepeatsEmptyRead(previous, call) {
      var path := KnownEmptyReadPath(call).value;
      StrippedIff(call, KNOWN_EMPTY, path);
      WasEmptyIff(before, path);
      assert WasEmptyAt(before, path);
    }
    if path: string :| call == KNOWN_EMPTY + path && WasEmptyAt(before, path) {
      StrippedIff(call, KNOWN_EMPTY, path);
      WasEmptyIff(before, path);
    }
  }

  ghost predicate WasEmptyAt(fingerprint: string, path: string) {
    || fingerprint == KNOWN_EMPTY + path
    || (HasNoColon(path) && (fingerprint == CACHE_REPLAY + path || CACHE_REPLAY + path + ":" <= fingerprint))
  }

  lemma WasEmptyIff(fingerprint: string, path: string)
    ensures PriorEmptyReadPath(fingerprint) == Some(path) <==> WasEmptyAt(fingerprint, path)
  {
    StrippedIff(fingerprint, KNOWN_EMPTY, path);
    if CACHE_REPLAY <= fingerprint {
      var rest := fingerprint[|CACHE_REPLAY|..];
      assert fingerprint == CACHE_REPLAY + rest && fingerprint[10] == 'c';
      UntilColonIff(rest, path);
      assert CACHE_REPLAY + path + ":" == CACHE_REPLAY + (path + ":");
      assert CACHE_REPLAY + (path + ":") <= fingerprint <==> path + ":" <= rest;
    }
  }

  const MISSING_TARGET := "failure:read_file:requested target was not found"

  // ---------------------------------------------------------------- the guard

  class ProgressGuard {
    var state: Option<ProgressState>
    var failures: seq<FailedOutcome>
    var warned: bool
    /** All failures since the latest success or change of state. */
    ghost var history: seq<FailedOutcome>

    /** The window holds the latest failures, and a warning was given exactly if two are retained. */
    ghost predicate Valid()
      reads this
    {
      && failures == Last(history, MAX_PROGRESS_WINDOW)
      && (warned <==> |failures| >= 2)
      && (state.None? ==> history == [])
    }

    constructor ()
      ensures Valid() && state.None? && history == []
    {
      state, failures, warned, history := None, [], false, [];
    }

    method Reset()
      modifies this`failures, this`warned, this`history
      ensures failures == [] && !warned && history == []
    {
      failures, warned, history := [], false, [];
    }

    /** The answer depends only on the failures since the latest reset, not on the window kept. */
    method Record(o: Observation) returns (decision: Decision)
      requires Valid()
      modifies this
      ensures Valid() && state == Some(o.state)
      ensures history
              == if o.success then [] else (if old(state) == Some(o.state) then old(history) else []) + [FailureOf(o)]
      ensures decision == if o.success then Continue else Decide(history)
    {
      if state != Some(o.state) {
        Reset();
        state := Some(o.state);
      }
      if o.success {
        Reset();
        return Continue;
      }
      decision := RecordFailure(FailedOutcome(o.toolFamily + ":" + o.outcomeFingerprint, o.callFingerprint,
                                              o.toolFamily, o.outcomeSummary));
    }

    /** A failure in the state of those before it. */
    method RecordFailure(failure: FailedOutcome) returns (decision: Decision)
      requires Valid() && state.Some?
      modifies this`failures, this`warned, this`history
      ensures Valid() && history == old(history) + [failure]
      ensures decision == Decide(history)
    {
      WindowDecides(history, failure, warned);
      Retain(failure);
      decision := JudgeWindow(failures, failure.signature, warned);
      if decision == Warn {
        warned := true;
      }
    }

    method JudgeWindow(window: seq<FailedOutcome>, signature: string, alreadyWarned: bool) returns (decision: Decision)
      requires window != [] && signature == window[|window| - 1].signature
      ensures decision == WindowDecision(window, alreadyWarned)
    {
      var sameOutcomeCount := CountSignature(window, signature);
      var n := |window|;
      var alternatingCycle :=
        n >= 3 && window[n - 3].signature == signature && window[n - 2].signature != signature;
      if sameOutcomeCount >= 3 || alternatingCycle {
        return Block;
      }
      if !alreadyWarned && (sameOutcomeCount >= 2 || n >= 2) {
        return Warn;
      }
      return Continue;
    }

    /** Appends a failure and trims the window. */
    method Retain(failure: FailedOutcome)
      requires failures == Last(history, MAX_PROGRESS_WINDOW)
      modifies this`failures, this`history
      ensures history == old(history) + [failure] && failures == Last(history, MAX_PROGRESS_WINDOW)
    {
      history := history + [failure];
      failures := failures + [failure];
      ghost var all := failures;
      while |failures| > MAX_PROGRESS_WINDOW
        invariant history == old(history) + [failure]
        invariant Min(|all|, MAX_PROGRESS_WINDOW) <= |failures| <= |all|
        invariant failures == all[|all| - |failures|..]
        decreases |failures|
      {
        failures := failures[1..];
      }
      TrimmedIsLast(old(history), failure, failures);
    }

    method CountSignature(outcomes: seq<FailedOutcome>, signature: string) returns (count: nat)
      ensures count == Count(outcomes, signature)
    {
      count := 0;
      for i := 0 to |outcomes|
        invariant count == Count(outcomes[..i], signature)
      {
        assert outcomes[..i + 1][..i] == outcomes[..i];
        if outcomes[i].signature == signature {
          count := count + 1;
        }
      }
      assert outcomes[..|outcomes|] == outcomes;
    }

    /** Before a call: a new state resets the guard and lets the call through; in an unchanged state the
        guard itself does not change, and with no failure since the reset every call passes. */
    method Preflight(
        toolFamily: string, callFingerprint: string, current: ProgressState)
        returns (decision: PreflightDecision)
      requires Valid()
      modifies this
      ensures Valid() && state == Some(current)
      ensures old(state) == Some(current) ==>
                history == old(history) && failures == old(failures) && warned == old(warned)
      ensures old(state) != Some(current) ==> history == [] && decision == Proceed
      ensures history == [] ==> decision == Proceed
      ensures decision == Redirect <==>
                && history != [] && toolFamily == "repository_read"
                && var previous := history[|history| - 1];
                   && !RepeatsReplay(previous, callFingerprint)
                   && StripPrefix(callFingerprint, "read_file:path:").Some?
                   && previous.callFingerprint == callFingerprint && previous.summary == MISSING_TARGET
      ensures decision == BlockCall <==>
                history != [] && decision != Redirect
                && var previous := history[|history| - 1];
                   || (toolFamily == "repository_read" && RepeatsReplay(previous, callFingerprint))
                   || (toolFamily == "repository_read" && |history| == 1 && RepeatsEmptyRead(previous, callFingerprint))
                   || (|history| >= 2 && RepeatsFailure(history[|history| - 2], previous, toolFamily, callFingerprint))
    {
      if state != Some(current) {
        Reset();
        state := Some(current);
        return Proceed;
      }
      var n := |failures|;
      if n > 0 {
        var previous := failures[n - 1];
        var replay := CacheReplayRequest(previous.callFingerprint);
        if toolFamily == "repository_read" && replay.Some? && ReadRequest(callFingerprint) == replay {
          return BlockCall;
        }
        if toolFamily == "repository_read" && StripPrefix(callFingerprint, "read_file:path:").Some?
           && previous.callFingerprint == callFingerprint && previous.summary == MISSING_TARGET
        {
          return Redirect;
        }
      }
      if n < 2 {
        var knownEmpty := KnownEmptyReadPath(callFingerprint);
        if n > 0 && toolFamily == "repository_read" && knownEmpty.Some?
           && PriorEmptyReadPath(failures[n - 1].callFingerprint) == knownEmpty
        {
          return BlockCall;
        }
        return Proceed;
      }
      var previous, beforePrevious := failures[n - 1], failures[n - 2];
      var sameOutcomeEdit :=
        && previous.signature == beforePrevious.signature
        && previous.family == "workspace_edit" && toolFamily == "workspace_edit";
      var alternatingCall :=
        beforePrevious.callFingerprint == callFingerprint && previous.callFingerprint != callFingerprint;
      if !sameOutcomeEdit && !alternatingCall {
        return Proceed;
      }
      return BlockCall;
    }
  }
}
