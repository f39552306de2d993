/** The lexicographic order on strings, and the ascending enumeration of a list of strings.

    The source sorts strings and walks `BTreeMap`s; both follow this order. */
module StringOrder {

  predicate Less(a: string, b: string) {
    if b == "" then false
    else if a == "" then true
    else a[0] < b[0] || (a[0] == b[0] && Less(a[1..], b[1..]))
  }

  predicate AtMost(a: string, b: string) {
    a == b || Less(a, b)
  }

  /** `a` and `b` agree up to `i`, where `a` ends or has the smaller character. */
  predicate FirstDiffer(a: string, b: string, i: nat) {
    && i <= |a| && i < |b|
    && a[..i] == b[..i]
    && (i < |a| ==> a[i] < b[i])
  }

  /** The order of dictionaries: by the first difference, a prefix being less than what extends it. */
  lemma {:induction false} LessIff(a: string, b: string)
    ensures Less(a, b) <==> exists i: nat :: FirstDiffer(a, b, i)
  {
    if a == "" || b == "" {
      assert b != "" && a == "" ==> FirstDiffer(a, b, 0);
    } else {
      LessIff(a[1..], b[1..]);
      if i: nat :| FirstDiffer(a, b, i) {
        if i > 0 {
          assert a[0] == a[..i][0] == b[..i][0] == b[0];
          assert a[1..][..i - 1] == a[..i][1..] && b[1..][..i - 1] == b[..i][1..];
          assert FirstDiffer(a[1..], b[1..], i - 1);
        }
      }
      if a[0] < b[0] {
        assert FirstDiffer(a, b, 0);
      } else if Less(a, b) {
        var i: nat :| FirstDiffer(a[1..], b[1..], i);
        assert a[..i + 1] == [a[0]] + a[1..][..i] && b[..i + 1] == [b[0]] + b[1..][..i];
        assert FirstDiffer(a, b, i + 1);
      }
    }
  }

  lemma {:induction false} LessIsTransitive(a: string, b: string, c: string)
    requires Less(a, b) && Less(b, c)
    ensures Less(a, c)
  {
    if a != "" && a[0] == b[0] == c[0] {
      LessIsTransitive(a[1..], b[1..], c[1..]);
    }
  }

  lemma {:induction false} LessIsTotal(a: string, b: string)
    ensures Less(a, b) || a == b || Less(b, a)
    ensures !(Less(a, b) && Less(b, a))
    ensures !Less(a, a)
  {
    if a != "" && b != "" {
      LessIsTotal(a[1..], b[1..]);
      assert a == [a[0]] + a[1..] && b == [b[0]] + b[1..];
    }
    LessIsIrreflexive(a);
  }

  lemma {:induction false} LessIsIrreflexive(a: string)
    ensures !Less(a, a)
  {
    if a != "" {
      LessIsIrreflexive(a[1..]);
    }
  }

  ghost predicate Ascending(s: seq<string>) {
    forall i, j :: 0 <= i < j < |s| ==> Less(s[i], s[j])
  }

  /** Insertion into an ascending list; an element already there stays single. */
  function Insert(x: string, s: seq<string>): (r: seq<string>)
    ensures forall y :: y in r <==> y == x || y in s
  {
    if s == [] then [x]
    else if x == s[0] then s
    else if Less(x, s[0]) then [x] + s
    else [s[0]] + Insert(x, s[1..])
  }

  /** Sorting followed by removal of neighbouring duplicates. */
  function SortedUnique(s: seq<string>): (r: seq<string>)
    ensures forall y :: y in r <==> y in s
  {
    if s == [] then [] else Insert(s[0], SortedUnique(s[1..]))
  }

  lemma {:induction false} InsertKeepsAscending(x: string, s: seq<string>)
    requires Ascending(s)
    ensures Ascending(Insert(x, s))
  {
    if s != [] && x != s[0] {
      LessIsTotal(x, s[0]);
      if Less(x, s[0]) {
        forall j | 0 <= j < |s| ensures Less(x, s[j]) {
          if j > 0 { LessIsTransitive(x, s[0], s[j]); }
        }
      } else {
        var rest := Insert(x, s[1..]);
        InsertKeepsAscending(x, s[1..]);
        forall j | 0 <= j < |rest| ensures Less(s[0], rest[j]) {
          assert rest[j] in rest;
        }
      }
    }
  }

  lemma {:induction false} SortedUniqueIsAscending(s: seq<string>)
    ensures Ascending(SortedUnique(s))
  {
    if s != [] {
      SortedUniqueIsAscending(s[1..]);
      InsertKeepsAscending(s[0], SortedUnique(s[1..]));
    }
  }

  /** An ascending list is determined by its elements. */
  lemma {:induction false} AscendingIsUnique(s: seq<string>, t: seq<string>)
    requires Ascending(s) && Ascending(t)
    requires forall x :: x in s <==> x in t
    ensures s == t
  {
    assert |t| > 0 ==> t[0] in t;
    assert |s| > 0 ==> s[0] in s;
    if s != [] {
      AscendingHeadsAgree(s, t);
      AscendingHeadsAgree(t, s);
      LessIsTotal(s[0], t[0]);
      TailElements(s);
      TailElements(t);
      AscendingIsUnique(s[1..], t[1..]);
    }
  }

  lemma AscendingHeadsAgree(s: seq<string>, t: seq<string>)
    requires Ascending(s) && Ascending(t) && s != [] && t != []
    requires forall x :: x in s <==> x in t
    ensures AtMost(s[0], t[0])
  {
    assert t[0] in s;
  }

  lemma TailElements(s: seq<string>)
    requires Ascending(s) && s != []
    ensures forall x :: x in s[1..] <==> x in s && x != s[0]
  {
    LessIsIrreflexive(s[0]);
    forall x | x in s && x != s[0] ensures x in s[1..] {
      var i :| 0 <= i < |s| && s[i] == x;
      assert s[1..][i - 1] == x;
    }
  }
}
