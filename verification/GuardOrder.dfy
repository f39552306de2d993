/** The comparator that sorts the roots of the topological sort: numbered guards by number, any other
    pair of ids as text. */
module GuardOrder {
  import opened Wrappers
  import opened Decimals
  import opened StringOrder

  const GUARD_PREFIX := "canonical-guard-"

  /** A machine word in decimal, with or without a plus sign. */
  function ParseWord(s: string): Option<nat> {
    var value := Digits(if s != "" && s[0] == '+' then s[1..] else s);
    if value.Some? && value.value <= WORD_MAX then value else None
  }

  function CanonicalIndex(id: string): Option<nat> {
    if GUARD_PREFIX <= id then ParseWord(id[|GUARD_PREFIX|..]) else None
  }

  /** The index of a numbered guard is its number, if a word can hold it; a plus sign is allowed. */
  lemma IndexOfGuard(n: nat)
    ensures CanonicalIndex(GUARD_PREFIX + Decimal(n)) == if n <= WORD_MAX then Some(n) else None
    ensures CanonicalIndex(GUARD_PREFIX + ("+" + Decimal(n))) == if n <= WORD_MAX then Some(n) else None
  {
    DecimalReadsBack(n);
    DecimalHasNoSign(n);
    IndexBehindPrefix(Decimal(n));
    IndexBehindPrefix("+" + Decimal(n));
    assert ("+" + Decimal(n))[1..] == Decimal(n);
  }

  lemma IndexBehindPrefix(rest: string)
    ensures CanonicalIndex(GUARD_PREFIX + rest) == ParseWord(rest)
  {
    assert (GUARD_PREFIX + rest)[|GUARD_PREFIX|..] == rest;
  }

  lemma {:induction false} DecimalHasNoSign(n: nat)
    ensures Decimal(n) != "" && Decimal(n)[0] != '+'
  {
    if n >= 10 {
      DecimalHasNoSign(n / 10);
    }
  }

  /** Does the comparator answer "less" or "equal"? */
  predicate NotAfter(a: string, b: string) {
    var i, j := CanonicalIndex(a), CanonicalIndex(b);
    if i.Some? && j.Some? then i.value <= j.value else AtMost(a, b)
  }

  ghost predicate Transitive(ids: set<string>) {
    forall p, q, r :: p in ids && q in ids && r in ids && NotAfter(p, q) && NotAfter(q, r) ==> NotAfter(p, r)
  }

  /** As text `x` stands between two guards whose numbers do not grow the same way. */
  predicate Straddles(lower: string, x: string, upper: string) {
    var i, j := CanonicalIndex(lower), CanonicalIndex(upper);
    i.Some? && j.Some? && CanonicalIndex(x).None? && Less(lower, x) && Less(x, upper) && j.value <= i.value
  }

  ghost predicate Straddled(ids: set<string>) {
    exists lower, x, upper :: lower in ids && x in ids && upper in ids && Straddles(lower, x, upper)
  }

  lemma IntransitiveMeansStraddled(p: string, q: string, r: string)
    requires NotAfter(p, q) && NotAfter(q, r) && !NotAfter(p, r)
    ensures Straddles(r, p, q) || Straddles(p, q, r) || Straddles(q, r, p)
  {
    LessIsTotal(p, q);
    LessIsTotal(q, r);
    LessIsTotal(p, r);
    if Less(p, q) && Less(q, r) {
      LessIsTransitive(p, q, r);
    }
  }

  /** The comparator orders a set of ids consistently if and only if no id without a number stands, as
      text, between two guards that their numbers put in no smaller an order. */
  lemma TransitiveIffNotStraddled(ids: set<string>)
    ensures Transitive(ids) <==> !Straddled(ids)
  {
    if Straddled(ids) {
      var lower, x, upper :| lower in ids && x in ids && upper in ids && Straddles(lower, x, upper);
      LessIsTotal(x, upper);
      assert NotAfter(upper, lower) && NotAfter(lower, x) && !NotAfter(upper, x);
    }
    forall p, q, r | p in ids && q in ids && r in ids && NotAfter(p, q) && NotAfter(q, r) && !NotAfter(p, r)
      ensures Straddled(ids)
    {
      IntransitiveMeansStraddled(p, q, r);
    }
  }

  /** The comparator never contradicts itself on two ids. */
  lemma NotAfterIsTotal(a: string, b: string)
    ensures NotAfter(a, b) || NotAfter(b, a)
    ensures NotAfter(a, a)
  {
    LessIsTotal(a, b);
  }

  lemma {:induction false} LessBehindPrefix(prefix: string, a: string, b: string)
    ensures Less(prefix + a, prefix + b) <==> Less(a, b)
  {
    if prefix == "" {
      assert prefix + a == a && prefix + b == b;
    } else {
      assert (prefix + a)[1..] == prefix[1..] + a && (prefix + b)[1..] == prefix[1..] + b;
      LessBehindPrefix(prefix[1..], a, b);
    }
  }

  /** Three ids a workspace may well have, of which each is put before the next in a circle. */
  lemma NumbersAndTextsClash()
    ensures var two, ten, text := GUARD_PREFIX + "2", GUARD_PREFIX + "10", GUARD_PREFIX + "1x";
            !Transitive({two, ten, text}) && !NotAfter(ten, two) && !NotAfter(text, ten) && !NotAfter(two, text)
  {
    var two, ten, text := GUARD_PREFIX + "2", GUARD_PREFIX + "10", GUARD_PREFIX + "1x";
    assert two[|GUARD_PREFIX|..] == "2" && ten[|GUARD_PREFIX|..] == "10" && text[|GUARD_PREFIX|..] == "1x";
    assert "10"[..1] == "1" && "1x"[..1] == "1";
    assert Digits("1") == Some(1) && Digits("10") == Some(10) && Digits("2") == Some(2) && Digits("1x") == None;
    LessBehindPrefix(GUARD_PREFIX, "10", "1x");
    LessBehindPrefix(GUARD_PREFIX, "1x", "2");
    assert "10"[1..] == "0" && "1x"[1..] == "x";
    assert Less("10", "1x") && Less("1x", "2");
    LessIsTotal(ten, text);
    LessIsTotal(text, two);
    assert NotAfter(two, ten) && NotAfter(ten, text) && !NotAfter(two, text);
  }
}
