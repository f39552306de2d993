/** The canonical JSON text that tool-call arguments are hashed from. */
module CanonicalJson {
  import opened Wrappers
  import opened StringOrder

  predicate IsNumberChar(c: char) {
    '0' <= c <= '9' || c in {'-', '+', '.', 'e', 'E'}
  }

  predicate IsNumberToken(s: string) {
    s != "" && ('0' <= s[0] <= '9' || s[0] == '-') && forall i :: 0 <= i < |s| ==> IsNumberChar(s[i])
  }

  /** A number as its decimal text; how numbers are rendered is not modelled. */
  type NumberToken = s: string | IsNumberToken(s) witness "0"

  datatype Field = Field(key: string, value: Json)

  /** A JSON value with its object fields in storage order; of equal keys the first counts. */
  datatype Json =
    | Null
    | Bool(b: bool)
    | Number(token: NumberToken)
    | String(s: string)
    | Array(items: seq<Json>)
    | Object(fields: seq<Field>)

  /** A JSON value up to the order of object keys. */
  datatype Value =
    | VNull
    | VBool(b: bool)
    | VNumber(token: NumberToken)
    | VString(s: string)
    | VArray(items: seq<Value>)
    | VObject(fields: map<string, Value>)

  function Keys(fields: seq<Field>): seq<string> {
    seq(|fields|, i requires 0 <= i < |fields| => fields[i].key)
  }

  function IndexOf(fields: seq<Field>, key: string): (i: nat)
    requires key in Keys(fields)
    ensures i < |fields| && fields[i].key == key
  {
    if fields[0].key == key then 0
    else
      assert forall k :: 0 < k < |fields| ==> Keys(fields)[k] == Keys(fields[1..])[k - 1];
      1 + IndexOf(fields[1..], key)
  }

  function Meaning(j: Json): Value {
    match j
    case Null => VNull
    case Bool(b) => VBool(b)
    case Number(token) => VNumber(token)
    case String(s) => VString(s)
    case Array(items) => VArray(seq(|items|, i requires 0 <= i < |items| => Meaning(items[i])))
    case Object(fields) => VObject(map key | key in Keys(fields) :: Meaning(fields[IndexOf(fields, key)].value))
  }

  // ---------------------------------------------------------------- printing

  function HexDigit(n: nat): char
    requires n < 16
  {
    "0123456789abcdef"[n]
  }

  /** String escapes as in section 7 of RFC 8259: the short forms, then `\u00XX` for control characters. */
  function EscapeChar(c: char): string {
    if c == '\"' then "\\\""
    else if c == '\\' then "\\\\"
    else if c == 8 as char then "\\b"
    else if c == 12 as char then "\\f"
    else if c == '\n' then "\\n"
    else if c == '\r' then "\\r"
    else if c == '\t' then "\\t"
    else if c < 32 as char then "\\u00" + [HexDigit(c as int / 16), HexDigit(c as int % 16)]
    else [c]
  }

  /** Appending one character or a short literal in front of a text, wherever the brackets are. */
  lemma Regroup(a: string, b: string, c: string)
    ensures (a + b) + c == a + (b + c)
  {
  }

  // The texts below carry `rest`, whatever follows, so that reading them back needs no splitting.

  /** An escaped string body, then `rest`. */
  function Escape(s: string, rest: string): string {
    if s == "" then rest else EscapeChar(s[0]) + Escape(s[1..], rest)
  }

  function Quote(s: string, rest: string): string {
    "\"" + Escape(s, "\"" + rest)
  }

  /** The canonical text of `j`, then `rest`. */
  function Print(j: Json, rest: string): string
    decreases j, 1
  {
    match j
    case Null => "null" + rest
    case Bool(b) => (if b then "true" else "false") + rest
    case Number(token) => token + rest
    case String(s) => Quote(s, rest)
    case Array(items) => "[" + PrintItems(items, "]" + rest)
    case Object(fields) => "{" + PrintMembers(fields, SortedUnique(Keys(fields)), "}" + rest)
  }

  function PrintItems(items: seq<Json>, rest: string): string
    decreases items, 0
  {
    if items == [] then rest else Print(items[0], PrintMoreItems(items[1..], rest))
  }

  /** The items after the first, each behind a comma. */
  function PrintMoreItems(items: seq<Json>, rest: string): string
    decreases items, 0
  {
    if items == [] then rest else "," + Print(items[0], PrintMoreItems(items[1..], rest))
  }

  function PrintMember(fields: seq<Field>, key: string, rest: string): string
    requires key in Keys(fields)
    decreases fields, 0
  {
    Quote(key, ":" + Print(fields[IndexOf(fields, key)].value, rest))
  }

  function PrintMembers(fields: seq<Field>, keys: seq<string>, rest: string): string
    requires forall key :: key in keys ==> key in Keys(fields)
    decreases fields, |keys| + 1
  {
    if keys == [] then rest else PrintMember(fields, keys[0], PrintMoreMembers(fields, keys[1..], rest))
  }

  function PrintMoreMembers(fields: seq<Field>, keys: seq<string>, rest: string): string
    requires forall key :: key in keys ==> key in Keys(fields)
    decreases fields, |keys| + 1
  {
    if keys == [] then rest else "," + PrintMember(fields, keys[0], PrintMoreMembers(fields, keys[1..], rest))
  }

  /** The canonical text of a value. */
  function Canonical(j: Json): string {
    Print(j, "")
  }

  // ---------------------------------------------------------------- the writer

  /** The recursive writer: it appends to the output buffer the canonical text, whatever `rest` the
      caller appends next. */
  method WriteCanonicalJson(value: Json, output: string, ghost rest: string) returns (output': string)
    ensures output' + rest == output + Print(value, rest)
    decreases value, 1
  {
    match value
    case Null =>
      output' := output + "null";
    case Bool(b) =>
      output' := output + if b then "true" else "false";
    case Number(token) =>
      output' := output + token;
    case String(s) =>
      output' := WriteString(s, output, rest);
    case Array(items) =>
      output' := WriteItems(items, output + "[", "]" + rest);
      Regroup(output', "]", rest);
      Regroup(output, "[", PrintItems(items, "]" + rest));
      output' := output' + "]";
    case Object(fields) =>
      var keys := SortedUnique(Keys(fields));
      output' := WriteMembers(fields, keys, output + "{", "}" + rest);
      Regroup(output', "}", rest);
      Regroup(output, "{", PrintMembers(fields, keys, "}" + rest));
      output' := output' + "}";
  }

  /** The escaped, quoted form of a string. */
  method WriteString(s: string, output: string, ghost rest: string) returns (output': string)
    ensures output' + rest == output + Quote(s, rest)
  {
    output' := output + "\"";
    ghost var tail := "\"" + rest;
    Regroup(output, "\"", Escape(s, tail));
    for i := 0 to |s|
      invariant output' + Escape(s[i..], tail) == output + Quote(s, rest)
    {
      assert s[i..][1..] == s[i + 1..];
      Regroup(output', EscapeChar(s[i]), Escape(s[i + 1..], tail));
      output' := output' + EscapeChar(s[i]);
    }
    Regroup(output', "\"", rest);
    output' := output' + "\"";
  }

  method WriteItems(items: seq<Json>, output: string, ghost rest: string) returns (output': string)
    ensures output' + rest == output + PrintItems(items, rest)
    decreases items, 0
  {
    output' := output;
    for index := 0 to |items|
      invariant output' + (if index == 0 then PrintItems(items, rest) else PrintMoreItems(items[index..], rest))
                == output + PrintItems(items, rest)
    {
      assert items[index..][1..] == items[index + 1..];
      ghost var more := PrintMoreItems(items[index + 1..], rest);
      if index > 0 {
        Regroup(output', ",", Print(items[index], more));
        output' := output' + ",";
      }
      output' := WriteCanonicalJson(items[index], output', more);
    }
  }

  method WriteMembers(
      fields: seq<Field>, keys: seq<string>, output: string, ghost rest: string)
      returns (output': string)
    requires forall key :: key in keys ==> key in Keys(fields)
    ensures output' + rest == output + PrintMembers(fields, keys, rest)
    decreases fields, 0
  {
    output' := output;
    for index := 0 to |keys|
      invariant output' + (if index == 0 then PrintMembers(fields, keys, rest)
                           else PrintMoreMembers(fields, keys[index..], rest))
                == output + PrintMembers(fields, keys, rest)
    {
      assert keys[index..][1..] == keys[index + 1..];
      ghost var more := PrintMoreMembers(fields, keys[index + 1..], rest);
      var value := fields[IndexOf(fields, keys[index])].value;
      if index > 0 {
        Regroup(output', ",", PrintMember(fields, keys[index], more));
        output' := output' + ",";
      }
      output' := WriteString(keys[index], output', ":" + Print(value, more));
      Regroup(output', ":", Print(value, more));
      output' := WriteCanonicalJson(value, output' + ":", more);
    }
  }

  // ---------------------------------------------------------------- equal values print equally

  lemma {:induction false} EqualMeaningPrintsEqually(a: Json, b: Json, rest: string)
    requires Meaning(a) == Meaning(b)
    ensures Print(a, rest) == Print(b, rest)
    decreases a, 1
  {
    match a
    case Array(items) =>
      assert forall i :: 0 <= i < |items| ==> Meaning(items[i]) == Meaning(a).items[i];
      assert forall i :: 0 <= i < |b.items| ==> Meaning(b.items[i]) == Meaning(b).items[i];
      EqualItemsPrintEqually(items, b.items, "]" + rest);
    case Object(fields) =>
      forall key ensures key in Keys(fields) <==> key in Keys(b.fields) {
        assert key in Keys(fields) <==> key in Meaning(a).fields;
        assert key in Keys(b.fields) <==> key in Meaning(b).fields;
      }
      var keys := SortedUnique(Keys(fields));
      SortedUniqueIsAscending(Keys(fields));
      SortedUniqueIsAscending(Keys(b.fields));
      AscendingIsUnique(keys, SortedUnique(Keys(b.fields)));
      forall key | key in keys
        ensures Meaning(fields[IndexOf(fields, key)].value) == Meaning(b.fields[IndexOf(b.fields, key)].value)
      {
        assert Meaning(a).fields[key] == Meaning(b).fields[key];
      }
      EqualMembersPrintEqually(fields, b.fields, keys, "}" + rest);
    case _ =>
  }

  lemma {:induction false} EqualItemsPrintEqually(xs: seq<Json>, ys: seq<Json>, rest: string)
    requires |xs| == |ys| && forall i :: 0 <= i < |xs| ==> Meaning(xs[i]) == Meaning(ys[i])
    ensures PrintItems(xs, rest) == PrintItems(ys, rest) && PrintMoreItems(xs, rest) == PrintMoreItems(ys, rest)
    decreases xs, 0
  {
    if xs != [] {
      EqualMeaningPrintsEqually(xs[0], ys[0], PrintMoreItems(xs[1..], rest));
      EqualItemsPrintEqually(xs[1..], ys[1..], rest);
    }
  }

  /** The members of two objects, listed by key, agree. */
  ghost predicate SameMembers(fields: seq<Field>, others: seq<Field>, keys: seq<string>)
    requires forall key :: key in keys ==> key in Keys(fields)
  {
    forall key :: key in keys ==>
      && key in Keys(others)
      && Meaning(fields[IndexOf(fields, key)].value) == Meaning(others[IndexOf(others, key)].value)
  }

  lemma {:induction false} EqualMembersPrintEqually(
      fields: seq<Field>, others: seq<Field>, keys: seq<string>, rest: string)
    requires forall key :: key in keys ==> key in Keys(fields)
    requires SameMembers(fields, others, keys)
    ensures PrintMembers(fields, keys, rest) == PrintMembers(others, keys, rest)
    ensures PrintMoreMembers(fields, keys, rest) == PrintMoreMembers(others, keys, rest)
    decreases fields, |keys|
  {
    if keys != [] {
      var more := PrintMoreMembers(fields, keys[1..], rest);
      EqualMeaningPrintsEqually(fields[IndexOf(fields, keys[0])].value, others[IndexOf(others, keys[0])].value, more);
      EqualMembersPrintEqually(fields, others, keys[1..], rest);
    }
  }

  // ---------------------------------------------------------------- reading

  // A reader of JSON texts (RFC 8259) that have no white space between tokens and name no character by a
  // pair of surrogates. It answers with what it read and the text that follows.

  /** The value of a hexadecimal digit, in either case. */
  function HexValue(c: char): Option<nat> {
    if '0' <= c <= '9' then Some(c as int - '0' as int)
    else if 'a' <= c <= 'f' then Some(c as int - 'a' as int + 10)
    else if 'A' <= c <= 'F' then Some(c as int - 'A' as int + 10)
    else None
  }

  /** The number that a run of hexadecimal digits denotes. */
  function HexNumber(digits: string): Option<nat> {
    if digits == "" then Some(0)
    else
      var higher, last := HexNumber(digits[..|digits| - 1]), HexValue(digits[|digits| - 1]);
      if higher.None? || last.None? then None else Some(16 * higher.value + last.value)
  }

  /** The character that the text behind a backslash names, and the length of its name. */
  function ReadEscape(text: string): (r: Option<(char, nat)>)
    ensures r.Some? ==> 0 < r.value.1 <= |text|
  {
    if text == "" then None
    else match text[0]
      case '\"' => Some(('\"', 1))
      case '\\' => Some(('\\', 1))
      case '/' => Some(('/', 1))
      case 'b' => Some((0x8 as char, 1))
      case 'f' => Some((0xC as char, 1))
      case 'n' => Some((0xA as char, 1))
      case 'r' => Some((0xD as char, 1))
      case 't' => Some((0x9 as char, 1))
      case 'u' =>
        var code := if |text| < 5 then None else HexNumber(text[1..5]);
        if code.None? || 0xD800 <= code.value < 0xE000 || code.value > 0xFFFF then None
        else Some((code.value as char, 5))
      case _ => None
  }

  /** The rest of a string, up to its closing quotation mark. */
  function ReadChars(text: string): (r: Option<(string, string)>)
    ensures r.Some? ==> |r.value.1| < |text|
    decreases |text|
  {
    if text == "" || text[0] < ' ' then None
    else if text[0] == '\"' then Some(("", text[1..]))
    else
      var first := if text[0] == '\\' then ReadEscape(text[1..]) else Some((text[0], 0));
      if first.None? then None
      else
        var more := ReadChars(text[1 + first.value.1..]);
        if more.None? then None else Some(([first.value.0] + more.value.0, more.value.1))
  }

  function NumberLength(text: string): (n: nat)
    ensures n <= |text|
  {
    if text == "" || !IsNumberChar(text[0]) then 0 else 1 + NumberLength(text[1..])
  }

  function ReadNumber(text: string): (r: Option<(Value, string)>)
    ensures r.Some? ==> |r.value.1| < |text|
  {
    var n := NumberLength(text);
    if IsNumberToken(text[..n]) then Some((VNumber(text[..n]), text[n..])) else None
  }

  predicate StartsWith(text: string, c: char) {
    text != "" && text[0] == c
  }

  function ReadValue(text: string): (r: Option<(Value, string)>)
    ensures r.Some? ==> |r.value.1| < |text|
    decreases |text|, 0
  {
    if text == "" then None
    else match text[0]
      case 'n' => if |text| >= 4 && text[..4] == "null" then Some((VNull, text[4..])) else None
      case 't' => if |text| >= 4 && text[..4] == "true" then Some((VBool(true), text[4..])) else None
      case 'f' => if |text| >= 5 && text[..5] == "false" then Some((VBool(false), text[5..])) else None
      case '\"' =>
        var r := ReadChars(text[1..]);
        if r.None? then None else Some((VString(r.value.0), r.value.1))
      case '[' =>
        if StartsWith(text[1..], ']') then Some((VArray([]), text[2..]))
        else
          var r := ReadItems(text[1..]);
          if r.None? then None else Some((VArray(r.value.0), r.value.1))
      case '{' =>
        if StartsWith(text[1..], '}') then Some((VObject(map[]), text[2..]))
        else
          var r := ReadMembers(text[1..]);
          if r.None? then None else Some((VObject(r.value.0), r.value.1))
      case _ => ReadNumber(text)
  }

  /** One or more items and the closing bracket. */
  function ReadItems(text: string): (r: Option<(seq<Value>, string)>)
    ensures r.Some? ==> |r.value.1| < |text|
    decreases |text|, 1
  {
    var first := ReadValue(text);
    if first.None? then None
    else
      var (v, rest) := first.value;
      if StartsWith(rest, ']') then Some(([v], rest[1..]))
      else if StartsWith(rest, ',') then
        var more := ReadItems(rest[1..]);
        if more.None? then None else Some(([v] + more.value.0, more.value.1))
      else None
  }

  /** One or more members and the closing brace; of equal keys the last counts. */
  function ReadMembers(text: string): (r: Option<(map<string, Value>, string)>)
    ensures r.Some? ==> |r.value.1| < |text|
    decreases |text|, 1
  {
    var key := if StartsWith(text, '\"') then ReadChars(text[1..]) else None;
    if key.None? || !StartsWith(key.value.1, ':') then None
    else
      var first := ReadValue(key.value.1[1..]);
      if first.None? then None
      else
        var (v, rest) := first.value;
        if StartsWith(rest, '}') then Some((map[key.value.0 := v], rest[1..]))
        else if StartsWith(rest, ',') then
          var more := ReadMembers(rest[1..]);
          if more.None? then None else Some((map[key.value.0 := v] + more.value.0, more.value.1))
        else None
  }

  // ---------------------------------------------------------------- printed texts read back

  /** A text that may follow a value: it cannot continue a number. */
  predicate Delimited(rest: string) {
    rest == "" || !IsNumberChar(rest[0])
  }

  lemma HexDigitReadsBack(n: nat)
    requires n < 16
    ensures HexValue(HexDigit(n)) == Some(n)
  {
  }

  lemma ControlReadsBack(c: char)
    requires c < 32 as char
    ensures HexNumber("00" + [HexDigit(c as int / 16), HexDigit(c as int % 16)]) == Some(c as int)
  {
    var high, low := HexDigit(c as int / 16), HexDigit(c as int % 16);
    HexDigitReadsBack(c as int / 16);
    HexDigitReadsBack(c as int % 16);
    assert ("00" + [high, low])[..3] == "00" + [high];
    assert ("00" + [high])[..2] == "00" && "00"[..1] == "0" && "0"[..0] == "";
    assert HexNumber("00") == Some(0);
    assert HexNumber("00" + [high]) == Some(c as int / 16);
  }

  /** An escaped character names that character, or is that character. */
  ghost predicate NamesChar(text: string, c: char, rest: string) {
    && text != "" && text[0] >= ' ' && text[0] != '\"'
    && if text[0] != '\\' then text == [c] + rest
       else ReadEscape(text[1..]).Some? && ReadEscape(text[1..]).value.0 == c
            && text[1..][ReadEscape(text[1..]).value.1..] == rest
  }

  lemma ShortEscapeNames(e: char, c: char, rest: string)
    requires e != 'u' && ReadEscape([e]) == Some((c, 1))
    ensures NamesChar(['\\', e] + rest, c, rest)
  {
    var text := ['\\', e] + rest;
    assert text[1..] == [e] + rest && ([e] + rest)[1..] == rest;
  }

  lemma HexEscapeNames(hex: string, c: char, rest: string)
    requires |hex| == 4 && c < ' ' && HexNumber(hex) == Some(c as int)
    ensures NamesChar(['\\', 'u'] + hex + rest, c, rest)
  {
    var text := ['\\', 'u'] + hex + rest;
    assert text[1..] == ['u'] + hex + rest;
    assert text[1..][1..5] == hex && text[1..][5..] == rest;
  }

  lemma LongEscapeNames(c: char, rest: string)
    requires c < ' ' && |EscapeChar(c)| > 2
    ensures NamesChar(EscapeChar(c) + rest, c, rest)
  {
    var hex := "00" + [HexDigit(c as int / 16), HexDigit(c as int % 16)];
    ControlReadsBack(c);
    HexEscapeNames(hex, c, rest);
    assert EscapeChar(c) == ['\\', 'u'] + hex;
  }

  lemma EscapeCharReadsBack(c: char, rest: string)
    ensures NamesChar(EscapeChar(c) + rest, c, rest)
  {
    if |EscapeChar(c)| == 2 {
      assert EscapeChar(c) == ['\\', EscapeChar(c)[1]];
      ShortEscapeNames(EscapeChar(c)[1], c, rest);
    } else if c < ' ' {
      LongEscapeNames(c, rest);
    }
  }

  /** Of all that names a character the writer takes the shortest, with small hexadecimal digits; what needs
      no escape stands for itself. */
  lemma EscapeIsShortest(c: char, name: string)
    ensures c >= ' ' && c != '\"' && c != '\\' ==> EscapeChar(c) == [c]
    ensures (c < ' ' || c == '\"' || c == '\\') && ReadEscape(name).Some? && ReadEscape(name).value.0 == c ==>
              |EscapeChar(c)| <= 1 + ReadEscape(name).value.1
    ensures forall i :: 0 <= i < |EscapeChar(c)| && |EscapeChar(c)| > 2 ==> !('A' <= EscapeChar(c)[i] <= 'F')
  {
  }

  lemma ReadCharsNext(text: string, c: char, rest: string)
    requires NamesChar(text, c, rest) && ReadChars(rest).Some?
    ensures ReadChars(text) == Some(([c] + ReadChars(rest).value.0, ReadChars(rest).value.1))
  {
    if text[0] == '\\' {
      assert text[1 + ReadEscape(text[1..]).value.1..] == rest;
    } else {
      assert text[1..] == rest;
    }
  }

  lemma {:induction false} EscapeReadsBack(s: string, rest: string)
    ensures ReadChars(Escape(s, "\"" + rest)) == Some((s, rest))
  {
    if s == "" {
      assert ("\"" + rest)[1..] == rest;
    } else {
      var more := Escape(s[1..], "\"" + rest);
      EscapeReadsBack(s[1..], rest);
      EscapeCharReadsBack(s[0], more);
      ReadCharsNext(EscapeChar(s[0]) + more, s[0], more);
      assert s == [s[0]] + s[1..];
    }
  }

  lemma QuoteReadsBack(s: string, rest: string)
    ensures StartsWith(Quote(s, rest), '\"') && ReadChars(Quote(s, rest)[1..]) == Some((s, rest))
  {
    assert Quote(s, rest)[1..] == Escape(s, "\"" + rest);
    EscapeReadsBack(s, rest);
  }

  lemma {:induction false} NumberReadsBack(token: string, rest: string)
    requires Delimited(rest) && forall i :: 0 <= i < |token| ==> IsNumberChar(token[i])
    ensures NumberLength(token + rest) == |token|
  {
    if token == "" {
      assert token + rest == rest;
    } else {
      assert (token + rest)[1..] == token[1..] + rest;
      NumberReadsBack(token[1..], rest);
    }
  }

  /** The first character of a value tells its kind. */
  function Kind(j: Json): char {
    match j
    case Null => 'n'
    case Bool(b) => if b then 't' else 'f'
    case Number(_) => '0'
    case String(_) => '\"'
    case Array(_) => '['
    case Object(_) => '{'
  }

  function KindOfChar(c: char): char {
    if '0' <= c <= '9' || c == '-' then '0' else c
  }

  lemma PrintShowsKind(j: Json, rest: string)
    ensures Print(j, rest) != "" && KindOfChar(Print(j, rest)[0]) == Kind(j)
  {
  }

  lemma MoreItemsDelimit(items: seq<Json>, rest: string)
    requires rest != "" && rest[0] == ']'
    ensures Delimited(PrintMoreItems(items, rest))
  {
  }

  lemma MoreMembersDelimit(fields: seq<Field>, keys: seq<string>, rest: string)
    requires forall key :: key in keys ==> key in Keys(fields)
    requires rest != "" && rest[0] == '}'
    ensures Delimited(PrintMoreMembers(fields, keys, rest))
  {
  }

  lemma ArrayReads(body: string)
    ensures body != "" && body[0] != ']' && ReadItems(body).Some? ==>
              ReadValue("[" + body) == Some((VArray(ReadItems(body).value.0), ReadItems(body).value.1))
    ensures body != "" && body[0] == ']' ==> ReadValue("[" + body) == Some((VArray([]), body[1..]))
  {
    var text := "[" + body;
    assert text[1..] == body && text[0] == '[';
    assert body != "" ==> text[1] == body[0] && text[2..] == body[1..];
  }

  lemma ObjectReads(body: string)
    ensures body != "" && body[0] != '}' && ReadMembers(body).Some? ==>
              ReadValue("{" + body) == Some((VObject(ReadMembers(body).value.0), ReadMembers(body).value.1))
    ensures body != "" && body[0] == '}' ==> ReadValue("{" + body) == Some((VObject(map[]), body[1..]))
  {
    var text := "{" + body;
    assert text[1..] == body && text[0] == '{';
    assert body != "" ==> text[1] == body[0] && text[2..] == body[1..];
  }

  lemma ItemsRead(text: string, v: Value, tail: string)
    ensures ReadValue(text) == Some((v, "]" + tail)) ==> ReadItems(text) == Some(([v], tail))
    ensures ReadValue(text) == Some((v, "," + tail)) && ReadItems(tail).Some? ==>
              ReadItems(text) == Some(([v] + ReadItems(tail).value.0, ReadItems(tail).value.1))
  {
    assert ("]" + tail)[1..] == tail && ("," + tail)[1..] == tail;
  }

  lemma MembersRead(text: string, key: string, body: string, v: Value, tail: string)
    requires StartsWith(text, '\"') && ReadChars(text[1..]) == Some((key, ":" + body))
    ensures ReadValue(body) == Some((v, "}" + tail)) ==> ReadMembers(text) == Some((map[key := v], tail))
    ensures ReadValue(body) == Some((v, "," + tail)) && ReadMembers(tail).Some? ==>
              ReadMembers(text) == Some((map[key := v] + ReadMembers(tail).value.0, ReadMembers(tail).value.1))
  {
    assert (":" + body)[1..] == body && ("}" + tail)[1..] == tail && ("," + tail)[1..] == tail;
  }

  lemma LiteralReads(j: Json, rest: string)
    requires j.Null? || j.Bool? || j.String?
    ensures ReadValue(Print(j, rest)) == Some((Meaning(j), rest))
  {
    var text := Print(j, rest);
    match j
    case Null => assert text[..4] == "null" && text[4..] == rest;
    case Bool(b) =>
      assert b ==> text[..4] == "true" && text[4..] == rest;
      assert !b ==> text[..5] == "false" && text[5..] == rest;
    case String(s) => QuoteReadsBack(s, rest);
  }

  lemma NumberReads(token: NumberToken, rest: string)
    requires Delimited(rest)
    ensures ReadValue(token + rest) == Some((VNumber(token), rest))
  {
    var text := token + rest;
    NumberReadsBack(token, rest);
    assert text[..|token|] == token && text[|token|..] == rest && text[0] == token[0];
  }

  /** Reading the text of a value, in front of anything that cannot continue a number, gives the value up
      to key order and what follows. */
  lemma {:induction false} PrintReadsBack(j: Json, rest: string)
    requires Delimited(rest)
    ensures ReadValue(Print(j, rest)) == Some((Meaning(j), rest))
    decreases j, 2
  {
    match j
    case Number(token) => NumberReads(token, rest);
    case Array(items) =>
      ArrayReads(PrintItems(items, "]" + rest));
      if items == [] {
        assert ("]" + rest)[0] == ']' && ("]" + rest)[1..] == rest;
        assert Meaning(j).items == [];
      } else {
        PrintShowsKind(items[0], PrintMoreItems(items[1..], "]" + rest));
        ItemsReadBack(items, rest);
      }
    case Object(fields) => ObjectReadsBack(fields, rest);
    case _ => LiteralReads(j, rest);
  }

  lemma {:induction false} ItemsReadBack(items: seq<Json>, rest: string)
    requires items != []
    ensures ReadItems(PrintItems(items, "]" + rest)) == Some((Meaning(Array(items)).items, rest))
    decreases items, 1
  {
    var more := PrintMoreItems(items[1..], "]" + rest);
    MoreItemsDelimit(items[1..], "]" + rest);
    PrintReadsBack(items[0], more);
    ItemsSplit(items);
    if |items| > 1 {
      ItemsReadBack(items[1..], rest);
      assert more == "," + PrintItems(items[1..], "]" + rest);
      ItemsRead(Print(items[0], more), Meaning(items[0]), PrintItems(items[1..], "]" + rest));
    } else {
      assert items[1..] == [] && more == "]" + rest;
      assert Meaning(Array(items[1..])).items == [];
      assert [Meaning(items[0])] + [] == [Meaning(items[0])];
      ItemsRead(Print(items[0], more), Meaning(items[0]), rest);
    }
  }

  lemma ItemsSplit(items: seq<Json>)
    requires items != []
    ensures Meaning(Array(items)).items == [Meaning(items[0])] + Meaning(Array(items[1..])).items
  {
  }

  /** What an object maps the given ones of its keys to. */
  function MembersOf(fields: seq<Field>, keys: seq<string>): map<string, Value>
    requires forall key :: key in keys ==> key in Keys(fields)
  {
    map key | key in keys :: Meaning(fields[IndexOf(fields, key)].value)
  }

  lemma MembersOfSplit(fields: seq<Field>, keys: seq<string>)
    requires keys != [] && forall key :: key in keys ==> key in Keys(fields)
    ensures MembersOf(fields, keys)
            == map[keys[0] := Meaning(fields[IndexOf(fields, keys[0])].value)] + MembersOf(fields, keys[1..])
  {
    assert forall key :: key in keys <==> key == keys[0] || key in keys[1..];
  }

  lemma {:induction false} MembersReadBack(fields: seq<Field>, keys: seq<string>, rest: string)
    requires keys != [] && forall key :: key in keys ==> key in Keys(fields)
    ensures ReadMembers(PrintMembers(fields, keys, "}" + rest)) == Some((MembersOf(fields, keys), rest))
    decreases fields, 1, |keys|
  {
    var more := PrintMoreMembers(fields, keys[1..], "}" + rest);
    var value := fields[IndexOf(fields, keys[0])].value;
    MoreMembersDelimit(fields, keys[1..], "}" + rest);
    QuoteReadsBack(keys[0], ":" + Print(value, more));
    PrintReadsBack(value, more);
    var text := PrintMember(fields, keys[0], more);
    MembersOfSplit(fields, keys);
    if |keys| > 1 {
      MembersReadBack(fields, keys[1..], rest);
      var others := PrintMembers(fields, keys[1..], "}" + rest);
      assert more == "," + others;
      MembersRead(text, keys[0], Print(value, more), Meaning(value), others);
    } else {
      assert keys[1..] == [] && more == "}" + rest;
      assert MembersOf(fields, keys[1..]) == map[];
      assert MembersOf(fields, keys) == map[keys[0] := Meaning(value)];
      MembersRead(text, keys[0], Print(value, more), Meaning(value), rest);
    }
  }

  lemma {:induction false} ObjectReadsBack(fields: seq<Field>, rest: string)
    ensures ReadValue(Print(Object(fields), rest)) == Some((Meaning(Object(fields)), rest))
    decreases fields, 2
  {
    var keys := SortedUnique(Keys(fields));
    ObjectReads(PrintMembers(fields, keys, "}" + rest));
    if keys == [] {
      assert ("}" + rest)[1..] == rest;
    } else {
      MembersReadBack(fields, keys, rest);
    }
    assert Meaning(Object(fields)).fields == MembersOf(fields, keys);
  }

  /** The canonical text of a value reads back as the value. */
  lemma CanonicalReadsBack(j: Json)
    ensures ReadValue(Canonical(j)) == Some((Meaning(j), ""))
  {
    PrintReadsBack(j, "");
  }

  /** The text that tool-call arguments are hashed from: the arguments can be read back from it. */
  method NormalizedArguments(arguments: Json) returns (canonical: string)
    ensures canonical == Canonical(arguments)
    ensures ReadValue(canonical) == Some((Meaning(arguments), ""))
  {
    canonical := WriteCanonicalJson(arguments, "", "");
    assert canonical + "" == canonical && "" + Print(arguments, "") == Print(arguments, "");
    CanonicalReadsBack(arguments);
  }

  // ---------------------------------------------------------------- equal texts mean equal values

  lemma QuoteIsUnique(s: string, t: string, r: string, q: string)
    requires Quote(s, r) == Quote(t, q)
    ensures s == t && r == q
  {
    QuoteReadsBack(s, r);
    QuoteReadsBack(t, q);
  }

  /** The text of a value, followed by anything that cannot continue a number, determines the value up
      to key order and determines what follows. */
  lemma PrintIsUnique(a: Json, b: Json, r: string, q: string)
    requires Print(a, r) == Print(b, q) && Delimited(r) && Delimited(q)
    ensures Meaning(a) == Meaning(b) && r == q
  {
    PrintReadsBack(a, r);
    PrintReadsBack(b, q);
  }

  /** The canonical form: two values print to the same text exactly when they are equal up to the order
      of object keys. */
  lemma CanonicalIffSameMeaning(a: Json, b: Json)
    ensures Canonical(a) == Canonical(b) <==> Meaning(a) == Meaning(b)
  {
    if Canonical(a) == Canonical(b) {
      PrintIsUnique(a, b, "", "");
    }
    if Meaning(a) == Meaning(b) {
      EqualMeaningPrintsEqually(a, b, "");
    }
  }
}
