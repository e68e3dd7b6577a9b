/** A prefix parser that inverts `Stringify` in front of any delimiter.  It gives the
    printer its meaning: two values with the same text have the same canonical form. */
module JsonParser {
  import opened Json
  import Sorting

  datatype Parsed<+T> = Fail | Done(value: T, rest: Text)

  // ---------- Strings ----------

  function HexValue(c: CodeUnit): (d: int)
    ensures -1 <= d < 16
  {
    if 0x30 <= c <= 0x39 then c - 0x30
    else if 0x61 <= c <= 0x66 then c - 0x61 + 10
    else -1
  }

  /** One string element: a raw unit, a two-character escape or `\uXXXX`. */
  function ParseUnit(s: Text): (p: Parsed<CodeUnit>)
    ensures p.Done? ==> |p.rest| < |s|
  {
    if s == [] || s[0] == QUOTE || s[0] < 0x20 then Fail
    else if s[0] != BACKSLASH then Done(s[0], s[1..])
    else if |s| < 2 then Fail
    else match s[1]
      case 0x22 => Done(QUOTE, s[2..])
      case 0x5C => Done(BACKSLASH, s[2..])
      case 0x62 => Done(0x08, s[2..])
      case 0x66 => Done(0x0C, s[2..])
      case 0x6E => Done(0x0A, s[2..])
      case 0x72 => Done(0x0D, s[2..])
      case 0x74 => Done(0x09, s[2..])
      case 0x75 =>
        if |s| < 6 then Fail else
        var a, b, c, d := HexValue(s[2]), HexValue(s[3]), HexValue(s[4]), HexValue(s[5]);
        if a < 0 || b < 0 || c < 0 || d < 0 then Fail
        else Done(a * 0x1000 + b * 0x100 + c * 0x10 + d, s[6..])
      case _ => Fail
  }

  /** The rest of a string after its opening quote. */
  function ParseString(s: Text): (p: Parsed<Text>)
    ensures p.Done? ==> |p.rest| < |s|
    decreases |s|
  {
    if s != [] && s[0] == QUOTE then Done([], s[1..])
    else match ParseUnit(s)
      case Fail => Fail
      case Done(c, rest) =>
        match ParseString(rest)
        case Fail => Fail
        case Done(cs, rest') => Done([c] + cs, rest')
  }

  // ---------- Values ----------

  function NumberPrefix(s: Text): (n: nat)
    ensures n <= |s|
    ensures forall i :: 0 <= i < n ==> NumberUnit(s[i])
    ensures n < |s| ==> !NumberUnit(s[n])
  {
    if s == [] || !NumberUnit(s[0]) then 0 else 1 + NumberPrefix(s[1..])
  }

  function Parse(s: Text): (p: Parsed<Value>)
    ensures p.Done? ==> |p.rest| < |s|
    decreases |s|, 0
  {
    if s == [] then Fail
    else if NULL_TEXT <= s then Done(Null, s[4..])
    else if TRUE_TEXT <= s then Done(Bool(true), s[4..])
    else if FALSE_TEXT <= s then Done(Bool(false), s[5..])
    else if NumberStart(s[0]) then var n := NumberPrefix(s); Done(Num(s[..n]), s[n..])
    else if s[0] == QUOTE then
      match ParseString(s[1..])
      case Fail => Fail
      case Done(t, rest) => Done(Str(t), rest)
    else if s[0] == OPEN_BRACKET then
      if |s| > 1 && s[1] == CLOSE_BRACKET then Done(Arr([]), s[2..]) else
      match ParseItems(s[1..])
      case Fail => Fail
      case Done(items, rest) => Done(Arr(items), rest)
    else if s[0] == OPEN_BRACE then
      if |s| > 1 && s[1] == CLOSE_BRACE then Done(Obj([]), s[2..]) else
      match ParseMembers(s[1..])
      case Fail => Fail
      case Done(ms, rest) => Done(Obj(ms), rest)
    else Fail
  }

  /** One or more items up to and including the closing bracket. */
  function ParseItems(s: Text): (p: Parsed<seq<Value>>)
    ensures p.Done? ==> |p.rest| < |s|
    decreases |s|, 1
  {
    match Parse(s)
    case Fail => Fail
    case Done(v, rest) =>
      if rest == [] then Fail
      else if rest[0] == CLOSE_BRACKET then Done([v], rest[1..])
      else if rest[0] != COMMA then Fail
      else match ParseItems(rest[1..])
        case Fail => Fail
        case Done(vs, rest') => Done([v] + vs, rest')
  }

  function ParseMember(s: Text): (p: Parsed<Member>)
    ensures p.Done? ==> |p.rest| < |s|
    decreases |s|, 1
  {
    if s == [] || s[0] != QUOTE then Fail
    else match ParseString(s[1..])
      case Fail => Fail
      case Done(key, rest) =>
        if rest == [] || rest[0] != COLON then Fail
        else match Parse(rest[1..])
          case Fail => Fail
          case Done(v, rest') => Done(Member(key, v), rest')
  }

  /** One or more members up to and including the closing brace. */
  function ParseMembers(s: Text): (p: Parsed<seq<Member>>)
    ensures p.Done? ==> |p.rest| < |s|
    decreases |s|, 2
  {
    match ParseMember(s)
    case Fail => Fail
    case Done(m, rest) =>
      if rest == [] then Fail
      else if rest[0] == CLOSE_BRACE then Done([m], rest[1..])
      else if rest[0] != COMMA then Fail
      else match ParseMembers(rest[1..])
        case Fail => Fail
        case Done(ms, rest') => Done([m] + ms, rest')
  }

  // ---------- The parser inverts the printer ----------

  lemma DigitRoundTrip(d: nat)
    requires d < 16
    ensures HexValue(HexDigit(d)) == d
  {}

  lemma Nibbles(c: CodeUnit)
    ensures c / 0x1000 * 0x1000 + c / 0x100 % 16 * 0x100 + c / 0x10 % 16 * 0x10 + c % 16 == c
    ensures c / 0x1000 < 16
  {
    var q1, q2, q3 := c / 0x10, c / 0x100, c / 0x1000;
    assert c == q1 * 16 + c % 16;
    assert q1 == q2 * 16 + q1 % 16;
    assert q2 == q3 * 16 + q2 % 16;
  }

  lemma HexRoundTrip(c: CodeUnit)
    ensures var u := UnicodeEscape(c);
            && HexValue(u[2]) * 0x1000 + HexValue(u[3]) * 0x100 + HexValue(u[4]) * 0x10 + HexValue(u[5]) == c
            && HexValue(u[2]) >= 0 && HexValue(u[3]) >= 0 && HexValue(u[4]) >= 0 && HexValue(u[5]) >= 0
  {
    Nibbles(c);
    DigitRoundTrip(c / 0x1000);
    DigitRoundTrip(c / 0x100 % 16);
    DigitRoundTrip(c / 0x10 % 16);
    DigitRoundTrip(c % 16);
  }

  lemma UnitRoundTrip(c: CodeUnit, rest: Text)
    ensures ParseUnit(EscapeUnit(c) + rest) == Done(c, rest)
    ensures |EscapeUnit(c)| > 0 && EscapeUnit(c)[0] != QUOTE
  {
    var s := EscapeUnit(c) + rest;
    assert s[|EscapeUnit(c)|..] == rest;
    if s[0] == BACKSLASH && s[1] == 0x75 {
      HexRoundTrip(c);
    }
  }

  // One unfolding of each parsing function, on an input split where it stops.

  lemma StringStep(s: Text, c: CodeUnit, rest: Text, cs: Text, rest': Text)
    requires s != [] && s[0] != QUOTE
    requires ParseUnit(s) == Done(c, rest) && ParseString(rest) == Done(cs, rest')
    ensures ParseString(s) == Done([c] + cs, rest')
  {}

  lemma ItemsLast(s: Text, v: Value, rest: Text)
    requires Parse(s) == Done(v, [CLOSE_BRACKET] + rest)
    ensures ParseItems(s) == Done([v], rest)
  {
    assert ([CLOSE_BRACKET] + rest)[1..] == rest;
  }

  lemma ItemsStep(s: Text, v: Value, inner: Text, vs: seq<Value>, rest: Text)
    requires Parse(s) == Done(v, [COMMA] + inner) && ParseItems(inner) == Done(vs, rest)
    ensures ParseItems(s) == Done([v] + vs, rest)
  {
    assert ([COMMA] + inner)[1..] == inner;
  }

  lemma MembersLast(s: Text, m: Member, rest: Text)
    requires ParseMember(s) == Done(m, [CLOSE_BRACE] + rest)
    ensures ParseMembers(s) == Done([m], rest)
  {
    assert ([CLOSE_BRACE] + rest)[1..] == rest;
  }

  lemma MembersStep(s: Text, m: Member, inner: Text, ms: seq<Member>, rest: Text)
    requires ParseMember(s) == Done(m, [COMMA] + inner) && ParseMembers(inner) == Done(ms, rest)
    ensures ParseMembers(s) == Done([m] + ms, rest)
  {
    assert ([COMMA] + inner)[1..] == inner;
  }

  lemma MemberParts(s: Text, key: Text, body: Text, v: Value, rest: Text)
    requires ParseString(s) == Done(key, [COLON] + body) && Parse(body) == Done(v, rest)
    ensures ParseMember([QUOTE] + s) == Done(Member(key, v), rest)
  {
    assert ([QUOTE] + s)[1..] == s;
    assert ([COLON] + body)[1..] == body;
  }

  lemma StringValue(s: Text, t: Text, rest: Text)
    requires ParseString(s) == Done(t, rest)
    ensures Parse([QUOTE] + s) == Done(Str(t), rest)
  {
    var whole := [QUOTE] + s;
    assert whole[0] == QUOTE && whole[1..] == s;
  }

  /** A text that starts with a bracket is no literal. */
  lemma NoLiteral(s: Text)
    requires s != [] && s[0] in {OPEN_BRACKET, OPEN_BRACE}
    ensures !(NULL_TEXT <= s) && !(TRUE_TEXT <= s) && !(FALSE_TEXT <= s) && !NumberStart(s[0])
  {
    assert NULL_TEXT[0] != s[0] && TRUE_TEXT[0] != s[0] && FALSE_TEXT[0] != s[0];
  }

  lemma ArrayValue(s: Text, items: seq<Value>, rest: Text)
    requires s != [] && s[0] != CLOSE_BRACKET && ParseItems(s) == Done(items, rest)
    ensures Parse([OPEN_BRACKET] + s) == Done(Arr(items), rest)
  {
    var whole := [OPEN_BRACKET] + s;
    assert whole[0] == OPEN_BRACKET && whole[1] == s[0] && whole[1..] == s;
    NoLiteral(whole);
  }

  lemma ObjectValue(s: Text, ms: seq<Member>, rest: Text)
    requires s != [] && s[0] != CLOSE_BRACE && ParseMembers(s) == Done(ms, rest)
    ensures Parse([OPEN_BRACE] + s) == Done(Obj(ms), rest)
  {
    var whole := [OPEN_BRACE] + s;
    assert whole[0] == OPEN_BRACE && whole[1] == s[0] && whole[1..] == s;
    NoLiteral(whole);
  }

  lemma EmptyContainers(rest: Text)
    ensures Parse([OPEN_BRACKET] + [CLOSE_BRACKET] + rest) == Done(Arr([]), rest)
    ensures Parse([OPEN_BRACE] + [CLOSE_BRACE] + rest) == Done(Obj([]), rest)
  {
    assert ([OPEN_BRACKET] + [CLOSE_BRACKET] + rest)[2..] == rest;
    assert ([OPEN_BRACE] + [CLOSE_BRACE] + rest)[2..] == rest;
  }

  lemma WordRoundTrip(rest: Text)
    ensures Parse(NULL_TEXT + rest) == Done(Null, rest)
    ensures Parse(TRUE_TEXT + rest) == Done(Bool(true), rest)
    ensures Parse(FALSE_TEXT + rest) == Done(Bool(false), rest)
  {
    assert (NULL_TEXT + rest)[4..] == rest;
    assert (TRUE_TEXT + rest)[4..] == rest && (TRUE_TEXT + rest)[0] == 0x74;
    assert (FALSE_TEXT + rest)[5..] == rest && (FALSE_TEXT + rest)[0] == 0x66;
  }

  lemma RawUnit(c: CodeUnit, tail: Text)
    requires HighSurrogate(c) || LowSurrogate(c)
    ensures ParseUnit([c] + tail) == Done(c, tail)
  {
    assert ([c] + tail)[1..] == tail;
  }

  ghost predicate ReadsBack(t: Text, rest: Text) {
    ParseString(Escape(t) + ([QUOTE] + rest)) == Done(t, rest)
  }

  lemma {:induction false} StringRoundTrip(t: Text, rest: Text)
    ensures ReadsBack(t, rest)
    decreases |t|
  {
    if t == [] {
      StringEnd(rest);
    } else if |t| > 1 && HighSurrogate(t[0]) && LowSurrogate(t[1]) {
      StringRoundTrip(t[2..], rest);
      PairCase(t, rest);
    } else {
      StringRoundTrip(t[1..], rest);
      UnitCase(t, rest);
    }
  }

  lemma PairCase(t: Text, rest: Text)
    requires |t| > 1 && HighSurrogate(t[0]) && LowSurrogate(t[1]) && ReadsBack(t[2..], rest)
    ensures ReadsBack(t, rest)
  {
    var end := [QUOTE] + rest;
    EscapePair(t);
    TwoMore(t);
    PairStep(t[0], t[1], Escape(t[2..]) + end, t[2..], rest);
    PairText(t[0], t[1], Escape(t[2..]), end);
  }

  lemma EscapePair(t: Text)
    requires |t| > 1 && HighSurrogate(t[0]) && LowSurrogate(t[1])
    ensures Escape(t) == [t[0], t[1]] + Escape(t[2..])
  {}

  lemma TwoMore(t: Text)
    requires |t| > 1
    ensures t == [t[0]] + ([t[1]] + t[2..])
  {}

  lemma UnitCase(t: Text, rest: Text)
    requires t != [] && !(|t| > 1 && HighSurrogate(t[0]) && LowSurrogate(t[1])) && ReadsBack(t[1..], rest)
    ensures ReadsBack(t, rest)
  {
    var end := [QUOTE] + rest;
    UnitStep(t[0], Escape(t[1..]) + end, t[1..], rest);
    Sorting.Assoc(EscapeUnit(t[0]), Escape(t[1..]), end);
    assert t == [t[0]] + t[1..];
  }

  lemma StringEnd(rest: Text)
    ensures Escape([]) + ([QUOTE] + rest) == [QUOTE] + rest
    ensures ParseString([QUOTE] + rest) == Done([], rest)
  {
    assert ([QUOTE] + rest)[1..] == rest;
  }

  lemma PairText(high: CodeUnit, low: CodeUnit, middle: Text, end: Text)
    ensures ([high, low] + middle) + end == [high] + ([low] + (middle + end))
  {}

  lemma UnitStep(c: CodeUnit, tail: Text, cs: Text, rest: Text)
    requires ParseString(tail) == Done(cs, rest)
    ensures ParseString(EscapeUnit(c) + tail) == Done([c] + cs, rest)
  {
    UnitRoundTrip(c, tail);
    StringStep(EscapeUnit(c) + tail, c, tail, cs, rest);
  }

  lemma PairStep(high: CodeUnit, low: CodeUnit, tail: Text, cs: Text, rest: Text)
    requires HighSurrogate(high) && LowSurrogate(low)
    requires ParseString(tail) == Done(cs, rest)
    ensures ParseString([high] + ([low] + tail)) == Done([high] + ([low] + cs), rest)
  {
    RawUnit(low, tail);
    StringStep([low] + tail, low, tail, cs, rest);
    RawUnit(high, [low] + tail);
    StringStep([high] + ([low] + tail), high, [low] + tail, [low] + cs, rest);
  }

  /** Text that cannot continue a number literal. */
  predicate Delimited(rest: Text) {
    rest == [] || !NumberUnit(rest[0])
  }

  lemma {:induction false} NumberPrefixOf(literal: Text, rest: Text)
    requires (forall i :: 0 <= i < |literal| ==> NumberUnit(literal[i])) && Delimited(rest)
    ensures NumberPrefix(literal + rest) == |literal|
  {
    if literal == [] {
      assert literal + rest == rest;
    } else {
      NumberPrefixOf(literal[1..], rest);
      assert (literal + rest)[1..] == literal[1..] + rest;
    }
  }

  lemma NumberRoundTrip(literal: Text, rest: Text)
    requires NumberLiteral(literal) && Delimited(rest)
    ensures Parse(literal + rest) == Done(Num(literal), rest)
  {
    var s := literal + rest;
    NumberPrefixOf(literal, rest);
    assert s[0] == literal[0];
    assert s[..|literal|] == literal && s[|literal|..] == rest;
  }

  lemma QuoteRoundTrip(t: Text, rest: Text)
    ensures Parse(Quote(t) + rest) == Done(Str(t), rest)
  {
    StringRoundTrip(t, rest);
    Sorting.Assoc([QUOTE] + Escape(t), [QUOTE], rest);
    Sorting.Assoc([QUOTE], Escape(t), [QUOTE] + rest);
    StringValue(Escape(t) + ([QUOTE] + rest), t, rest);
  }

  /** Parsing the printed value in front of a delimiter returns its canonical form and
      leaves exactly what followed it. */
  lemma {:induction false} RoundTrip(v: Value, rank: Collation, rest: Text)
    requires WellFormed(v) && Delimited(rest)
    ensures Parse(Stringify(v, rank) + rest) == Done(Canonical(v, rank), rest)
    decreases Size(v), 0
  {
    match v
    case Undefined => WordRoundTrip(rest);
    case Null => WordRoundTrip(rest);
    case NonFinite => WordRoundTrip(rest);
    case Bool(b) => WordRoundTrip(rest);
    case Num(literal) => NumberRoundTrip(literal, rest);
    case Str(t) => QuoteRoundTrip(t, rest);
    case Arr(items) => ArrayRoundTrip(items, rank, rest);
    case Obj(ms) => ObjectRoundTrip(ms, rank, rest);
  }

  lemma {:induction false} ArrayRoundTrip(items: seq<Value>, rank: Collation, rest: Text)
    requires WellFormed(Arr(items))
    ensures Parse(Stringify(Arr(items), rank) + rest) == Done(Canonical(Arr(items), rank), rest)
    decreases ItemsSize(items), 1
  {
    var printed := StringifyItems(items, rank);
    if items == [] {
      EmptyContainers(rest);
      assert [OPEN_BRACKET] + printed + [CLOSE_BRACKET] == [OPEN_BRACKET] + [CLOSE_BRACKET];
    } else {
      ItemsRoundTrip(items, rank, rest);
      var s := printed + ([CLOSE_BRACKET] + rest);
      assert [OPEN_BRACKET] + printed + [CLOSE_BRACKET] + rest == [OPEN_BRACKET] + s;
      ItemsText(items, rank);
      ArrayValue(s, CanonicalItems(items, rank), rest);
    }
  }

  lemma {:induction false} ObjectRoundTrip(ms: seq<Member>, rank: Collation, rest: Text)
    requires WellFormed(Obj(ms))
    ensures Parse(Stringify(Obj(ms), rank) + rest) == Done(Canonical(Obj(ms), rank), rest)
    decreases MembersSize(ms), 1
  {
    var sorted := SortMembers(ms, rank);
    var printed := StringifyMembers(sorted, rank);
    if ms == [] {
      EmptyContainers(rest);
      assert [OPEN_BRACE] + printed + [CLOSE_BRACE] == [OPEN_BRACE] + [CLOSE_BRACE];
    } else {
      SortedWellFormed(ms, rank);
      MembersRoundTrip(sorted, rank, rest);
      var s := printed + ([CLOSE_BRACE] + rest);
      assert [OPEN_BRACE] + printed + [CLOSE_BRACE] + rest == [OPEN_BRACE] + s;
      MembersText(sorted, rank);
      ObjectValue(s, CanonicalMembers(sorted, rank), rest);
    }
  }

  lemma SortedWellFormed(ms: seq<Member>, rank: Collation)
    requires forall i :: 0 <= i < |ms| ==> WellFormed(ms[i].value)
    ensures forall i :: 0 <= i < |ms| ==> WellFormed(SortMembers(ms, rank)[i].value)
  {
    var sorted := SortMembers(ms, rank);
    forall i | 0 <= i < |ms| ensures WellFormed(sorted[i].value) {
      assert sorted[i] in multiset(sorted);
      assert sorted[i] in ms;
    }
  }

  /** No printed value starts with a closing bracket. */
  lemma ValueText(v: Value, rank: Collation)
    requires WellFormed(v)
    ensures Stringify(v, rank) != [] && Stringify(v, rank)[0] != CLOSE_BRACKET
  {}

  lemma ItemsText(items: seq<Value>, rank: Collation)
    requires items != [] && WellFormed(items[0])
    ensures StringifyItems(items, rank) != [] && StringifyItems(items, rank)[0] != CLOSE_BRACKET
  {
    ValueText(items[0], rank);
  }

  lemma MembersText(ms: seq<Member>, rank: Collation)
    requires ms != []
    ensures StringifyMembers(ms, rank) != [] && StringifyMembers(ms, rank)[0] == QUOTE
  {
    assert StringifyMember(ms[0], rank)[0] == QUOTE;
  }

  lemma {:induction false} ItemsRoundTrip(items: seq<Value>, rank: Collation, rest: Text)
    requires items != [] && forall i :: 0 <= i < |items| ==> WellFormed(items[i])
    ensures ParseItems(StringifyItems(items, rank) + ([CLOSE_BRACKET] + rest))
         == Done(CanonicalItems(items, rank), rest)
    decreases ItemsSize(items), 0
  {
    var first, v := Stringify(items[0], rank), Canonical(items[0], rank);
    var end := [CLOSE_BRACKET] + rest;
    if |items| == 1 {
      RoundTrip(items[0], rank, end);
      ItemsLast(first + end, v, rest);
      assert CanonicalItems(items, rank) == [v];
    } else {
      ItemsRoundTrip(items[1..], rank, rest);
      var inner := StringifyItems(items[1..], rank) + end;
      RoundTrip(items[0], rank, [COMMA] + inner);
      ItemsStep(first + ([COMMA] + inner), v, inner, CanonicalItems(items[1..], rank), rest);
      Sorting.Assoc(first + [COMMA], StringifyItems(items[1..], rank), end);
      Sorting.Assoc(first, [COMMA], inner);
    }
  }

  lemma MemberText(m: Member, rank: Collation, rest: Text)
    ensures StringifyMember(m, rank) + rest
         == [QUOTE] + (Escape(m.key) + ([QUOTE] + ([COLON] + (Stringify(m.value, rank) + rest))))
  {
    var e, v := Escape(m.key), Stringify(m.value, rank);
    calc {
      StringifyMember(m, rank) + rest;
      ((([QUOTE] + e) + [QUOTE]) + [COLON] + v) + rest;
      { Sorting.Assoc((([QUOTE] + e) + [QUOTE]) + [COLON], v, rest); }
      ((([QUOTE] + e) + [QUOTE]) + [COLON]) + (v + rest);
      { Sorting.Assoc(([QUOTE] + e) + [QUOTE], [COLON], v + rest); }
      (([QUOTE] + e) + [QUOTE]) + ([COLON] + (v + rest));
      { Sorting.Assoc([QUOTE] + e, [QUOTE], [COLON] + (v + rest)); }
      ([QUOTE] + e) + ([QUOTE] + ([COLON] + (v + rest)));
      { Sorting.Assoc([QUOTE], e, [QUOTE] + ([COLON] + (v + rest))); }
      [QUOTE] + (e + ([QUOTE] + ([COLON] + (v + rest))));
    }
  }

  lemma {:induction false} MemberRoundTrip(m: Member, rank: Collation, rest: Text)
    requires WellFormed(m.value) && Delimited(rest)
    ensures ParseMember(StringifyMember(m, rank) + rest) == Done(Member(m.key, Canonical(m.value, rank)), rest)
    decreases Size(m.value), 1
  {
    var body := Stringify(m.value, rank) + rest;
    var s := Escape(m.key) + ([QUOTE] + ([COLON] + body));
    StringRoundTrip(m.key, [COLON] + body);
    RoundTrip(m.value, rank, rest);
    MemberParts(s, m.key, body, Canonical(m.value, rank), rest);
    MemberText(m, rank, rest);
  }

  lemma {:induction false} MembersRoundTrip(ms: seq<Member>, rank: Collation, rest: Text)
    requires ms != [] && forall i :: 0 <= i < |ms| ==> WellFormed(ms[i].value)
    ensures ParseMembers(StringifyMembers(ms, rank) + ([CLOSE_BRACE] + rest))
         == Done(CanonicalMembers(ms, rank), rest)
    decreases MembersSize(ms), 0
  {
    var first, m := StringifyMember(ms[0], rank), Member(ms[0].key, Canonical(ms[0].value, rank));
    var end := [CLOSE_BRACE] + rest;
    if |ms| == 1 {
      MemberRoundTrip(ms[0], rank, end);
      MembersLast(first + end, m, rest);
      assert CanonicalMembers(ms, rank) == [m];
    } else {
      MembersRoundTrip(ms[1..], rank, rest);
      var inner := StringifyMembers(ms[1..], rank) + end;
      MemberRoundTrip(ms[0], rank, [COMMA] + inner);
      MembersStep(first + ([COMMA] + inner), m, inner, CanonicalMembers(ms[1..], rank), rest);
      Sorting.Assoc(first + [COMMA], StringifyMembers(ms[1..], rank), end);
      Sorting.Assoc(first, [COMMA], inner);
    }
  }
}
