/** JSON values as the publish-audit verifier sees them, and the canonical printer
    `stableStringify`.  Strings are sequences of UTF-16 code units, so lone
    surrogates, which `JSON.stringify` escapes, are representable.  A finite
    number is represented by the literal that `JSON.stringify` prints for it. */
module Json {

  type CodeUnit = x: int | 0 <= x < 0x1_0000
  type Text = seq<CodeUnit>

  /** The order of keys: `a.localeCompare(b)` has the sign of `rank(a) - rank(b)`.  Every
      total preorder of strings can be given by such a rank (a collation sort key), and
      two different keys may share one. */
  type Collation = Text -> real

  datatype Value =
    | Undefined
    | Null
    | NonFinite
    | Bool(b: bool)
    | Num(literal: Text)
    | Str(text: Text)
    | Arr(items: seq<Value>)
    | Obj(members: seq<Member>)  // in the order of Object.keys

  datatype Member = Member(key: Text, value: Value)

  function Ascii(s: string): (t: Text)
    ensures |t| == |s|
    ensures forall i :: 0 <= i < |s| ==> t[i] == s[i] as int % 0x80
  {
    seq(|s|, i requires 0 <= i < |s| => s[i] as int % 0x80)
  }

  const NULL_TEXT: Text := [0x6E, 0x75, 0x6C, 0x6C]
  const TRUE_TEXT: Text := [0x74, 0x72, 0x75, 0x65]
  const FALSE_TEXT: Text := [0x66, 0x61, 0x6C, 0x73, 0x65]

  const QUOTE: CodeUnit := 0x22
  const BACKSLASH: CodeUnit := 0x5C
  const COMMA: CodeUnit := 0x2C
  const COLON: CodeUnit := 0x3A
  const OPEN_BRACKET: CodeUnit := 0x5B
  const CLOSE_BRACKET: CodeUnit := 0x5D
  const OPEN_BRACE: CodeUnit := 0x7B
  const CLOSE_BRACE: CodeUnit := 0x7D

  // ---------- Well-formed values ----------

  predicate NumberStart(c: CodeUnit) {
    0x30 <= c <= 0x39 || c == 0x2D
  }

  /** digits, '-', '+', '.', 'e', 'E' */
  predicate NumberUnit(c: CodeUnit) {
    NumberStart(c) || c == 0x2B || c == 0x2E || c == 0x65 || c == 0x45
  }

  predicate NumberLiteral(t: Text) {
    |t| > 0 && NumberStart(t[0]) && forall i :: 0 <= i < |t| ==> NumberUnit(t[i])
  }

  ghost predicate DistinctKeys(ms: seq<Member>) {
    forall i, j :: 0 <= i < j < |ms| ==> ms[i].key != ms[j].key
  }

  /** The decimal value of a text of digits. */
  function IndexValue(t: Text): nat
    requires forall i :: 0 <= i < |t| ==> 0x30 <= t[i] <= 0x39
  {
    if t == [] then 0 else 10 * IndexValue(t[..|t| - 1]) + (t[|t| - 1] - 0x30)
  }

  /** An array index: a canonical decimal below 2^32 - 1. */
  predicate IsIndex(t: Text) {
    && |t| > 0 && (forall i :: 0 <= i < |t| ==> 0x30 <= t[i] <= 0x39)
    && (|t| > 1 ==> t[0] != 0x30) && IndexValue(t) < 0xFFFF_FFFF
  }

  /** Object.keys lists k before l whatever the insertion order: array indexes come first, in
      ascending order. */
  predicate AlwaysFirst(k: Text, l: Text) {
    IsIndex(k) && (IsIndex(l) ==> IndexValue(k) < IndexValue(l))
  }

  /** The list is one that Object.keys can return; keys that are no array indexes come in
      insertion order. */
  ghost predicate Enumerated(ms: seq<Member>) {
    forall i, j :: 0 <= i < j < |ms| ==>
      AlwaysFirst(ms[i].key, ms[j].key) || (!IsIndex(ms[i].key) && !IsIndex(ms[j].key))
  }

  /** Every number carries a number literal; no object repeats a key. */
  ghost predicate WellFormed(v: Value) {
    match v
    case Num(literal) => NumberLiteral(literal)
    case Arr(items) => forall i :: 0 <= i < |items| ==> WellFormed(items[i])
    case Obj(ms) => DistinctKeys(ms) && Enumerated(ms) && forall i :: 0 <= i < |ms| ==> WellFormed(ms[i].value)
    case _ => true
  }

  function Size(v: Value): nat {
    match v
    case Arr(items) => 1 + ItemsSize(items)
    case Obj(ms) => 1 + MembersSize(ms)
    case _ => 1
  }

  function ItemsSize(items: seq<Value>): nat {
    if items == [] then 0 else 1 + Size(items[0]) + ItemsSize(items[1..])
  }

  function MembersSize(ms: seq<Member>): nat {
    if ms == [] then 0 else 1 + Size(ms[0].value) + MembersSize(ms[1..])
  }

  // ---------- Stable sort by key ----------

  function Insert(m: Member, ms: seq<Member>, rank: Collation): (r: seq<Member>)
    ensures multiset(r) == multiset{m} + multiset(ms)
    ensures |r| == 1 + |ms|
    ensures MembersSize(r) == 1 + Size(m.value) + MembersSize(ms)
  {
    if ms == [] || rank(m.key) <= rank(ms[0].key) then [m] + ms
    else
      assert ms == [ms[0]] + ms[1..];
      [ms[0]] + Insert(m, ms[1..], rank)
  }

  /** The stable sort of the members by key. */
  function SortMembers(ms: seq<Member>, rank: Collation): (r: seq<Member>)
    ensures multiset(r) == multiset(ms)
    ensures |r| == |ms|
    ensures MembersSize(r) == MembersSize(ms)
  {
    if ms == [] then []
    else
      assert ms == [ms[0]] + ms[1..];
      Insert(ms[0], SortMembers(ms[1..], rank), rank)
  }

  // ---------- String quoting (section 7 of RFC 8259, as JSON.stringify does it) ----------

  predicate HighSurrogate(c: CodeUnit) { 0xD800 <= c <= 0xDBFF }

  predicate LowSurrogate(c: CodeUnit) { 0xDC00 <= c <= 0xDFFF }

  function HexDigit(d: nat): CodeUnit
    requires d < 16
  {
    if d < 10 then 0x30 + d else 0x61 + (d - 10)
  }

  function UnicodeEscape(c: CodeUnit): Text {
    [BACKSLASH, 0x75, HexDigit(c / 0x1000), HexDigit(c / 0x100 % 16), HexDigit(c / 0x10 % 16), HexDigit(c % 16)]
  }

  function EscapeUnit(c: CodeUnit): Text {
    if c == QUOTE then [BACKSLASH, QUOTE]
    else if c == BACKSLASH then [BACKSLASH, BACKSLASH]
    else if c == 0x08 then [BACKSLASH, 0x62]
    else if c == 0x0C then [BACKSLASH, 0x66]
    else if c == 0x0A then [BACKSLASH, 0x6E]
    else if c == 0x0D then [BACKSLASH, 0x72]
    else if c == 0x09 then [BACKSLASH, 0x74]
    else if c < 0x20 || HighSurrogate(c) || LowSurrogate(c) then UnicodeEscape(c)
    else [c]
  }

  /** A surrogate pair is printed as it is; a lone surrogate is escaped. */
  function Escape(t: Text): Text {
    if t == [] then []
    else if |t| > 1 && HighSurrogate(t[0]) && LowSurrogate(t[1]) then [t[0], t[1]] + Escape(t[2..])
    else EscapeUnit(t[0]) + Escape(t[1..])
  }

  function Quote(t: Text): Text {
    [QUOTE] + Escape(t) + [QUOTE]
  }

  // ---------- stableStringify ----------

  function Stringify(v: Value, rank: Collation): Text
    decreases Size(v), 0
  {
    match v
    case Undefined => NULL_TEXT
    case Null => NULL_TEXT
    case NonFinite => NULL_TEXT
    case Bool(b) => if b then TRUE_TEXT else FALSE_TEXT
    case Num(literal) => literal
    case Str(t) => Quote(t)
    case Arr(items) => [OPEN_BRACKET] + StringifyItems(items, rank) + [CLOSE_BRACKET]
    case Obj(ms) => [OPEN_BRACE] + StringifyMembers(SortMembers(ms, rank), rank) + [CLOSE_BRACE]
  }

  function StringifyItems(items: seq<Value>, rank: Collation): Text
    decreases ItemsSize(items)
  {
    if items == [] then []
    else if |items| == 1 then Stringify(items[0], rank)
    else Stringify(items[0], rank) + [COMMA] + StringifyItems(items[1..], rank)
  }

  function StringifyMember(m: Member, rank: Collation): Text
    decreases Size(m.value), 1
  {
    Quote(m.key) + [COLON] + Stringify(m.value, rank)
  }

  function StringifyMembers(ms: seq<Member>, rank: Collation): Text
    decreases MembersSize(ms)
  {
    if ms == [] then []
    else if |ms| == 1 then StringifyMember(ms[0], rank)
    else StringifyMember(ms[0], rank) + [COMMA] + StringifyMembers(ms[1..], rank)
  }

  lemma Character(c: char, u: CodeUnit)
    requires c as int == u < 0x80
    ensures Ascii([c]) == [u]
  {}

  /** The literals of the text, in characters. */
  lemma Literals(rank: Collation)
    ensures Stringify(Null, rank) == Ascii("null")
    ensures Stringify(Bool(true), rank) == Ascii("true") && Stringify(Bool(false), rank) == Ascii("false")
  {
    assert NULL_TEXT == Ascii("null") && TRUE_TEXT == Ascii("true") && FALSE_TEXT == Ascii("false");
  }

  /** An array's items stay in order. */
  lemma ArrayText(v: Value, w: Value, rank: Collation)
    ensures Stringify(Arr([v, w]), rank)
         == Ascii("[") + (Stringify(v, rank) + Ascii(",") + Stringify(w, rank)) + Ascii("]")
  {
    Character('[', OPEN_BRACKET);
    Character(']', CLOSE_BRACKET);
    Character(',', COMMA);
    TwoItems(v, w, rank);
  }

  lemma TwoItems(v: Value, w: Value, rank: Collation)
    ensures StringifyItems([v, w], rank) == Stringify(v, rank) + [COMMA] + Stringify(w, rank)
  {
    assert [v, w][1..] == [w];
    assert StringifyItems([w], rank) == Stringify(w, rank);
  }

  lemma MemberText(m: Member, rank: Collation)
    ensures StringifyMember(m, rank)
         == (Ascii("\"") + Escape(m.key) + Ascii("\"")) + Ascii(":") + Stringify(m.value, rank)
  {
    Character('"', QUOTE);
    Character(':', COLON);
  }

  lemma SortTwo(m: Member, n: Member, rank: Collation)
    requires rank(m.key) < rank(n.key)
    ensures SortMembers([n, m], rank) == [m, n]
  {
    assert [n, m][1..] == [m] && [m][1..] == [];
    assert SortMembers([m], rank) == [m];
    assert Insert(n, [], rank) == [n];
  }

  /** An object's members come by key. */
  lemma ObjectText(m: Member, n: Member, rank: Collation)
    requires rank(m.key) < rank(n.key)
    ensures Stringify(Obj([n, m]), rank)
         == Ascii("{") + (StringifyMember(m, rank) + Ascii(",") + StringifyMember(n, rank)) + Ascii("}")
  {
    Character('{', OPEN_BRACE);
    Character('}', CLOSE_BRACE);
    Character(',', COMMA);
    SortTwo(m, n, rank);
    TwoMembers(m, n, rank);
  }

  lemma TwoMembers(m: Member, n: Member, rank: Collation)
    ensures StringifyMembers([m, n], rank) == StringifyMember(m, rank) + [COMMA] + StringifyMember(n, rank)
  {
    assert [m, n][1..] == [n];
  }

  /** The escapes of section 7 of RFC 8259 that JSON.stringify uses, in characters. */
  lemma Escapes()
    ensures EscapeUnit(0x22) == Ascii("\\\"") && EscapeUnit(0x5C) == Ascii("\\\\")
    ensures EscapeUnit(0x08) == Ascii("\\b") && EscapeUnit(0x0C) == Ascii("\\f") && EscapeUnit(0x0A) == Ascii("\\n")
    ensures EscapeUnit(0x0D) == Ascii("\\r") && EscapeUnit(0x09) == Ascii("\\t")
  {
  }

  lemma UnicodeEscapes()
    ensures EscapeUnit(0x1F) == Ascii("\\u001f") && EscapeUnit(0xDABC) == Ascii("\\udabc")
  {
  }

  // ---------- What the text stands for ----------

  /** The value with every object's members in sorted order and every null-like leaf as Null. */
  function Canonical(v: Value, rank: Collation): Value
    decreases Size(v)
  {
    match v
    case Undefined => Null
    case NonFinite => Null
    case Arr(items) => Arr(CanonicalItems(items, rank))
    case Obj(ms) => Obj(CanonicalMembers(SortMembers(ms, rank), rank))
    case _ => v
  }

  function CanonicalItems(items: seq<Value>, rank: Collation): (r: seq<Value>)
    ensures |r| == |items|
    ensures forall i :: 0 <= i < |items| ==> Size(items[i]) < ItemsSize(items) && r[i] == Canonical(items[i], rank)
    decreases ItemsSize(items)
  {
    if items == [] then [] else
      assert forall i :: 0 < i < |items| ==> items[i] == items[1..][i - 1];
      [Canonical(items[0], rank)] + CanonicalItems(items[1..], rank)
  }

  function CanonicalMembers(ms: seq<Member>, rank: Collation): (r: seq<Member>)
    ensures |r| == |ms|
    ensures forall i :: 0 <= i < |ms| ==>
              Size(ms[i].value) < MembersSize(ms) && r[i] == Member(ms[i].key, Canonical(ms[i].value, rank))
    decreases MembersSize(ms)
  {
    if ms == [] then [] else
      assert forall i :: 0 < i < |ms| ==> ms[i] == ms[1..][i - 1];
      [Member(ms[0].key, Canonical(ms[0].value, rank))] + CanonicalMembers(ms[1..], rank)
  }

  predicate NullLike(v: Value) {
    v.Undefined? || v.Null? || v.NonFinite?
  }

  /** Equality of JSON values up to the order of object members at every depth;
      the values that print as null are one value. */
  ghost predicate Same(a: Value, b: Value) {
    match a
    case Arr(items) =>
      b.Arr? && |items| == |b.items| && forall i :: 0 <= i < |items| ==> Same(items[i], b.items[i])
    case Obj(ms) =>
      && b.Obj?
      && |ms| == |b.members|
      && forall i :: 0 <= i < |ms| ==> HasMatch(ms[i], b.members)
    case _ => a == b || (NullLike(a) && NullLike(b))
  }

  /** Some member has the same key and the same value. */
  ghost predicate HasMatch(m: Member, ms: seq<Member>) {
    exists j :: 0 <= j < |ms| && ms[j].key == m.key && Same(m.value, ms[j].value)
  }
}
