/** The source extractors of the play-area audit: find a start, find the brace after it, and
    cut at the brace that closes it.  They read text: braces in strings and comments count. */
module BraceScan {
  import opened Wrappers

  // ---------- Depth ----------

  function Count(s: string, c: char): nat {
    if s == "" then 0
    else
      var one := if s[|s| - 1] == c then 1 else 0;
      Count(s[..|s| - 1], c) + one
  }

  function Depth(s: string, open: char, close: char): int {
    Count(s, open) - Count(s, close)
  }

  lemma CountSnoc(s: string, x: char, c: char)
    ensures Count(s + [x], c) == Count(s, c) + if x == c then 1 else 0
  {
    assert (s + [x])[..|s|] == s;
  }

  /** The depth after reading from `from` up to k. */
  function DepthAt(source: string, from: nat, k: nat, open: char, close: char): int
    requires from <= k <= |source|
  {
    Depth(source[from..k], open, close)
  }

  /** The block source[from..end + 1] is balanced and no shorter one is. */
  ghost predicate Closes(source: string, from: nat, end: nat, open: char, close: char) {
    && from <= end < |source|
    && DepthAt(source, from, end + 1, open, close) == 0
    && forall k :: from < k <= end ==> DepthAt(source, from, k, open, close) > 0
  }

  ghost predicate NeverCloses(source: string, from: nat, open: char, close: char) {
    forall k :: from < k <= |source| ==> DepthAt(source, from, k, open, close) > 0
  }

  /** The block that closes has as many opens as closes, is the shortest of all balanced
      ones, starts with the open and ends with a close, and a text that never closes has no
      balanced one. */
  lemma ShortestBalanced(source: string, from: nat, end: nat, x: nat, open: char, close: char)
    requires Closes(source, from, end, open, close) && from < x <= |source|
    ensures Count(source[from..end + 1], open) == Count(source[from..end + 1], close)
    ensures DepthAt(source, from, x, open, close) == 0 ==> end + 1 <= x
    ensures !NeverCloses(source, from, open, close)
    ensures source[from] == open != close ==> from < end && source[end] == close
  {
    assert DepthAt(source, from, end + 1, open, close) == 0;
    if source[from] == open != close {
      var front := source[from..end];
      assert source[from..end + 1] == front + [source[end]];
      CountSnoc(front, source[end], open);
      CountSnoc(front, source[end], close);
      assert from == end ==> front == "";
      assert from < end ==> DepthAt(source, from, end, open, close) > 0;
    }
  }

  lemma ClosesOnce(source: string, from: nat, e: nat, f: nat, open: char, close: char)
    requires Closes(source, from, e, open, close) && Closes(source, from, f, open, close)
    ensures e == f
  {
    ShortestBalanced(source, from, e, f + 1, open, close);
    ShortestBalanced(source, from, f, e + 1, open, close);
  }

  // ---------- The scan ----------

  /** The depth loop that all extractors share. */
  method ScanClose(source: string, from: nat, open: char, close: char) returns (end: Option<nat>)
    requires from < |source| && source[from] == open != close
    ensures end.Some? ==> Closes(source, from, end.value, open, close)
    ensures end.None? ==> NeverCloses(source, from, open, close)
  {
    var depth := 0;
    for index := from to |source|
      invariant depth == DepthAt(source, from, index, open, close)
      invariant forall k :: from < k <= index ==> DepthAt(source, from, k, open, close) > 0
    {
      var c := source[index];
      DepthSnoc(source, from, index, open, close);
      if c == open {
        depth := depth + 1;
      }
      if c == close {
        depth := depth - 1;
      }
      if depth == 0 {
        return Some(index);
      }
    }
    return None;
  }

  lemma DepthSnoc(source: string, from: nat, index: nat, open: char, close: char)
    requires from <= index < |source| && open != close
    ensures DepthAt(source, from, from, open, close) == 0
    ensures DepthAt(source, from, index + 1, open, close) == DepthAt(source, from, index, open, close)
              + (if source[index] == open then 1 else if source[index] == close then -1 else 0)
  {
    assert source[from..index + 1] == source[from..index] + [source[index]];
    CountSnoc(source[from..index], source[index], open);
    CountSnoc(source[from..index], source[index], close);
  }

  // ---------- Searching ----------

  predicate StartsAt(source: string, i: int, word: string) {
    0 <= i && i + |word| <= |source| && source[i..i + |word|] == word
  }

  /** The first occurrence at or after `from`. */
  ghost predicate First(source: string, word: string, from: nat, i: nat) {
    from <= i && StartsAt(source, i, word) && forall k :: from <= k < i ==> !StartsAt(source, k, word)
  }

  ghost predicate Absent(source: string, word: string, from: nat) {
    forall k :: from <= k ==> !StartsAt(source, k, word)
  }

  lemma FirstIsUnique(source: string, word: string, from: nat, i: nat, j: nat)
    requires First(source, word, from, i) && First(source, word, from, j)
    ensures i == j
  {}

  /** `indexOf` */
  method IndexOf(source: string, word: string, from: nat) returns (at: Option<nat>)
    requires from <= |source|
    ensures at.Some? ==> First(source, word, from, at.value)
    ensures at.None? ==> Absent(source, word, from)
  {
    for i := from to |source| + 1
      invariant forall k :: from <= k < i ==> !StartsAt(source, k, word)
    {
      if StartsAt(source, i, word) {
        return Some(i);
      }
    }
    return None;
  }

  ghost predicate Last(source: string, word: string, upTo: nat, i: nat) {
    i <= upTo && StartsAt(source, i, word) && forall k :: i < k <= upTo ==> !StartsAt(source, k, word)
  }

  /** `lastIndexOf` */
  method LastIndexOf(source: string, word: string, upTo: nat) returns (at: Option<nat>)
    ensures at.Some? ==> Last(source, word, upTo, at.value)
    ensures at.None? ==> forall k :: 0 <= k <= upTo ==> !StartsAt(source, k, word)
  {
    for i := upTo + 1 downto 0
      invariant forall k :: i <= k <= upTo ==> !StartsAt(source, k, word)
    {
      if StartsAt(source, i, word) {
        return Some(i);
      }
    }
    return None;
  }

  // ---------- Blocks ----------

  /** The text from `start` through the brace that closes the one at `brace`, or the whole
      tail if none does. */
  ghost predicate IsBlock(source: string, start: nat, brace: nat, r: string) {
    && start <= brace < |source| && source[brace] == '{'
    && ((exists end: nat :: Closes(source, brace, end, '{', '}') && r == source[start..end + 1])
        || (NeverCloses(source, brace, '{', '}') && r == source[start..]))
  }

  method BlockFrom(source: string, start: nat, brace: nat) returns (r: string)
    requires start <= brace < |source| && source[brace] == '{'
    ensures IsBlock(source, start, brace, r)
  {
    var end := ScanClose(source, brace, '{', '}');
    match end
    case Some(e) => r := source[start..e + 1];
    case None => r := source[start..];
  }

  lemma BlockIsUnique(source: string, start: nat, brace: nat, r: string, s: string)
    requires IsBlock(source, start, brace, r) && IsBlock(source, start, brace, s)
    ensures r == s
  {
    forall e: nat | Closes(source, brace, e, '{', '}') ensures !NeverCloses(source, brace, '{', '}') {
      ShortestBalanced(source, brace, e, e + 1, '{', '}');
    }
    if !NeverCloses(source, brace, '{', '}') {
      var e: nat :| Closes(source, brace, e, '{', '}') && r == source[start..e + 1];
      var f: nat :| Closes(source, brace, f, '{', '}') && s == source[start..f + 1];
      ClosesOnce(source, brace, e, f, '{', '}');
    }
  }

  /** The block that opens at the first brace at or after `from`. */
  ghost predicate IsBlockAfter(source: string, start: nat, from: nat, r: string) {
    if Absent(source, "{", from) then r == ""
    else exists brace: nat :: First(source, "{", from, brace) && IsBlock(source, start, brace, r)
  }

  method BlockAfter(source: string, start: nat, from: nat) returns (r: string)
    requires start <= from <= |source|
    ensures IsBlockAfter(source, start, from, r)
  {
    var brace := IndexOf(source, "{", from);
    if brace.None? {
      return "";
    }
    assert StartsAt(source, brace.value, "{");
    r := BlockFrom(source, start, brace.value);
  }

  // ---------- profileEntrySource ----------

  function EntryMarker(appId: string): string {
    "\"" + appId + "\":"
  }

  ghost predicate IsEntry(section: string, appId: string, r: string) {
    if Absent(section, EntryMarker(appId), 0) then r == ""
    else exists start: nat :: First(section, EntryMarker(appId), 0, start) && IsBlockAfter(section, start, start, r)
  }

  method ProfileEntrySource(appId: string, section: string) returns (r: string)
    ensures IsEntry(section, appId, r)
  {
    var start := IndexOf(section, EntryMarker(appId), 0);
    if start.None? {
      return "";
    }
    assert StartsAt(section, start.value, EntryMarker(appId));
    r := BlockAfter(section, start.value, start.value);
  }

  // ---------- extractConditionalBlockSource ----------

  ghost predicate IsConditional(source: string, marker: string, r: string) {
    if Absent(source, marker, 0) then r == ""
    else exists at: nat :: First(source, marker, 0, at) && IsConditionalAt(source, at, r)
  }

  ghost predicate IsConditionalAt(source: string, at: nat, r: string) {
    if forall k :: 0 <= k <= at ==> !StartsAt(source, k, "if") then r == ""
    else exists start: nat :: Last(source, "if", at, start) && IsBlockAfter(source, start, at, r)
  }

  method ExtractConditionalBlockSource(source: string, marker: string) returns (r: string)
    ensures IsConditional(source, marker, r)
  {
    var at := IndexOf(source, marker, 0);
    if at.None? {
      return "";
    }
    assert StartsAt(source, at.value, marker);
    var start := LastIndexOf(source, "if", at.value);
    if start.None? {
      return "";
    }
    assert StartsAt(source, start.value, "if");
    r := BlockAfter(source, start.value, at.value);
  }

  // ---------- extractFunctionSource ----------

  /** The class `\s` of ECMAScript regular expressions. */
  predicate Blank(c: char) {
    || c == ' ' || '\t' <= c <= '\r' || c == '\U{00A0}' || c == '\U{FEFF}' || c == '\U{2028}' || c == '\U{2029}'
    || c == '\U{1680}' || '\U{2000}' <= c <= '\U{200A}' || c == '\U{202F}' || c == '\U{205F}' || c == '\U{3000}'
  }

  function SkipBlanks(source: string, i: nat): (j: nat)
    requires i <= |source|
    ensures i <= j <= |source|
    ensures forall k :: i <= k < j ==> Blank(source[k])
    ensures j < |source| ==> !Blank(source[j])
    decreases |source| - i
  {
    if i < |source| && Blank(source[i]) then SkipBlanks(source, i + 1) else i
  }

  /** `\s+name\s*\(` from i on: the position of the parenthesis.  Names hold no blanks, so the
      pattern has one way to match. */
  function NameAt(source: string, i: nat, name: string): (paren: Option<nat>)
    requires i <= |source|
    ensures paren.Some? ==> i < paren.value < |source| && source[paren.value] == '('
  {
    var j := SkipBlanks(source, i);
    if j == i || !StartsAt(source, j, name) then None
    else
      var k := SkipBlanks(source, j + |name|);
      if k < |source| && source[k] == '(' then Some(k) else None
  }

  const KEYWORD := "function"

  /** A match of `function\s+name\s*\(` at i. */
  function MatchAt(source: string, i: int, name: string): (paren: Option<nat>)
    ensures paren.Some? ==> i < paren.value < |source| && source[paren.value] == '('
  {
    if StartsAt(source, i, KEYWORD) then NameAt(source, i + |KEYWORD|, name) else None
  }

  /** The pattern spelled out: the keyword at i, blanks up to j, the name, blanks up to the
      parenthesis. */
  ghost predicate Spelled(source: string, i: nat, name: string, j: nat, paren: nat) {
    && StartsAt(source, i, "function")
    && i + 8 < j && (forall k :: i + 8 <= k < j ==> k < |source| && Blank(source[k]))
    && StartsAt(source, j, name)
    && j + |name| <= paren < |source| && (forall k :: j + |name| <= k < paren ==> Blank(source[k]))
    && source[paren] == '('
  }

  /** For a name without blanks the search for the pattern is exact. */
  lemma MatchAtIff(source: string, i: nat, name: string, paren: nat)
    requires name != "" && forall k :: 0 <= k < |name| ==> !Blank(name[k])
    ensures MatchAt(source, i, name) == Some(paren) <==> exists j: nat :: Spelled(source, i, name, j, paren)
  {
    if MatchAt(source, i, name) == Some(paren) {
      var j := SkipBlanks(source, i + 8);
      assert Spelled(source, i, name, j, paren);
    }
    if exists j: nat :: Spelled(source, i, name, j, paren) {
      var j: nat :| Spelled(source, i, name, j, paren);
      assert source[j] == source[j..j + |name|][0] == name[0];
      assert !Blank('(');
      assert SkipBlanks(source, i + 8) == j;
      assert SkipBlanks(source, j + |name|) == paren;
    }
  }

  ghost predicate FirstMatch(source: string, name: string, m: nat) {
    MatchAt(source, m, name).Some? && forall k :: 0 <= k < m ==> MatchAt(source, k, name).None?
  }

  method FindFunction(source: string, name: string) returns (m: Option<nat>)
    ensures m.Some? ==> FirstMatch(source, name, m.value)
    ensures m.None? ==> forall k :: MatchAt(source, k, name).None?
  {
    for i := 0 to |source|
      invariant forall k :: 0 <= k < i ==> MatchAt(source, k, name).None?
    {
      var paren := MatchAt(source, i, name);
      if paren.Some? {
        return Some(i);
      }
    }
    return None;
  }

  ghost predicate IsFunction(source: string, name: string, r: string) {
    if forall k :: MatchAt(source, k, name).None? then r == ""
    else
      exists m: nat, paren: nat ::
        FirstMatch(source, name, m) && First(source, "(", m, paren) && IsFunctionAt(source, m, paren, r)
  }

  /** Parameters that never close give nothing; otherwise the body is the block at the first
      brace after them. */
  ghost predicate IsFunctionAt(source: string, m: nat, paren: nat, r: string) {
    if NeverCloses(source, paren, '(', ')') then r == ""
    else exists end: nat :: Closes(source, paren, end, '(', ')') && IsBlockAfter(source, m, end, r)
  }

  method ExtractFunctionSource(source: string, name: string) returns (r: string)
    ensures IsFunction(source, name, r)
  {
    var found := FindFunction(source, name);
    if found.None? {
      return "";
    }
    var m := found.value;
    assert StartsAt(source, MatchAt(source, m, name).value, "(");
    var paren := IndexOf(source, "(", m);
    assert StartsAt(source, paren.value, "(");
    r := FunctionFrom(source, m, paren.value);
  }

  method FunctionFrom(source: string, m: nat, paren: nat) returns (r: string)
    requires m <= paren < |source| && source[paren] == '('
    ensures IsFunctionAt(source, m, paren, r)
  {
    var end := ScanClose(source, paren, '(', ')');
    if end.None? {
      return "";
    }
    ShortestBalanced(source, paren, end.value, end.value + 1, '(', ')');
    r := BlockAfter(source, m, end.value);
  }

  /** The parenthesis that the extractor counts from is the one the pattern matched. */
  lemma ParenOfMatch(source: string, name: string, m: nat, paren: nat)
    requires MatchAt(source, m, name) == Some(paren) && '(' !in name
    ensures First(source, "(", m, paren)
  {
    var head := m + |KEYWORD|;
    var j := SkipBlanks(source, head);
    assert source[m..head] == KEYWORD && source[j..j + |name|] == name;
    assert '(' !in KEYWORD && !Blank('(');
    forall k | m <= k < paren ensures !StartsAt(source, k, "(") {
      assert source[k..k + 1][0] == source[k];
      if k < head {
        assert source[k] == KEYWORD[k - m];
      } else if j <= k < j + |name| {
        assert source[k] == name[k - j];
      }
    }
  }

  // ---------- The contracts determine the results ----------

  lemma BlockAfterIsUnique(source: string, start: nat, from: nat, r: string, s: string)
    requires IsBlockAfter(source, start, from, r) && IsBlockAfter(source, start, from, s)
    ensures r == s
  {
    if !Absent(source, "{", from) {
      var b: nat :| First(source, "{", from, b) && IsBlock(source, start, b, r);
      var c: nat :| First(source, "{", from, c) && IsBlock(source, start, c, s);
      FirstIsUnique(source, "{", from, b, c);
      BlockIsUnique(source, start, b, r, s);
    }
  }

  lemma EntryIsUnique(section: string, appId: string, r: string, s: string)
    requires IsEntry(section, appId, r) && IsEntry(section, appId, s)
    ensures r == s
  {
    var marker := EntryMarker(appId);
    if !Absent(section, marker, 0) {
      var i: nat :| First(section, marker, 0, i) && IsBlockAfter(section, i, i, r);
      var j: nat :| First(section, marker, 0, j) && IsBlockAfter(section, j, j, s);
      FirstIsUnique(section, marker, 0, i, j);
      BlockAfterIsUnique(section, i, i, r, s);
    }
  }

  lemma ConditionalIsUnique(source: string, marker: string, r: string, s: string)
    requires IsConditional(source, marker, r) && IsConditional(source, marker, s)
    ensures r == s
  {
    if !Absent(source, marker, 0) {
      var i: nat :| First(source, marker, 0, i) && IsConditionalAt(source, i, r);
      var j: nat :| First(source, marker, 0, j) && IsConditionalAt(source, j, s);
      FirstIsUnique(source, marker, 0, i, j);
      ConditionalAtIsUnique(source, i, r, s);
    }
  }

  lemma ConditionalAtIsUnique(source: string, at: nat, r: string, s: string)
    requires IsConditionalAt(source, at, r) && IsConditionalAt(source, at, s)
    ensures r == s
  {
    if exists k :: 0 <= k <= at && StartsAt(source, k, "if") {
      var i: nat :| Last(source, "if", at, i) && IsBlockAfter(source, i, at, r);
      var j: nat :| Last(source, "if", at, j) && IsBlockAfter(source, j, at, s);
      assert i == j;
      BlockAfterIsUnique(source, i, at, r, s);
    }
  }

  lemma FunctionIsUnique(source: string, name: string, r: string, s: string)
    requires IsFunction(source, name, r) && IsFunction(source, name, s)
    ensures r == s
  {
    if exists k :: MatchAt(source, k, name).Some? {
      var m: nat, p: nat :| FirstMatch(source, name, m) && First(source, "(", m, p) && IsFunctionAt(source, m, p, r);
      var n: nat, q: nat :| FirstMatch(source, name, n) && First(source, "(", n, q) && IsFunctionAt(source, n, q, s);
      assert m == n;
      FirstIsUnique(source, "(", m, p, q);
      FunctionAtIsUnique(source, m, p, r, s);
    }
  }

  lemma FunctionAtIsUnique(source: string, m: nat, paren: nat, r: string, s: string)
    requires IsFunctionAt(source, m, paren, r) && IsFunctionAt(source, m, paren, s)
    ensures r == s
  {
    if !NeverCloses(source, paren, '(', ')') {
      var e: nat :| Closes(source, paren, e, '(', ')') && IsBlockAfter(source, m, e, r);
      var f: nat :| Closes(source, paren, f, '(', ')') && IsBlockAfter(source, m, f, s);
      ClosesOnce(source, paren, e, f, '(', ')');
      BlockAfterIsUnique(source, m, e, r, s);
    }
  }

  // ---------- Extracting twice ----------

  lemma SliceOfSlice(s: string, a: nat, b: nat, i: nat, j: nat)
    requires a <= b <= |s| && i <= j <= b - a
    ensures s[a..b][i..j] == s[a + i..a + j]
  {
    forall k | 0 <= k < j - i ensures s[a..b][i..j][k] == s[a + i..a + j][k] {
      assert s[a..b][i..j][k] == s[a..b][i + k] == s[a + i + k];
    }
  }

  lemma PieceDepth(source: string, a: nat, b: nat, from: nat, open: char, close: char)
    requires a + from <= b <= |source|
    ensures forall k :: from <= k <= b - a ==>
              DepthAt(source[a..b], from, k, open, close) == DepthAt(source, a + from, a + k, open, close)
  {
    forall k | from <= k <= b - a
      ensures DepthAt(source[a..b], from, k, open, close) == DepthAt(source, a + from, a + k, open, close)
    {
      SliceOfSlice(source, a, b, from, k);
    }
  }

  /** A piece of the text, seen from its own start. */
  lemma PieceStarts(source: string, a: nat, b: nat, i: int, word: string)
    requires a <= b <= |source| && 0 <= i
    ensures StartsAt(source[a..b], i, word) <==> a + i + |word| <= b && StartsAt(source, a + i, word)
  {
    if a + i + |word| <= b {
      SliceOfSlice(source, a, b, i, i + |word|);
    }
  }

  lemma PieceFirst(source: string, a: nat, b: nat, word: string, from: nat, i: nat)
    requires a <= from <= i && i + |word| <= b <= |source| && First(source, word, from, i)
    ensures First(source[a..b], word, from - a, i - a)
  {
    forall k | 0 <= k <= i - a
      ensures StartsAt(source[a..b], k, word) <==> a + k + |word| <= b && StartsAt(source, a + k, word)
    {
      PieceStarts(source, a, b, k, word);
    }
  }

  lemma PieceCloses(source: string, a: nat, b: nat, from: nat, end: nat, open: char, close: char)
    requires a <= from && end < b <= |source| && Closes(source, from, end, open, close)
    ensures Closes(source[a..b], from - a, end - a, open, close)
  {
    PieceDepth(source, a, b, from - a, open, close);
  }

  lemma WholeTail(s: string, a: nat)
    requires a <= |s|
    ensures s[a..|s|] == s[a..]
  {}

  lemma TailNeverCloses(source: string, a: nat, from: nat, open: char, close: char)
    requires a <= from <= |source| && NeverCloses(source, from, open, close)
    ensures NeverCloses(source[a..], from - a, open, close)
  {
    PieceDepth(source, a, |source|, from - a, open, close);
    WholeTail(source, a);
  }

  lemma ClosedPiece(source: string, start: nat, brace: nat, end: nat)
    requires start <= brace && Closes(source, brace, end, '{', '}') && source[brace] == '{'
    ensures var r := source[start..end + 1]; IsBlock(r, 0, brace - start, r)
  {
    var r := source[start..end + 1];
    PieceCloses(source, start, end + 1, brace, end, '{', '}');
    assert r[0..end - start + 1] == r;
  }

  lemma OpenPiece(source: string, start: nat, brace: nat)
    requires start <= brace < |source| && NeverCloses(source, brace, '{', '}') && source[brace] == '{'
    ensures var r := source[start..]; IsBlock(r, 0, brace - start, r)
  {
    TailNeverCloses(source, start, brace, '{', '}');
    assert source[start..][0..] == source[start..];
  }

  lemma PieceBlock(source: string, start: nat, brace: nat, r: string) returns (b: nat)
    requires IsBlock(source, start, brace, r)
    ensures IsBlock(r, 0, brace - start, r)
    ensures brace < b <= |source| && r == source[start..b]
  {
    if exists end: nat :: Closes(source, brace, end, '{', '}') && r == source[start..end + 1] {
      var end: nat :| Closes(source, brace, end, '{', '}') && r == source[start..end + 1];
      b := end + 1;
      ClosedPiece(source, start, brace, end);
    } else {
      b := |source|;
      OpenPiece(source, start, brace);
      WholeTail(source, start);
    }
  }

  /** Extracting the entry from an extracted entry changes nothing. */
  lemma EntryOfEntry(section: string, appId: string, r: string)
    requires IsEntry(section, appId, r) && r != "" && '{' !in appId
    ensures IsEntry(r, appId, r)
  {
    var marker := EntryMarker(appId);
    var start: nat :| First(section, marker, 0, start) && IsBlockAfter(section, start, start, r);
    var brace: nat :| First(section, "{", start, brace) && IsBlock(section, start, brace, r);
    BraceAfterMarker(section, marker, start, brace);
    var b := BodyInPiece(section, start, start, brace, r);
    PieceFirst(section, start, b, marker, start, start);
    assert StartsAt(r, 0, marker);
  }

  lemma BraceAfterMarker(source: string, marker: string, at: nat, brace: nat)
    requires StartsAt(source, at, marker) && at <= brace && StartsAt(source, brace, "{") && '{' !in marker
    ensures at + |marker| <= brace
  {
    if brace < at + |marker| {
      BraceInMarker(source, marker, at, brace);
    }
  }

  lemma BraceInMarker(source: string, marker: string, at: nat, brace: nat)
    requires StartsAt(source, at, marker) && at <= brace < at + |marker| && StartsAt(source, brace, "{")
    ensures '{' in marker
  {
    assert source[at..at + |marker|][brace - at] == source[brace] == '{';
  }

  /** The same for a conditional block. */
  lemma ConditionalOfConditional(source: string, marker: string, r: string)
    requires IsConditional(source, marker, r) && r != "" && '{' !in marker
    ensures IsConditional(r, marker, r)
  {
    var at: nat :| First(source, marker, 0, at) && IsConditionalAt(source, at, r);
    var start: nat :| Last(source, "if", at, start) && IsBlockAfter(source, start, at, r);
    var brace: nat :| First(source, "{", at, brace) && IsBlock(source, start, brace, r);
    ConditionalPiece(source, marker, at, start, brace, r);
  }

  lemma ConditionalPiece(source: string, marker: string, at: nat, start: nat, brace: nat, r: string)
    requires First(source, marker, 0, at) && Last(source, "if", at, start) && '{' !in marker
    requires First(source, "{", at, brace) && IsBlock(source, start, brace, r)
    ensures IsConditional(r, marker, r)
  {
    BraceAfterMarker(source, marker, at, brace);
    var b := BodyInPiece(source, start, at, brace, r);
    MarkerInPiece(source, start, b, marker, at);
    PieceLast(source, start, b, at, brace);
    Rebuilt(r, marker, at - start);
  }

  lemma Rebuilt(r: string, marker: string, at: nat)
    requires First(r, marker, 0, at) && Last(r, "if", at, 0) && IsBlockAfter(r, 0, at, r)
    ensures IsConditional(r, marker, r)
  {
    assert StartsAt(r, at, marker) && StartsAt(r, 0, "if");
    assert IsConditionalAt(r, at, r);
  }

  lemma MarkerInPiece(source: string, a: nat, b: nat, marker: string, at: nat)
    requires First(source, marker, 0, at) && a <= at && at + |marker| <= b <= |source|
    ensures First(source[a..b], marker, 0, at - a)
  {
    assert First(source, marker, a, at);
    PieceFirst(source, a, b, marker, a, at);
  }

  lemma PieceLast(source: string, start: nat, b: nat, at: nat, brace: nat)
    requires Last(source, "if", at, start) && at <= brace < b <= |source| && source[brace] == '{'
    ensures Last(source[start..b], "if", at - start, 0)
  {
    assert start + 2 <= brace + 1;
    forall k | 0 <= k <= at - start
      ensures StartsAt(source[start..b], k, "if") <==> start + k + 2 <= b && StartsAt(source, start + k, "if")
    {
      PieceStarts(source, start, b, k, "if");
    }
  }

  /** And for a function: its head, its parameters and its body are read again alike. */
  lemma FunctionOfFunction(source: string, name: string, r: string)
    requires '(' !in name
    ensures IsFunction(source, name, r) && r != "" ==> IsFunction(r, name, r)
  {
    if IsFunction(source, name, r) && r != "" {
      var m: nat, paren: nat :|
        FirstMatch(source, name, m) && First(source, "(", m, paren) && IsFunctionAt(source, m, paren, r);
      var end: nat :| Closes(source, paren, end, '(', ')') && IsBlockAfter(source, m, end, r);
      var brace: nat :| First(source, "{", end, brace) && IsBlock(source, m, brace, r);
      ParenOfMatch(source, name, m, MatchAt(source, m, name).value);
      FirstIsUnique(source, "(", m, paren, MatchAt(source, m, name).value);
      FunctionPiece(source, name, m, paren, end, brace, r);
    }
  }

  lemma FunctionPiece(source: string, name: string, m: nat, paren: nat, end: nat, brace: nat, r: string)
    requires MatchAt(source, m, name) == Some(paren) && First(source, "(", m, paren)
    requires Closes(source, paren, end, '(', ')') && First(source, "{", end, brace) && IsBlock(source, m, brace, r)
    ensures IsFunction(r, name, r)
  {
    var b := BodyInPiece(source, m, end, brace, r);
    ParametersInPiece(source, m, paren, end, b, r);
    HeadInPiece(source, name, m, paren, b, r);
  }

  lemma BodyInPiece(source: string, m: nat, end: nat, brace: nat, r: string) returns (b: nat)
    requires m <= end && First(source, "{", end, brace) && IsBlock(source, m, brace, r)
    ensures brace < b <= |source| && r == source[m..b] && IsBlockAfter(r, 0, end - m, r)
  {
    b := PieceBlock(source, m, brace, r);
    PieceFirst(source, m, b, "{", end, brace);
    assert StartsAt(r, brace - m, "{");
  }

  lemma ParametersInPiece(source: string, m: nat, paren: nat, end: nat, b: nat, r: string)
    requires m <= paren && Closes(source, paren, end, '(', ')') && end < b <= |source| && r == source[m..b]
    requires IsBlockAfter(r, 0, end - m, r)
    ensures IsFunctionAt(r, 0, paren - m, r)
  {
    PieceCloses(source, m, b, paren, end, '(', ')');
    ShortestBalanced(r, paren - m, end - m, end - m + 1, '(', ')');
  }

  lemma HeadInPiece(source: string, name: string, m: nat, paren: nat, b: nat, r: string)
    requires MatchAt(source, m, name) == Some(paren) && First(source, "(", m, paren)
    requires paren < b <= |source| && r == source[m..b]
    requires IsFunctionAt(r, 0, paren - m, r)
    ensures IsFunction(r, name, r)
  {
    PieceMatch(source, m, b, name, paren);
    PieceFirst(source, m, b, "(", m, paren);
    assert FirstMatch(r, name, 0);
  }

  lemma {:induction false} PieceSkip(source: string, a: nat, b: nat, i: nat)
    requires a + i <= b <= |source| && SkipBlanks(source, a + i) < b
    ensures SkipBlanks(source[a..b], i) == SkipBlanks(source, a + i) - a
    decreases b - i
  {
    if Blank(source[a + i]) {
      PieceSkip(source, a, b, i + 1);
    }
  }

  lemma PieceName(source: string, a: nat, b: nat, i: nat, name: string, paren: nat)
    requires a + i <= |source| && NameAt(source, a + i, name) == Some(paren) && paren < b <= |source|
    ensures NameAt(source[a..b], i, name) == Some(paren - a)
  {
    var j := SkipBlanks(source, a + i);
    PieceSkip(source, a, b, i);
    PieceStarts(source, a, b, j - a, name);
    PieceSkip(source, a, b, j - a + |name|);
  }

  lemma PieceMatch(source: string, a: nat, b: nat, name: string, paren: nat)
    requires MatchAt(source, a, name) == Some(paren) && paren < b <= |source|
    ensures MatchAt(source[a..b], 0, name) == Some(paren - a)
  {
    PieceStarts(source, a, b, 0, KEYWORD);
    PieceName(source, a, b, |KEYWORD|, name, paren);
  }
}
