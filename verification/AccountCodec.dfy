/** Account ids and proxy accounts as the Go deployers and the JS validators derive them.
    The Go side works on bytes, the JS side on hex text.  RIPEMD-160 of SHA-256 is the
    parameter `hash160`; it returns the digest bytes in order. */
module AccountCodec {
  import opened Wrappers
  import opened ByteStrings
  import opened Sorting

  /** A neo-go Uint160 is its big-endian byte array. */
  type Uint160 = b: Bytes | |b| == 20 witness seq(20, _ => 0)

  type Hash160 = Bytes -> Uint160

  function BytesBE(u: Uint160): Bytes { u }

  function BytesLE(u: Uint160): Bytes { Reverse(u) }

  function DecodeBE(b: Bytes): Uint160
    requires |b| == 20
  {
    b
  }

  function DecodeLE(b: Bytes): Uint160
    requires |b| == 20
  {
    Reverse(b)
  }

  // ---------- Go ----------

  datatype Result<+T> = Ok(value: T) | InvalidTimelock

  function PutUint32(n: int): (b: Bytes)
    requires 0 <= n < TWO_32
    ensures |b| == 4
  {
    [n % 0x100, n / 0x100 % 0x100, n / 0x1_0000 % 0x100, n / 0x100_0000]
  }

  const MAGIC: Bytes := [0xAA, 0x52, 0x47, 0x01]

  function RegistrationPayload(verifier: Uint160, params: Bytes, hook: Uint160, owner: Uint160, timelock: int): Bytes
    requires 0 <= timelock < TWO_32
  {
    MAGIC + (BytesLE(owner) + (BytesLE(verifier) + (BytesLE(hook) + (PutUint32(timelock) + params))))
  }

  /** `computeRegistrationAccountID` */
  function GoAccountId(verifier: Uint160, params: Bytes, hook: Uint160, owner: Uint160, timelock: int,
                       hash160: Hash160): Result<Uint160> {
    if timelock < 0 || timelock > TWO_32 - 1 then InvalidTimelock
    else
      var digest := hash160(RegistrationPayload(verifier, params, hook, owner, timelock));
      Ok(DecodeLE(BytesBE(digest)))
  }

  const PUSH_20: Bytes := [0x0c, 0x14]
  const CALL_VERIFY: Bytes := [0x11, 0xc0, 0x1f, 0x0c, 0x06, 0x76, 0x65, 0x72, 0x69, 0x66, 0x79, 0x0c, 0x14]
  const SYSCALL: Bytes := [0x41, 0x62, 0x7d, 0x5b, 0x52]

  function ProxyScript(core: Uint160, id: Uint160): Bytes {
    PUSH_20 + (BytesLE(id) + (CALL_VERIFY + (BytesBE(core) + SYSCALL)))
  }

  /** `aaProxyScriptHash` */
  function TestnetProxy(core: Uint160, id: Uint160, hash160: Hash160): Uint160 {
    DecodeLE(BytesLE(hash160(ProxyScript(core, id))))
  }

  /** `mainnetAnchorAAProxyScriptHash` */
  function MainnetProxy(core: Uint160, id: Uint160, hash160: Hash160): Uint160 {
    DecodeBE(BytesLE(hash160(ProxyScript(core, id))))
  }

  // ---------- Hex text ----------

  function HexDigit(d: int): char
    requires 0 <= d < 16
  {
    if d < 10 then (d + 0x30) as char else (d - 10 + 0x61) as char
  }

  function DigitOf(c: char): (d: int)
    ensures -1 <= d < 16
  {
    if '0' <= c <= '9' then c as int - 0x30
    else if 'a' <= c <= 'f' then c as int - 0x61 + 10
    else if 'A' <= c <= 'F' then c as int - 0x41 + 10
    else -1
  }

  function Hex(b: Bytes): string {
    if b == [] then "" else [HexDigit(b[0] / 16), HexDigit(b[0] % 16)] + Hex(b[1..])
  }

  /** `Buffer.from(text, "hex")`: pairs of digits up to the first that is none. */
  function Unhex(s: string): Bytes {
    if |s| < 2 || DigitOf(s[0]) < 0 || DigitOf(s[1]) < 0 then []
    else [DigitOf(s[0]) * 16 + DigitOf(s[1])] + Unhex(s[2..])
  }

  lemma DigitRoundTrip(d: int)
    requires 0 <= d < 16
    ensures DigitOf(HexDigit(d)) == d
    ensures LowerChar(HexDigit(d)) == HexDigit(d) && HexDigit(d) != 'x' && HexDigit(d) != 'X'
  {}

  lemma UnhexByte(x: Byte, rest: string)
    ensures Unhex([HexDigit(x / 16), HexDigit(x % 16)] + rest) == [x] + Unhex(rest)
  {
    var s := [HexDigit(x / 16), HexDigit(x % 16)] + rest;
    DigitRoundTrip(x / 16);
    DigitRoundTrip(x % 16);
    assert s[0] == HexDigit(x / 16) && s[1] == HexDigit(x % 16) && s[2..] == rest;
  }

  lemma {:induction false} UnhexHex(b: Bytes, rest: string)
    ensures Unhex(Hex(b) + rest) == b + Unhex(rest)
  {
    if b == [] {
      assert Hex(b) + rest == rest;
    } else {
      UnhexHex(b[1..], rest);
      UnhexByte(b[0], Hex(b[1..]) + rest);
      Assoc([HexDigit(b[0] / 16), HexDigit(b[0] % 16)], Hex(b[1..]), rest);
      Assoc([b[0]], b[1..], Unhex(rest));
      assert b == [b[0]] + b[1..];
    }
  }

  lemma UnhexWhole(b: Bytes)
    ensures Unhex(Hex(b)) == b
  {
    UnhexHex(b, "");
    assert Hex(b) + "" == Hex(b);
  }

  lemma {:induction false} HexAppend(a: Bytes, b: Bytes)
    ensures Hex(a + b) == Hex(a) + Hex(b)
  {
    if a == [] {
      assert a + b == b;
    } else {
      HexAppend(a[1..], b);
      assert (a + b)[1..] == a[1..] + b && (a + b)[0] == a[0];
      Assoc([HexDigit(a[0] / 16), HexDigit(a[0] % 16)], Hex(a[1..]), Hex(b));
    }
  }

  function LowerChar(c: char): char {
    if 'A' <= c <= 'Z' then (c as int + 32) as char else c
  }

  function Lower(s: string): string {
    if s == "" then "" else [LowerChar(s[0])] + Lower(s[1..])
  }

  /** `strip0x` / `stripHexPrefix` on text without surrounding blanks. */
  function Strip0x(s: string): string {
    if |s| >= 2 && s[0] == '0' && (s[1] == 'x' || s[1] == 'X') then Lower(s[2..]) else Lower(s)
  }

  lemma LowerPair(x: char, y: char, rest: string)
    requires LowerChar(x) == x && LowerChar(y) == y && Lower(rest) == rest
    ensures Lower([x, y] + rest) == [x, y] + rest
  {
    var s := [x, y] + rest;
    assert s[1..][1..] == rest && s[1..][0] == y;
    assert Lower(s[1..]) == [y] + rest;
    assert [x] + ([y] + rest) == s;
  }

  lemma {:induction false} HexIsLower(b: Bytes)
    ensures Lower(Hex(b)) == Hex(b)
    ensures |Hex(b)| == 2 * |b|
    ensures |Hex(b)| >= 2 ==> Hex(b)[1] != 'x' && Hex(b)[1] != 'X'
  {
    if b != [] {
      HexIsLower(b[1..]);
      DigitRoundTrip(b[0] / 16);
      DigitRoundTrip(b[0] % 16);
      LowerPair(HexDigit(b[0] / 16), HexDigit(b[0] % 16), Hex(b[1..]));
    }
  }

  lemma StripHex(b: Bytes)
    ensures Strip0x("0x" + Hex(b)) == Hex(b) && Strip0x(Hex(b)) == Hex(b)
  {
    HexIsLower(b);
    assert ("0x" + Hex(b))[2..] == Hex(b);
  }

  /** How both sides write a Uint160: "0x" and the little-endian bytes in hex. */
  function Display(u: Uint160): string {
    "0x" + Hex(BytesLE(u))
  }

  lemma DisplayInjective(u: Uint160, v: Uint160)
    ensures Display(u) == Display(v) <==> u == v
  {
    if Display(u) == Display(v) {
      StripHex(BytesLE(u));
      StripHex(BytesLE(v));
      UnhexWhole(BytesLE(u));
      UnhexWhole(BytesLE(v));
      ReverseTwice(u);
      ReverseTwice(v);
    }
  }

  // ---------- JS ----------

  /** `uint32LittleEndianHex` of an integral Number: the bit operations work modulo 2^32.  A
      text with a value above 2^53 has been rounded by `Number` before. */
  function Uint32LittleEndianHex(value: int): string {
    var n := value % TWO_32;
    Hex([n % 0x100, n / 0x100 % 0x100, n / 0x1_0000 % 0x100, n / 0x100_0000])
  }

  /** `deriveRegistrationAccountIdHash` */
  function JsAccountId(owner: string, verifier: string, hook: string, timelock: int, paramsHex: string,
                       hash160: Hash160): string {
    var payload := "aa524701" + (Strip0x(owner) + (Strip0x(verifier) + (Strip0x(hook)
                 + (Uint32LittleEndianHex(timelock) + Strip0x(paramsHex)))));
    "0x" + Hex(hash160(Unhex(payload)))
  }

  /** `reverseHex`: the pairs of digits in reverse order. */
  function ReversePairs(s: string): string {
    if |s| < 2 then "" else ReversePairs(s[2..]) + s[..2]
  }

  predicate LowerHex(c: char) {
    '0' <= c <= '9' || 'a' <= c <= 'f'
  }

  predicate Hash160Text(s: string) {
    |s| == 40 && forall i :: 0 <= i < |s| ==> LowerHex(s[i])
  }

  /** None where the original throws: an id or core that is not 40 hex digits. */
  function BuildAaVerifyScript(id: string, core: string): Option<string> {
    if !Hash160Text(Strip0x(id)) || !Hash160Text(Strip0x(core)) then None
    else
      Some("0c14" + (Strip0x(id) + ("11c01f0c06766572696679"
             + ("0c14" + (ReversePairs(Strip0x(core)) + "41627d5b52")))))
  }

  /** neon-js's script hash is the reversed Hash160; `normalizeHash160` adds "0x". */
  function DeriveAaProxyHash(id: string, core: string, hash160: Hash160): Option<string> {
    match BuildAaVerifyScript(id, core)
    case None => None
    case Some(script) => Some("0x" + ReversePairs(Hex(hash160(Unhex(script)))))
  }

  lemma {:induction false} ReversePairsSnoc(s: string, pair: string)
    requires |s| % 2 == 0 && |pair| == 2
    ensures ReversePairs(s + pair) == pair + ReversePairs(s)
    decreases |s|
  {
    if |s| < 2 {
      assert s + pair == pair;
      assert pair[2..] == "" && pair[..2] == pair;
    } else {
      ReversePairsSnoc(s[2..], pair);
      assert (s + pair)[2..] == s[2..] + pair && (s + pair)[..2] == s[..2];
    }
  }

  lemma {:induction false} ReversePairsHex(b: Bytes)
    ensures ReversePairs(Hex(b)) == Hex(Reverse(b))
    decreases |b|
  {
    if b == [] {
      assert Reverse(b) == [];
    } else {
      var front, last := b[..|b| - 1], b[|b| - 1];
      ReversePairsHex(front);
      HexAppend(front, [last]);
      assert b == front + [last];
      HexIsLower(front);
      HexIsLower([last]);
      assert [last][1..] == [];
      ReversePairsSnoc(Hex(front), Hex([last]));
      HexAppend([last], Reverse(front));
      assert Reverse(b) == [last] + Reverse(front);
    }
  }

  // ---------- The two sides agree ----------

  lemma PayloadsAgree(verifier: Uint160, params: Bytes, hook: Uint160, owner: Uint160, timelock: int)
    requires 0 <= timelock < TWO_32
    ensures Unhex("aa524701" + (Hex(BytesLE(owner)) + (Hex(BytesLE(verifier)) + (Hex(BytesLE(hook))
                 + (Uint32LittleEndianHex(timelock) + Hex(params))))))
         == RegistrationPayload(verifier, params, hook, owner, timelock)
  {
    assert timelock % TWO_32 == timelock;
    PiecesAgree(BytesLE(owner), BytesLE(verifier), BytesLE(hook), PutUint32(timelock), params);
  }

  lemma PiecesAgree(o: Bytes, v: Bytes, k: Bytes, t: Bytes, p: Bytes)
    ensures Unhex("aa524701" + (Hex(o) + (Hex(v) + (Hex(k) + (Hex(t) + Hex(p)))))) == MAGIC + (o + (v + (k + (t + p))))
  {
    MagicHex();
    var t4 := Hex(t) + Hex(p);
    var t3 := Hex(k) + t4;
    var t2 := Hex(v) + t3;
    UnhexHex(MAGIC, Hex(o) + t2);
    UnhexHex(o, t2);
    UnhexHex(v, t3);
    UnhexHex(k, t4);
    UnhexHex(t, Hex(p));
    UnhexWhole(p);
  }

  lemma MagicHex()
    ensures Hex(MAGIC) == "aa524701"
  {
    assert MAGIC[1..] == [0x52, 0x47, 0x01] && [0x52, 0x47, 0x01][1..] == [0x47, 0x01] && [0x47, 0x01][1..] == [0x01];
    assert Hex([0x01]) == "01";
    assert Hex([0x47, 0x01]) == "47" + Hex([0x01]);
    assert Hex([0x52, 0x47, 0x01]) == "52" + Hex([0x47, 0x01]);
    assert Hex(MAGIC) == "aa" + Hex([0x52, 0x47, 0x01]);
  }

  lemma JsPayload(verifier: Uint160, params: Bytes, hook: Uint160, owner: Uint160, timelock: int, hash160: Hash160)
    requires 0 <= timelock < TWO_32
    ensures JsAccountId(Display(owner), Display(verifier), Display(hook), timelock, Hex(params), hash160)
         == "0x" + Hex(hash160(RegistrationPayload(verifier, params, hook, owner, timelock)))
  {
    StripHex(BytesLE(owner));
    StripHex(BytesLE(verifier));
    StripHex(BytesLE(hook));
    StripHex(params);
    PayloadsAgree(verifier, params, hook, owner, timelock);
  }

  /** Go and JS derive the same account id exactly for the timelocks that Go accepts. */
  lemma AccountIdsAgree(verifier: Uint160, params: Bytes, hook: Uint160, owner: Uint160, timelock: int,
                        hash160: Hash160)
    ensures var go := GoAccountId(verifier, params, hook, owner, timelock, hash160);
            && (go.Ok? <==> 0 <= timelock < TWO_32)
            && (go.Ok? ==>
                  Display(go.value)
                    == JsAccountId(Display(owner), Display(verifier), Display(hook), timelock, Hex(params), hash160))
  {
    if 0 <= timelock < TWO_32 {
      JsPayload(verifier, params, hook, owner, timelock, hash160);
      ReverseTwice(hash160(RegistrationPayload(verifier, params, hook, owner, timelock)));
    }
  }

  /** A timelock that Go refuses gets the JS id of its Number modulo 2^32. */
  lemma JsTimelockWraps(owner: string, verifier: string, hook: string, timelock: int, paramsHex: string,
                        hash160: Hash160)
    ensures JsAccountId(owner, verifier, hook, timelock, paramsHex, hash160)
         == JsAccountId(owner, verifier, hook, timelock % TWO_32, paramsHex, hash160)
  {
    assert timelock % TWO_32 % TWO_32 == timelock % TWO_32;
  }

  function GetUint32(b: Bytes): int
    requires |b| == 4
  {
    var b0: int, b1: int, b2: int, b3: int := b[0], b[1], b[2], b[3];
    b0 + 0x100 * b1 + 0x1_0000 * b2 + 0x100_0000 * b3
  }

  lemma Uint32RoundTrip(n: int)
    requires 0 <= n < TWO_32
    ensures GetUint32(PutUint32(n)) == n
  {
    var q1, q2, q3 := n / 0x100, n / 0x1_0000, n / 0x100_0000;
    assert n == q1 * 0x100 + n % 0x100;
    assert q1 / 0x100 == q2 && q2 / 0x100 == q3;
    assert q1 == q2 * 0x100 + q1 % 0x100;
    assert q2 == q3 * 0x100 + q2 % 0x100;
  }

  lemma SplitEqual(a: Bytes, b: Bytes, a': Bytes, b': Bytes)
    requires a + b == a' + b' && |a| == |a'|
    ensures a == a' && b == b'
  {
    assert a == (a + b)[..|a|] && a' == (a' + b')[..|a|];
    assert b == (a + b)[|a|..] && b' == (a' + b')[|a|..];
  }

  lemma BytesLEInjective(u: Uint160, v: Uint160)
    requires BytesLE(u) == BytesLE(v)
    ensures u == v
  {
    ReverseTwice(u);
    ReverseTwice(v);
  }

  /** Where each argument stands in the hashed payload. */
  lemma PayloadLayout(verifier: Uint160, params: Bytes, hook: Uint160, owner: Uint160, timelock: int)
    requires 0 <= timelock < TWO_32
    ensures var b := RegistrationPayload(verifier, params, hook, owner, timelock);
            && |b| == 68 + |params| && b[..4] == [0xAA, 0x52, 0x47, 0x01]
            && b[4..24] == Reverse(owner) && b[24..44] == Reverse(verifier) && b[44..64] == Reverse(hook)
            && b[64] as int + 0x100 * (b[65] as int) + 0x1_0000 * (b[66] as int) + 0x100_0000 * (b[67] as int)
                 == timelock
            && b[68..] == params
  {
    var b := RegistrationPayload(verifier, params, hook, owner, timelock);
    var r4 := PutUint32(timelock) + params;
    var r3 := BytesLE(hook) + r4;
    var r2 := BytesLE(verifier) + r3;
    var r1 := BytesLE(owner) + r2;
    assert b[4..] == r1 && r1[20..] == r2 && r2[20..] == r3 && r3[20..] == r4;
    assert b[4..24] == r1[..20] && b[24..44] == r2[..20] && b[44..64] == r3[..20];
    Uint32RoundTrip(timelock);
    forall j | 0 <= j < 4 ensures b[64 + j] == PutUint32(timelock)[j] {
      assert b[64 + j] == r4[j];
    }
    assert b[68..] == r4[4..] == params;
  }

  /** Where core and id stand in the verification script; the constants push, call "verify"
      and make the system call. */
  lemma ScriptLayout(core: Uint160, id: Uint160)
    ensures var b := ProxyScript(core, id);
            && |b| == 60 && b[..2] == [0x0c, 0x14] && b[2..22] == Reverse(id)
            && b[22..27] == [0x11, 0xc0, 0x1f, 0x0c, 0x06]
            && b[27..33] == ['v' as int, 'e' as int, 'r' as int, 'i' as int, 'f' as int, 'y' as int]
            && b[33..35] == [0x0c, 0x14] && b[35..55] == core && b[55..] == [0x41, 0x62, 0x7d, 0x5b, 0x52]
  {
    var b := ProxyScript(core, id);
    var r3 := BytesBE(core) + SYSCALL;
    var r2 := CALL_VERIFY + r3;
    var r1 := BytesLE(id) + r2;
    assert b[2..] == r1 && r1[20..] == r2 && r2[13..] == r3 && r3[20..] == SYSCALL;
    assert b[2..22] == r1[..20] && b[35..55] == r3[..20];
    forall j | 0 <= j < 13 ensures b[22 + j] == CALL_VERIFY[j] {
      assert b[22 + j] == r2[j];
    }
  }

  /** The hashed payload determines every argument. */
  lemma PayloadInjective(v: Uint160, p: Bytes, k: Uint160, o: Uint160, t: int, v': Uint160, p': Bytes, k': Uint160,
                         o': Uint160, t': int)
    requires 0 <= t < TWO_32 && 0 <= t' < TWO_32
    requires RegistrationPayload(v, p, k, o, t) == RegistrationPayload(v', p', k', o', t')
    ensures v == v' && p == p' && k == k' && o == o' && t == t'
  {
    var r4, r4' := PutUint32(t) + p, PutUint32(t') + p';
    var r3, r3' := BytesLE(k) + r4, BytesLE(k') + r4';
    var r2, r2' := BytesLE(v) + r3, BytesLE(v') + r3';
    SplitEqual(MAGIC, BytesLE(o) + r2, MAGIC, BytesLE(o') + r2');
    SplitEqual(BytesLE(o), r2, BytesLE(o'), r2');
    SplitEqual(BytesLE(v), r3, BytesLE(v'), r3');
    SplitEqual(BytesLE(k), r4, BytesLE(k'), r4');
    SplitEqual(PutUint32(t), p, PutUint32(t'), p');
    BytesLEInjective(o, o');
    BytesLEInjective(v, v');
    BytesLEInjective(k, k');
    Uint32RoundTrip(t);
    Uint32RoundTrip(t');
  }

  lemma ScriptInjective(core: Uint160, id: Uint160, id': Uint160)
    requires ProxyScript(core, id) == ProxyScript(core, id')
    ensures id == id'
  {
    var rest := CALL_VERIFY + (BytesBE(core) + SYSCALL);
    SplitEqual(PUSH_20, BytesLE(id) + rest, PUSH_20, BytesLE(id') + rest);
    SplitEqual(BytesLE(id), rest, BytesLE(id'), rest);
    BytesLEInjective(id, id');
  }

  // ---------- Proxy accounts ----------

  /** The text of the bytes from position i on, one byte at a time. */
  lemma HexFrom(b: Bytes, i: nat, pair: string, rest: string)
    requires i < |b| && Hex(b[i + 1..]) == rest
    requires pair == [HexDigit(b[i] / 16), HexDigit(b[i] % 16)]
    ensures Hex(b[i..]) == pair + rest
  {
    assert b[i..][1..] == b[i + 1..];
  }

  lemma PushHex()
    ensures Hex([0x0c, 0x14]) == "0c14"
  {
    var b: Bytes := [0x0c, 0x14];
    HexFrom(b, 1, "14", "");
    HexFrom(b, 0, "0c", "14");
    assert b[0..] == b;
  }

  lemma SyscallHex()
    ensures Hex([0x41, 0x62, 0x7d, 0x5b, 0x52]) == "41627d5b52"
  {
    var b: Bytes := [0x41, 0x62, 0x7d, 0x5b, 0x52];
    HexFrom(b, 4, "52", "");
    HexFrom(b, 3, "5b", "52");
    HexFrom(b, 2, "7d", "5b52");
    HexFrom(b, 1, "62", "7d5b52");
    HexFrom(b, 0, "41", "627d5b52");
    assert b[0..] == b;
  }

  lemma CallHex()
    ensures Hex([0x11, 0xc0, 0x1f, 0x0c, 0x06]) == "11c01f0c06"
  {
    var b: Bytes := [0x11, 0xc0, 0x1f, 0x0c, 0x06];
    HexFrom(b, 4, "06", "");
    HexFrom(b, 3, "0c", "06");
    HexFrom(b, 2, "1f", "0c06");
    HexFrom(b, 1, "c0", "1f0c06");
    HexFrom(b, 0, "11", "c01f0c06");
    assert b[0..] == b;
  }

  lemma VerHex()
    ensures Hex([0x76, 0x65, 0x72]) == "766572"
  {
    var b: Bytes := [0x76, 0x65, 0x72];
    HexFrom(b, 2, "72", "");
    HexFrom(b, 1, "65", "72");
    HexFrom(b, 0, "76", "6572");
    assert b[0..] == b;
  }

  lemma IfyHex()
    ensures Hex([0x69, 0x66, 0x79]) == "696679"
  {
    var b: Bytes := [0x69, 0x66, 0x79];
    HexFrom(b, 2, "79", "");
    HexFrom(b, 1, "66", "79");
    HexFrom(b, 0, "69", "6679");
    assert b[0..] == b;
  }

  lemma ConstantHex()
    ensures Hex(PUSH_20) == "0c14" && Hex(SYSCALL) == "41627d5b52"
    ensures Hex(CALL_VERIFY) == "11c01f0c06766572696679" + "0c14"
  {
    PushHex();
    SyscallHex();
    CallHex();
    VerHex();
    IfyHex();
    var a: Bytes, b: Bytes, c: Bytes := [0x11, 0xc0, 0x1f, 0x0c, 0x06], [0x76, 0x65, 0x72], [0x69, 0x66, 0x79];
    HexAppend(a, b);
    HexAppend(a + b, c);
    HexAppend((a + b) + c, PUSH_20);
    CallPieces(a, b, c);
    CallText();
  }

  lemma CallPieces(a: Bytes, b: Bytes, c: Bytes)
    requires a == [0x11, 0xc0, 0x1f, 0x0c, 0x06] && b == [0x76, 0x65, 0x72] && c == [0x69, 0x66, 0x79]
    ensures CALL_VERIFY == ((a + b) + c) + PUSH_20
  {}

  lemma CallText()
    ensures ("11c01f0c06" + "766572") + "696679" == "11c01f0c06766572696679"
  {}

  lemma ScriptsAgree(core: Uint160, id: Uint160)
    ensures BuildAaVerifyScript(Display(id), Display(core)) == Some(Hex(ProxyScript(core, id)))
  {
    StripHex(BytesLE(id));
    StripHex(BytesLE(core));
    HexText(BytesLE(id));
    HexText(BytesLE(core));
    ScriptText(core, id);
  }

  lemma {:induction false} HexText(b: Bytes)
    ensures |Hex(b)| == 2 * |b| && forall i :: 0 <= i < |Hex(b)| ==> LowerHex(Hex(b)[i])
  {
    if b != [] {
      HexText(b[1..]);
    }
  }

  lemma ScriptText(core: Uint160, id: Uint160)
    ensures "0c14" + (Hex(BytesLE(id)) + ("11c01f0c06766572696679"
              + ("0c14" + (ReversePairs(Hex(BytesLE(core))) + "41627d5b52"))))
         == Hex(ProxyScript(core, id))
  {
    ReversePairsHex(BytesLE(core));
    ReverseTwice(core);
    ConstantHex();
    var r3 := BytesBE(core) + SYSCALL;
    var r2 := CALL_VERIFY + r3;
    var r1 := BytesLE(id) + r2;
    HexAppend(BytesBE(core), SYSCALL);
    HexAppend(CALL_VERIFY, r3);
    HexAppend(BytesLE(id), r2);
    HexAppend(PUSH_20, r1);
    Assoc("11c01f0c06766572696679", "0c14", Hex(r3));
  }

  lemma JsProxy(core: Uint160, id: Uint160, hash160: Hash160)
    ensures DeriveAaProxyHash(Display(id), Display(core), hash160) ==
              Some("0x" + Hex(Reverse(hash160(ProxyScript(core, id)))))
  {
    ScriptsAgree(core, id);
    UnhexWhole(ProxyScript(core, id));
    ReversePairsHex(hash160(ProxyScript(core, id)));
  }

  /** The testnet deployer derives the proxy account that the JS validators expect; the
      mainnet deployer derives exactly its byte reversal. */
  lemma ProxiesAgree(core: Uint160, id: Uint160, hash160: Hash160)
    ensures DeriveAaProxyHash(Display(id), Display(core), hash160) == Some(Display(TestnetProxy(core, id, hash160)))
    ensures MainnetProxy(core, id, hash160) == Reverse(TestnetProxy(core, id, hash160))
  {
    JsProxy(core, id, hash160);
    ReverseTwice(hash160(ProxyScript(core, id)));
  }

  /** The derivations in terms of the hash: ids and mainnet proxies are its bytes reversed,
      testnet proxies the bytes themselves. */
  lemma DerivationsAre(core: Uint160, id: Uint160, verifier: Uint160, params: Bytes, hook: Uint160, owner: Uint160,
                       timelock: int, hash160: Hash160)
    requires 0 <= timelock < 0x1_0000_0000
    ensures GoAccountId(verifier, params, hook, owner, timelock, hash160)
         == Ok(Reverse(hash160(RegistrationPayload(verifier, params, hook, owner, timelock))))
    ensures TestnetProxy(core, id, hash160) == hash160(ProxyScript(core, id))
    ensures MainnetProxy(core, id, hash160) == Reverse(hash160(ProxyScript(core, id)))
    ensures Display(id) == "0x" + Hex(Reverse(id))
  {
    ReverseTwice(hash160(ProxyScript(core, id)));
  }

  /** `resolveAnchorAccountId`; None where a derivation throws. */
  function ResolveAnchorAccountId(account: string, stored: string, core: string, hash160: Hash160): Option<string> {
    if stored == "" || account == "" then Some(stored)
    else
      match DeriveAaProxyHash(stored, core, hash160)
      case None => None
      case Some(direct) =>
        if direct == account then Some(stored)
        else
          var reversed := "0x" + ReversePairs(Strip0x(stored));
          match DeriveAaProxyHash(reversed, core, hash160)
          case None => None
          case Some(flipped) => Some(if flipped == account then reversed else stored)
  }

  /** `normalizeAnchorAgent(...).aaProxyMatched`; None where a derivation throws. */
  function AaProxyMatched(account: string, stored: string, core: string, hash160: Hash160): Option<bool> {
    match ResolveAnchorAccountId(account, stored, core, hash160)
    case None => None
    case Some(id) =>
      if id == "" then Some(false)
      else
        match DeriveAaProxyHash(id, core, hash160)
        case None => None
        case Some(expected) => Some(account != "" && account == expected && stored == id)
  }

  /** The validators accept an agent registered with the account id in display order exactly
      when its account is the testnet-style proxy of that id.  An agent that the mainnet
      deployer registers is accepted only if the proxy hash reads the same backwards. */
  lemma AgentMatching(core: Uint160, id: Uint160, account: Uint160, hash160: Hash160)
    ensures AaProxyMatched(Display(account), Display(id), Display(core), hash160) ==
              Some(account == TestnetProxy(core, id, hash160))
    ensures AaProxyMatched(Display(MainnetProxy(core, id, hash160)), Display(id), Display(core), hash160)
         == Some(Reverse(TestnetProxy(core, id, hash160)) == TestnetProxy(core, id, hash160))
  {
    ProxiesAgree(core, id, hash160);
    StripHex(BytesLE(core));
    HexText(BytesLE(core));
    StripHex(BytesLE(id));
    HexText(BytesLE(id));
    MatchingByStored(Display(account), Display(id), Display(core), hash160);
    MatchingByStored(Display(MainnetProxy(core, id, hash160)), Display(id), Display(core), hash160);
    DisplayInjective(account, TestnetProxy(core, id, hash160));
    DisplayInjective(MainnetProxy(core, id, hash160), TestnetProxy(core, id, hash160));
  }

  /** Only the stored order counts as a match, whatever the reversed order derives. */
  lemma MatchingByStored(account: string, stored: string, core: string, hash160: Hash160)
    requires account != "" && Hash160Text(Strip0x(stored)) && Hash160Text(Strip0x(core))
    ensures AaProxyMatched(account, stored, core, hash160) ==
              Some(Some(account) == DeriveAaProxyHash(stored, core, hash160))
  {
    ReversedTextFits(stored);
    assert stored != "";
  }

  /** With a well-formed core, the match throws exactly on a stored id that is present and
      not 40 hex digits. */
  lemma MatchThrowsIff(account: string, stored: string, core: string, hash160: Hash160)
    requires Hash160Text(Strip0x(core))
    ensures AaProxyMatched(account, stored, core, hash160) == None <==> stored != "" && !Hash160Text(Strip0x(stored))
  {
    if Hash160Text(Strip0x(stored)) {
      ReversedTextFits(stored);
    }
  }

  lemma ReversedTextFits(stored: string)
    requires Hash160Text(Strip0x(stored))
    ensures Hash160Text(Strip0x("0x" + ReversePairs(Strip0x(stored))))
  {
    var r := ReversePairs(Strip0x(stored));
    ReversePairsText(Strip0x(stored));
    LowerOfHex(r);
    assert ("0x" + r)[2..] == r;
  }

  lemma {:induction false} ReversePairsText(s: string)
    requires |s| % 2 == 0 && forall i :: 0 <= i < |s| ==> LowerHex(s[i])
    ensures |ReversePairs(s)| == |s| && forall i :: 0 <= i < |s| ==> LowerHex(ReversePairs(s)[i])
    decreases |s|
  {
    if |s| >= 2 {
      ReversePairsText(s[2..]);
    }
  }

  lemma {:induction false} LowerOfHex(s: string)
    requires forall i :: 0 <= i < |s| ==> LowerHex(s[i])
    ensures Lower(s) == s
  {
    if s != "" {
      LowerOfHex(s[1..]);
      assert s == [s[0]] + s[1..];
    }
  }

  /** An id stored in reversed byte order is still resolved, unless its own script happens
      to hash to the account. */
  lemma ReversedIdIsResolved(core: Uint160, id: Uint160, hash160: Hash160)
    requires TestnetProxy(core, Reverse(id), hash160) != TestnetProxy(core, id, hash160)
    ensures ResolveAnchorAccountId(Display(TestnetProxy(core, id, hash160)), Display(Reverse(id)), Display(core),
                                   hash160) == Some(Display(id))
  {
    ProxiesAgree(core, id, hash160);
    ProxiesAgree(core, Reverse(id), hash160);
    DisplayInjective(TestnetProxy(core, Reverse(id), hash160), TestnetProxy(core, id, hash160));
    ReversedDisplay(id);
    ResolvedByReversal(Display(TestnetProxy(core, id, hash160)), Display(Reverse(id)), Display(core), hash160);
  }

  lemma ReversedDisplay(id: Uint160)
    ensures "0x" + ReversePairs(Strip0x(Display(Reverse(id)))) == Display(id)
  {
    StripHex(BytesLE(Reverse(id)));
    ReversePairsHex(BytesLE(Reverse(id)));
    ReverseTwice(Reverse(id));
  }

  lemma ResolvedByReversal(account: string, stored: string, core: string, hash160: Hash160)
    requires account != "" && stored != ""
    requires DeriveAaProxyHash(stored, core, hash160).Some? && DeriveAaProxyHash(stored, core, hash160) != Some(account)
    requires DeriveAaProxyHash("0x" + ReversePairs(Strip0x(stored)), core, hash160) == Some(account)
    ensures ResolveAnchorAccountId(account, stored, core, hash160) == Some("0x" + ReversePairs(Strip0x(stored)))
  {}

  // ---------- In place, and the verify-scope list ----------

  /** `reverseUint160LE`: two indices swap the bytes in place. */
  method ReverseInPlace(bytes: array<Byte>)
    modifies bytes
    ensures bytes[..] == Reverse(old(bytes[..]))
  {
    var left, right := 0, bytes.Length - 1;
    while left < right
      invariant 0 <= left && right == bytes.Length - 1 - left && left <= right + 2
      invariant forall k :: 0 <= k < left ==>
                  bytes[k] == old(bytes[bytes.Length - 1 - k]) && bytes[bytes.Length - 1 - k] == old(bytes[k])
      invariant forall k :: left <= k < bytes.Length - left ==> bytes[k] == old(bytes[k])
    {
      bytes[left], bytes[right] := bytes[right], bytes[left];
      left, right := left + 1, right - 1;
    }
    forall k | 0 <= k < bytes.Length ensures bytes[k] == old(bytes[bytes.Length - 1 - k]) {
      if k > bytes.Length - 1 - k {
        var j := bytes.Length - 1 - k;
        assert bytes.Length - 1 - j == k;
      }
    }
  }

  /** The loop of `ensureAAVerifyScopes`: each id in both byte orders, once. */
  method ScopeAccounts(ids: seq<Uint160>) returns (accounts: seq<Uint160>)
    ensures forall u: Uint160 :: u in accounts <==> u in ids || Reverse(u) in ids
    ensures forall i, j :: 0 <= i < j < |accounts| ==> accounts[i] != accounts[j]
  {
    accounts := [];
    var seen: set<Uint160> := {};
    for i := 0 to |ids|
      invariant forall u: Uint160 :: u in accounts <==> u in ids[..i] || Reverse(u) in ids[..i]
      invariant forall u: Uint160 :: u in seen <==> u in accounts
      invariant forall i, j :: 0 <= i < j < |accounts| ==> accounts[i] != accounts[j]
    {
      var id, reversed := ids[i], Reverse(ids[i]);
      forall u: Uint160 ensures Reverse(Reverse(u)) == u { ReverseTwice(u); }
      assert ids[..i + 1] == ids[..i] + [id];
      if id !in seen {
        seen, accounts := seen + {id}, accounts + [id];
      }
      if reversed !in seen {
        seen, accounts := seen + {reversed}, accounts + [reversed];
      }
    }
    assert ids[..|ids|] == ids;
  }
}
