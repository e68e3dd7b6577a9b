/** The oracle fulfilment digest of the live validators.  SHA-256 is the parameter `sha`. */
module FulfillmentDigest {
  import opened ByteStrings
  import opened AccountCodec
  import opened LittleEndian

  type Hash256 = b: Bytes | |b| == 32 witness seq(32, _ => 0)

  // ---------- encodeUint256Bytes ----------

  /** `BigInt.toString(16)` of a value that is not negative. */
  function HexNumber(v: nat): (s: string)
    ensures |s| > 0
  {
    if v < 16 then [HexDigit(v)] else HexNumber(v / 16) + [HexDigit(v % 16)]
  }

  function SignedHexNumber(v: int): string {
    if v < 0 then "-" + HexNumber(-v) else HexNumber(v)
  }

  /** `padStart(64, "0")`: longer texts stay as they are. */
  function PadStart(s: string, width: nat): (r: string)
    ensures |r| == if |s| < width then width else |s|
    decreases width - |s|
  {
    if |s| >= width then s else PadStart("0" + s, width)
  }

  function EncodeUint256(v: int): Bytes {
    Unhex(PadStart(SignedHexNumber(v), 64))
  }

  /** The number a text of hex digits stands for. */
  function HexValue(s: string): nat
    requires Digits(s)
  {
    if s == "" then 0 else 16 * HexValue(s[..|s| - 1]) + DigitOf(s[|s| - 1])
  }

  predicate Digits(s: string) {
    forall i :: 0 <= i < |s| ==> DigitOf(s[i]) >= 0
  }

  lemma {:induction false} HexNumberValue(v: nat)
    ensures Digits(HexNumber(v)) && HexValue(HexNumber(v)) == v
    decreases v
  {
    DigitRoundTrip(v % 16);
    var front := if v < 16 then "" else HexNumber(v / 16);
    if v >= 16 {
      HexNumberValue(v / 16);
    }
    var s := front + [HexDigit(v % 16)];
    assert s[..|s| - 1] == front && HexNumber(v) == s;
  }

  /** A value below 16^k has at most k digits. */
  lemma {:induction false} HexNumberLength(v: nat, k: nat)
    requires v < Pow256(k)
    ensures |HexNumber(v)| <= if k == 0 then 1 else 2 * k
    decreases k
  {
    if k > 0 && v >= 0x100 {
      HexNumberLength(v / 0x100, k - 1);
      assert v / 16 / 16 == v / 0x100;
    }
  }

  lemma {:induction false} PadKeepsValue(s: string, width: nat)
    requires Digits(s)
    ensures Digits(PadStart(s, width)) && HexValue(PadStart(s, width)) == HexValue(s)
    decreases width - |s|
  {
    if |s| < width {
      ZeroInFront(s);
      PadKeepsValue("0" + s, width);
    }
  }

  lemma {:induction false} ZeroInFront(s: string)
    requires Digits(s)
    ensures Digits("0" + s) && HexValue("0" + s) == HexValue(s)
  {
    var t := "0" + s;
    if s == "" {
      assert t[..0] == "";
    } else {
      assert t[..|t| - 1] == "0" + s[..|s| - 1];
      ZeroInFront(s[..|s| - 1]);
    }
  }

  lemma HexValueSnoc(front: string, h: char, l: char)
    requires Digits(front) && DigitOf(h) >= 0 && DigitOf(l) >= 0
    ensures Digits(front + [h, l]) && HexValue(front + [h, l]) == 0x100 * HexValue(front) + DigitOf(h) * 16 + DigitOf(l)
  {
    var s := front + [h, l];
    var t := front + [h];
    assert s[..|s| - 1] == t && t[..|t| - 1] == front;
    assert HexValue(t) == 16 * HexValue(front) + DigitOf(h);
  }

  lemma BigEndianSnoc(b: Bytes, last: Byte)
    ensures BigEndian(b + [last]) == 0x100 * BigEndian(b) + last
  {
    assert (b + [last])[..|b|] == b;
  }

  /** Reading an even number of digits in pairs keeps the value. */
  lemma {:induction false} UnhexValue(s: string)
    requires Digits(s) && |s| % 2 == 0
    ensures |Unhex(s)| == |s| / 2 && BigEndian(Unhex(s)) == HexValue(s)
    decreases |s|
  {
    if |s| >= 2 {
      var front, h, l := s[..|s| - 2], s[|s| - 2], s[|s| - 1];
      UnhexValue(front);
      assert s == front + [h, l];
      UnhexSnoc(front, h, l);
      HexValueSnoc(front, h, l);
      BigEndianSnoc(Unhex(front), DigitOf(h) * 16 + DigitOf(l));
    }
  }

  lemma {:induction false} UnhexSnoc(front: string, h: char, l: char)
    requires Digits(front) && |front| % 2 == 0 && DigitOf(h) >= 0 && DigitOf(l) >= 0
    ensures Unhex(front + [h, l]) == Unhex(front) + [DigitOf(h) * 16 + DigitOf(l)]
    decreases |front|
  {
    var s := front + [h, l];
    if front == "" {
      assert s[0] == h && s[1] == l && s[2..] == "";
    } else {
      assert s[2..] == front[2..] + [h, l] && s[0] == front[0] && s[1] == front[1];
      UnhexSnoc(front[2..], h, l);
    }
  }

  lemma EncodesUint256(v: nat)
    requires v < Pow256(32)
    ensures |EncodeUint256(v)| == 32 && BigEndian(EncodeUint256(v)) == v
  {
    HexNumberValue(v);
    HexNumberLength(v, 32);
    PadKeepsValue(HexNumber(v), 64);
    UnhexValue(PadStart(HexNumber(v), 64));
  }

  /** The encoder yields 32 big-endian bytes of the value exactly for unsigned 256-bit
      values; others are neither refused nor kept. */
  lemma EncodesIffUint256(v: int)
    ensures |EncodeUint256(v)| == 32 && BigEndian(EncodeUint256(v)) == v <==> 0 <= v < Pow256(32)
  {
    if 0 <= v < Pow256(32) {
      EncodesUint256(v);
    } else {
      BigEndianBounds(EncodeUint256(v));
    }
  }

  lemma BigEndianBounds(b: Bytes)
    ensures 0 <= BigEndian(b) < Pow256(|b|)
  {
    ReversedValue(Reverse(b));
    ReverseTwice(b);
    UnsignedBounds(Reverse(b));
  }

  // ---------- buildFulfillmentDigestHex ----------

  /** What the digest covers of one fulfilment. */
  datatype Fulfillment = Fulfillment(requestId: int, requestType: Bytes, success: bool, result: Bytes, error: Bytes)

  /** "morpheus-fulfillment-v2" */
  const DOMAIN: Bytes := [
    0x6d, 0x6f, 0x72, 0x70, 0x68, 0x65, 0x75, 0x73, 0x2d, 0x66, 0x75, 0x6c,
    0x66, 0x69, 0x6c, 0x6c, 0x6d, 0x65, 0x6e, 0x74, 0x2d, 0x76, 0x32
  ]

  function SuccessByte(success: bool): Bytes {
    if success then [1] else [0]
  }

  function DigestPayload(f: Fulfillment, sha: Bytes -> Hash256): Bytes {
    DOMAIN + (EncodeUint256(f.requestId)
              + (sha(f.requestType) + (SuccessByte(f.success) + (sha(f.result) + sha(f.error)))))
  }

  /** Where everything stands in the text that is hashed. */
  lemma PayloadLayout(f: Fulfillment, sha: Bytes -> Hash256)
    requires 0 <= f.requestId < Pow256(32)
    ensures var b := DigestPayload(f, sha);
            && |b| == 152
            && (forall i :: 0 <= i < 23 ==> b[i] == "morpheus-fulfillment-v2"[i] as int)
            && BigEndian(b[23..55]) == f.requestId && b[55..87] == sha(f.requestType)
            && b[87] == (if f.success then 1 else 0)
            && b[88..120] == sha(f.result) && b[120..] == sha(f.error)
  {
    EncodesIffUint256(f.requestId);
    var b := DigestPayload(f, sha);
    var r4 := sha(f.result) + sha(f.error);
    var r3 := SuccessByte(f.success) + r4;
    var r2 := sha(f.requestType) + r3;
    var r1 := EncodeUint256(f.requestId) + r2;
    assert b[23..] == r1 && r1[32..] == r2 && r2[32..] == r3 && r3[1..] == r4;
    assert b[23..55] == r1[..32] && b[55..87] == r2[..32] && b[88..120] == r4[..32];
    DomainText();
  }

  lemma DomainText()
    ensures |DOMAIN| == 23 && forall i :: 0 <= i < 23 ==> DOMAIN[i] == "morpheus-fulfillment-v2"[i] as int
  {}

  function DigestHex(f: Fulfillment, sha: Bytes -> Hash256): string {
    Hex(sha(DigestPayload(f, sha)))
  }

  ghost predicate NoClash(sha: Bytes -> Hash256, x: Bytes, y: Bytes) {
    sha(x) == sha(y) ==> x == y
  }

  /** Two fulfilments of unsigned 256-bit requests share a digest only if they agree on
      everything signed, as long as SHA-256 does not collide on what is hashed here. */
  lemma DigestDecidesFulfillment(f: Fulfillment, g: Fulfillment, sha: Bytes -> Hash256)
    requires 0 <= f.requestId < Pow256(32) && 0 <= g.requestId < Pow256(32)
    requires NoClash(sha, DigestPayload(f, sha), DigestPayload(g, sha))
    requires NoClash(sha, f.requestType, g.requestType)
    requires NoClash(sha, f.result, g.result) && NoClash(sha, f.error, g.error)
    ensures DigestHex(f, sha) == DigestHex(g, sha) <==> f == g
  {
    if DigestHex(f, sha) == DigestHex(g, sha) {
      UnhexWhole(sha(DigestPayload(f, sha)));
      UnhexWhole(sha(DigestPayload(g, sha)));
      EncodesIffUint256(f.requestId);
      EncodesIffUint256(g.requestId);
      var r4, s4 := sha(f.result) + sha(f.error), sha(g.result) + sha(g.error);
      var r3, s3 := SuccessByte(f.success) + r4, SuccessByte(g.success) + s4;
      var r2, s2 := sha(f.requestType) + r3, sha(g.requestType) + s3;
      SplitEqual(DOMAIN, EncodeUint256(f.requestId) + r2, DOMAIN, EncodeUint256(g.requestId) + s2);
      SplitEqual(EncodeUint256(f.requestId), r2, EncodeUint256(g.requestId), s2);
      SplitEqual(sha(f.requestType), r3, sha(g.requestType), s3);
      SplitEqual(SuccessByte(f.success), r4, SuccessByte(g.success), s4);
      SplitEqual(sha(f.result), sha(f.error), sha(g.result), sha(g.error));
      assert f.success == (SuccessByte(f.success)[0] == 1);
    }
  }
}
