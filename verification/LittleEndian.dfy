/** The two little-endian decoders: the signed one of the live validators and the unsigned
    one of the update scheduler. */
module LittleEndian {
  import opened ByteStrings

  function Pow256(n: nat): (p: int)
    ensures p > 0
  {
    if n == 0 then 1 else 0x100 * Pow256(n - 1)
  }

  /** The unsigned value, the first byte weighing least. */
  function Unsigned(b: Bytes): int {
    if b == [] then 0 else b[0] + 0x100 * Unsigned(b[1..])
  }

  /** `BigInt("0x" + hex)`: the first byte weighs most. */
  function BigEndian(b: Bytes): int {
    if b == [] then 0 else 0x100 * BigEndian(b[..|b| - 1]) + b[|b| - 1]
  }

  /** The two's complement value of n bytes: the top bit weighs -256^n / 2 instead of +. */
  function TwosComplement(b: Bytes): int {
    if TopBit(b) then Unsigned(b) - Pow256(|b|) else Unsigned(b)
  }

  predicate TopBit(b: Bytes) {
    b != [] && b[|b| - 1] >= 0x80
  }

  lemma {:induction false} ReversedValue(b: Bytes)
    ensures BigEndian(Reverse(b)) == Unsigned(b)
  {
    if b != [] {
      ReversedValue(b[1..]);
      assert Reverse(b)[..|b| - 1] == Reverse(b[1..]);
    }
  }

  lemma {:induction false} UnsignedBounds(b: Bytes)
    ensures 0 <= Unsigned(b) < Pow256(|b|)
  {
    if b != [] {
      UnsignedBounds(b[1..]);
    }
  }

  lemma {:induction false} UnsignedSnoc(b: Bytes, last: Byte)
    ensures Unsigned(b + [last]) == Unsigned(b) + last * Pow256(|b|)
  {
    if b == [] {
      assert (b + [last])[1..] == [];
    } else {
      UnsignedSnoc(b[1..], last);
      assert (b + [last])[1..] == b[1..] + [last];
      Distribute(0x100, Unsigned(b[1..]), last, Pow256(|b| - 1));
    }
  }

  lemma Distribute(k: int, u: int, x: int, p: int)
    ensures k * (u + x * p) == k * u + x * (k * p)
  {
    assert k * (x * p) == x * (k * p) by {
      assert k * (x * p) == (k * x) * p == (x * k) * p == x * (k * p);
    }
  }

  /** The signed value lies in the range that n bytes span, half of it below zero. */
  lemma SignedRange(b: Bytes)
    requires b != []
    ensures -Pow256(|b|) <= 2 * TwosComplement(b) < Pow256(|b|)
    ensures TopBit(b) <==> TwosComplement(b) < 0
    ensures (TwosComplement(b) - Unsigned(b)) % Pow256(|b|) == 0
  {
    var front, last := b[..|b| - 1], b[|b| - 1];
    var top: int, p := last, Pow256(|front|);
    assert b == front + [last];
    UnsignedSnoc(front, last);
    UnsignedBounds(front);
    assert Pow256(|b|) == 0x100 * p;
    if top >= 0x80 {
      assert top * p >= 0x80 * p && top * p <= 0xff * p by { Scale(0x80, top, p); Scale(top, 0xff, p); }
    } else {
      assert top * p <= 0x7f * p by { Scale(top, 0x7f, p); }
      assert 0 <= top * p by { Scale(0, top, p); }
    }
    Multiple(Pow256(|b|), if TopBit(b) then -1 else 0);
  }

  lemma Scale(a: int, b: int, p: int)
    requires a <= b && p > 0
    ensures a * p <= b * p
  {}

  lemma Multiple(n: int, k: int)
    requires n > 0 && (k == -1 || k == 0)
    ensures (k * n) % n == 0
  {}

  // ---------- signedBigIntFromLittleEndian ----------

  /** One byte of the loop, seen as numbers: `u` is the part of the value already inverted,
      `v` the same part before. */
  lemma CarryStep(x: int, sum: int, carry: int, carry': int, u: int, v: int, q: int)
    requires carry' * 0x100 + sum == 0xff - x + carry
    requires u + carry * q == q - v
    ensures (u + sum * q) + carry' * (0x100 * q) == 0x100 * q - (v + x * q)
  {
    assert carry' * (0x100 * q) == (carry' * 0x100) * q;
    assert sum * q + (carry' * 0x100) * q == (sum + carry' * 0x100) * q == (0xff - x + carry) * q;
    assert (0xff - x + carry) * q == 0xff * q - x * q + carry * q;
  }

  /** Invert every byte and add one, in place.  The carry runs out of the buffer exactly
      when every byte is zero. */
  method Negate(twos: array<Byte>) returns (carry: int)
    modifies twos
    ensures Unsigned(twos[..]) + carry * Pow256(twos.Length) == Pow256(twos.Length) - Unsigned(old(twos[..]))
    ensures carry == if Unsigned(old(twos[..])) == 0 then 1 else 0
  {
    ghost var b := twos[..];
    carry := 1;
    for i := 0 to twos.Length
      invariant 0 <= carry <= 1 && twos[i..] == b[i..]
      invariant Unsigned(twos[..i]) + carry * Pow256(i) == Pow256(i) - Unsigned(b[..i])
    {
      ghost var done, x: int, before := twos[..i], twos[i], carry;
      assert twos[i] == twos[i..][0] == b[i];
      var value := (0xff - twos[i]) + carry;
      twos[i] := value % 0x100;
      carry := value / 0x100;
      assert twos[..i + 1] == done + [twos[i]] && b[..i + 1] == b[..i] + [b[i]];
      assert twos[i + 1..] == b[i + 1..];
      UnsignedSnoc(done, twos[i]);
      UnsignedSnoc(b[..i], b[i]);
      CarryStep(x, twos[i], before, carry, Unsigned(done), Unsigned(b[..i]), Pow256(i));
    }
    assert twos[..twos.Length] == twos[..] && b[..twos.Length] == b;
    UnsignedBounds(twos[..]);
    UnsignedBounds(b);
  }

  method SignedFromLittleEndian(buffer: Bytes) returns (value: int)
    ensures value == TwosComplement(buffer)
  {
    if |buffer| == 0 {
      return 0;
    }
    if !TopBit(buffer) {
      ReversedValue(buffer);
      return BigEndian(Reverse(buffer));
    }
    SignedRange(buffer);
    UnsignedBounds(buffer);
    var twos := new Byte[|buffer|](i requires 0 <= i < |buffer| => buffer[i]);
    assert twos[..] == buffer;
    var carry := Negate(twos);
    assert carry == 0;
    ReversedValue(twos[..]);
    value := -BigEndian(Reverse(twos[..]));
  }

  // ---------- ruLittleEndianInteger ----------

  method LittleEndianInteger(raw: Bytes) returns (value: int)
    ensures value == Unsigned(raw)
  {
    value := 0;
    for index := |raw| downto 0
      invariant value == Unsigned(raw[index..])
    {
      value := value * 0x100;
      value := value + raw[index];
      assert raw[index..][1..] == raw[index + 1..];
    }
  }

  /** The two decoders give the same number exactly when the top bit is clear. */
  lemma DecodersAgreeIff(b: Bytes)
    ensures TwosComplement(b) == Unsigned(b) <==> !TopBit(b)
  {
    UnsignedBounds(b);
  }
}
