/** Standard base64 as defined in section 4 of RFC 4648: the 64-character
    alphabet `A-Z a-z 0-9 + /`, `=` padding of the final quantum, and no line
    breaks. This is the text `Buffer.toString('base64')` yields for a byte
    buffer. The decoder is the strict one of section 3.5 of the RFC: it
    rejects bad lengths, characters outside the alphabet, misplaced padding
    and non-zero pad bits, which makes it the exact inverse of the encoder. */
module Base64 {

  type Byte = b: int | 0 <= b < 256

  /** A 6-bit value: the index of one character of the alphabet. */
  type Sextet = v: int | 0 <= v < 64

  datatype Option<T> = None | Some(value: T)

  const Pad: char := '='

  /** The character that encodes value `v` (Table 1 of RFC 4648: values 0-25
      are `A`-`Z`, 26-51 `a`-`z`, 52-61 `0`-`9`, 62 `+`, 63 `/`). */
  function CharOf(v: Sextet): char {
    if v < 26 then ('A' as int + v) as char
    else if v < 52 then ('a' as int + (v - 26)) as char
    else if v < 62 then ('0' as int + (v - 52)) as char
    else if v == 62 then '+'
    else '/'
  }

  /** The value a character stands for, or None when it is not in the alphabet
      (the pad character `=` included). */
  function ValueOf(c: char): (r: Option<Sextet>)
  {
    if 'A' <= c <= 'Z' then Some(c as int - 'A' as int)
    else if 'a' <= c <= 'z' then Some(c as int - 'a' as int + 26)
    else if '0' <= c <= '9' then Some(c as int - '0' as int + 52)
    else if c == '+' then Some(62)
    else if c == '/' then Some(63)
    else None
  }

  predicate InAlphabet(c: char) {
    ValueOf(c).Some?
  }

  /** CharOf and ValueOf are inverse on the alphabet, and no value is
      encoded by the pad character. */
  lemma ValueOfCharOf(v: Sextet)
    ensures ValueOf(CharOf(v)) == Some(v) && CharOf(v) != Pad
  {
  }

  /** ValueOf is one-to-one: a character of the alphabet is the encoding of its
      own value. */
  lemma ValueOfInjective(c: char)
    requires InAlphabet(c)
    ensures CharOf(ValueOf(c).value) == c
  {
  }

  /** Number of `=` characters that close the encoding of `n` bytes. */
  function PadCount(n: nat): (p: nat)
    ensures p <= 2
  {
    (3 - n % 3) % 3
  }

  /** A 24-bit group as four 6-bit values, most significant first
      (section 4 of RFC 4648). */
  function ToSextets(b0: Byte, b1: Byte, b2: Byte): (Sextet, Sextet, Sextet, Sextet) {
    (b0 / 4, (b0 % 4) * 16 + b1 / 16, (b1 % 16) * 4 + b2 / 64, b2 % 64)
  }

  /** Four 6-bit values back to the three bytes of their 24-bit group. */
  function FromSextets(v0: Sextet, v1: Sextet, v2: Sextet, v3: Sextet): (Byte, Byte, Byte) {
    (v0 * 4 + v1 / 16, (v1 % 16) * 16 + v2 / 4, (v2 % 4) * 64 + v3)
  }

  /** A value `a * k + r` with `0 <= r < k` splits back into `a` and `r`,
      for the divisors the bit groups use. */
  lemma DivModParts(a: int, k: int, r: int)
    requires k == 4 || k == 16 || k == 64
    requires 0 <= r < k
    ensures (a * k + r) / k == a && (a * k + r) % k == r
  {
    if k == 4 {
      assert a * k + r == a * 4 + r;
    } else if k == 16 {
      assert a * k + r == a * 16 + r;
    } else {
      assert a * k + r == a * 64 + r;
    }
  }

  lemma BytesThroughSextets(b0: Byte, b1: Byte, b2: Byte)
    ensures var (v0, v1, v2, v3) := ToSextets(b0, b1, b2); FromSextets(v0, v1, v2, v3) == (b0, b1, b2)
  {
    DivModParts(b0 % 4, 16, b1 / 16);
    DivModParts(b1 % 16, 4, b2 / 64);
  }

  lemma SextetsThroughBytes(v0: Sextet, v1: Sextet, v2: Sextet, v3: Sextet)
    ensures var (b0, b1, b2) := FromSextets(v0, v1, v2, v3); ToSextets(b0, b1, b2) == (v0, v1, v2, v3)
  {
    var b0: int, b1: int, b2: int := v0 * 4 + v1 / 16, (v1 % 16) * 16 + v2 / 4, (v2 % 4) * 64 + v3;
    assert FromSextets(v0, v1, v2, v3) == (b0, b1, b2);
    DivModParts(v0, 4, v1 / 16);
    DivModParts(v1 % 16, 16, v2 / 4);
    DivModParts(v2 % 4, 64, v3);
    assert (b0 % 4) * 16 + b1 / 16 == (v1 / 16) * 16 + v1 % 16 == v1;
    assert (b1 % 16) * 4 + b2 / 64 == (v2 / 4) * 4 + v2 % 4 == v2;
  }

  /** One full quantum: three bytes become four characters. */
  function EncodeQuantum(b0: Byte, b1: Byte, b2: Byte): string {
    var (v0, v1, v2, v3) := ToSextets(b0, b1, b2);
    [CharOf(v0), CharOf(v1), CharOf(v2), CharOf(v3)]
  }

  /** The four characters of a quantum are alphabet characters with the
      values ToSextets gives. */
  lemma QuantumValues(b0: Byte, b1: Byte, b2: Byte)
    ensures var q := EncodeQuantum(b0, b1, b2);
            var (v0, v1, v2, v3) := ToSextets(b0, b1, b2);
            ValueOf(q[0]) == Some(v0) && ValueOf(q[1]) == Some(v1) &&
            ValueOf(q[2]) == Some(v2) && ValueOf(q[3]) == Some(v3)
  {
    var (v0, v1, v2, v3) := ToSextets(b0, b1, b2);
    ValueOfCharOf(v0);
    ValueOfCharOf(v1);
    ValueOfCharOf(v2);
    ValueOfCharOf(v3);
  }

  /** Base64 text of a byte sequence: one quantum of four characters per
      three bytes. The final one or two bytes are encoded as a quantum filled
      up with zero bytes, whose last one or two characters are replaced by
      `=`. The encoding of n bytes has 4*ceil(n/3) characters. */
  function Encode(b: seq<Byte>): (s: string)
    ensures |s| == 4 * ((|b| + 2) / 3)
    decreases |b|
  {
    if |b| == 0 then []
    else if |b| == 1 then EncodeQuantum(b[0], 0, 0)[..2] + [Pad, Pad]
    else if |b| == 2 then EncodeQuantum(b[0], b[1], 0)[..3] + [Pad]
    else
      assert (|b| + 2) / 3 == (|b| - 3 + 2) / 3 + 1;
      EncodeQuantum(b[0], b[1], b[2]) + Encode(b[3..])
  }

  /** Text made of alphabet characters followed by exactly `p` pad characters. */
  predicate PaddedBase64(s: string, p: nat) {
    p <= |s| &&
    (forall i :: 0 <= i < |s| - p ==> InAlphabet(s[i])) &&
    (forall i :: |s| - p <= i < |s| ==> s[i] == Pad)
  }

  /** A full quantum is four alphabet characters. */
  lemma QuantumAlphabet(b0: Byte, b1: Byte, b2: Byte)
    ensures PaddedBase64(EncodeQuantum(b0, b1, b2), 0)
  {
    QuantumValues(b0, b1, b2);
  }

  lemma OneByteAlphabet(b: seq<Byte>)
    requires |b| == 1
    ensures PaddedBase64(Encode(b), 2)
  {
    QuantumValues(b[0], 0, 0);
  }

  lemma TwoByteAlphabet(b: seq<Byte>)
    requires |b| == 2
    ensures PaddedBase64(Encode(b), 1)
  {
    QuantumValues(b[0], b[1], 0);
  }

  /** Padding-free text in front of padded text keeps the padding at the end. */
  lemma PaddedAppend(q: string, rest: string, p: nat)
    requires PaddedBase64(q, 0) && PaddedBase64(rest, p)
    ensures PaddedBase64(q + rest, p)
  {
    forall i | 0 <= i < |q + rest|
      ensures (q + rest)[i] == if i < |q| then q[i] else rest[i - |q|]
    {
    }
  }

  /** The encoding uses only the alphabet, then PadCount(n) `=` at the end
      and nowhere else. */
  lemma {:induction false} EncodeAlphabet(b: seq<Byte>)
    ensures PaddedBase64(Encode(b), PadCount(|b|))
    decreases |b|
  {
    if |b| == 1 {
      OneByteAlphabet(b);
    } else if |b| == 2 {
      TwoByteAlphabet(b);
    } else if |b| >= 3 {
      var q, rest := EncodeQuantum(b[0], b[1], b[2]), Encode(b[3..]);
      assert Encode(b) == q + rest;
      QuantumAlphabet(b[0], b[1], b[2]);
      EncodeAlphabet(b[3..]);
      assert PadCount(|b|) == PadCount(|b| - 3);
      PaddedAppend(q, rest, PadCount(|b| - 3));
    }
  }

  /** Four alphabet characters back to three bytes. */
  function DecodeQuantum(q: string): (r: Option<seq<Byte>>)
    requires |q| == 4
  {
    match (ValueOf(q[0]), ValueOf(q[1]), ValueOf(q[2]), ValueOf(q[3]))
    case (Some(v0), Some(v1), Some(v2), Some(v3)) =>
      var (b0, b1, b2) := FromSextets(v0, v1, v2, v3);
      Some([b0, b1, b2])
    case _ => None
  }

  /** The last four characters, which may end in one or two `=`. The bits
      that padding leaves over must be zero. */
  function DecodeFinal(q: string): (r: Option<seq<Byte>>)
    requires |q| == 4
  {
    if q[2] == Pad && q[3] == Pad then
      match (ValueOf(q[0]), ValueOf(q[1]))
      case (Some(v0), Some(v1)) =>
        if v1 % 16 == 0 then Some([FromSextets(v0, v1, 0, 0).0]) else None
      case _ => None
    else if q[3] == Pad then
      match (ValueOf(q[0]), ValueOf(q[1]), ValueOf(q[2]))
      case (Some(v0), Some(v1), Some(v2)) =>
        if v2 % 4 == 0 then
          var (b0, b1, _) := FromSextets(v0, v1, v2, 0);
          Some([b0, b1])
        else None
      case _ => None
    else DecodeQuantum(q)
  }

  /** Strict decoder: None for any text the encoder cannot produce. */
  function Decode(s: string): (r: Option<seq<Byte>>)
    decreases |s|
  {
    if |s| == 0 then Some([])
    else if |s| < 4 then None
    else if |s| == 4 then DecodeFinal(s)
    else
      match DecodeQuantum(s[..4])
      case None => None
      case Some(q) =>
        match Decode(s[4..])
        case None => None
        case Some(rest) => Some(q + rest)
  }

  lemma QuantumRoundTrip(b0: Byte, b1: Byte, b2: Byte)
    ensures DecodeQuantum(EncodeQuantum(b0, b1, b2)) == Some([b0, b1, b2])
  {
    QuantumValues(b0, b1, b2);
    BytesThroughSextets(b0, b1, b2);
  }

  lemma OneByteRoundTrip(b: seq<Byte>)
    requires |b| == 1
    ensures Decode(Encode(b)) == Some(b)
  {
    BytesThroughSextets(b[0], 0, 0);
    QuantumValues(b[0], 0, 0);
    var (v0, v1, _, _) := ToSextets(b[0], 0, 0);
    var s := Encode(b);
    assert s == [CharOf(v0), CharOf(v1), Pad, Pad];
    assert Decode(s) == DecodeFinal(s);
    assert b == [b[0]];
  }

  lemma TwoByteRoundTrip(b: seq<Byte>)
    requires |b| == 2
    ensures Decode(Encode(b)) == Some(b)
  {
    BytesThroughSextets(b[0], b[1], 0);
    QuantumValues(b[0], b[1], 0);
    var (v0, v1, v2, _) := ToSextets(b[0], b[1], 0);
    var s := Encode(b);
    assert s == [CharOf(v0), CharOf(v1), CharOf(v2), Pad];
    assert Decode(s) == DecodeFinal(s);
    assert b == [b[0], b[1]];
  }

  lemma ThreeByteRoundTrip(b: seq<Byte>)
    requires |b| == 3
    ensures Decode(Encode(b)) == Some(b)
  {
    QuantumRoundTrip(b[0], b[1], b[2]);
    var q := EncodeQuantum(b[0], b[1], b[2]);
    assert b[3..] == [];
    assert Encode(b) == q + [];
    assert Decode(q) == DecodeQuantum(q);
    assert b == [b[0], b[1], b[2]];
  }

  /** Decoding a full quantum followed by more text. */
  lemma DecodeQuantumThen(q: string, rest: string, x: seq<Byte>, y: seq<Byte>)
    requires |q| == 4 && |rest| >= 4 && DecodeQuantum(q) == Some(x) && Decode(rest) == Some(y)
    ensures Decode(q + rest) == Some(x + y)
  {
    assert (q + rest)[..4] == q && (q + rest)[4..] == rest;
  }

  /** Decoding the encoding gives back the original bytes. */
  lemma {:induction false} DecodeEncode(b: seq<Byte>)
    ensures Decode(Encode(b)) == Some(b)
    decreases |b|
  {
    if |b| == 0 {
    } else if |b| == 1 {
      OneByteRoundTrip(b);
    } else if |b| == 2 {
      TwoByteRoundTrip(b);
    } else if |b| == 3 {
      ThreeByteRoundTrip(b);
    } else {
      var q, rest := EncodeQuantum(b[0], b[1], b[2]), Encode(b[3..]);
      assert Encode(b) == q + rest;
      QuantumRoundTrip(b[0], b[1], b[2]);
      DecodeEncode(b[3..]);
      DecodeQuantumThen(q, rest, [b[0], b[1], b[2]], b[3..]);
      assert b == [b[0], b[1], b[2]] + b[3..];
    }
  }

  lemma QuantumCanonical(q: string)
    requires |q| == 4 && DecodeQuantum(q).Some?
    ensures var d := DecodeQuantum(q).value;
            |d| == 3 && EncodeQuantum(d[0], d[1], d[2]) == q
  {
    ValueOfInjective(q[0]);
    ValueOfInjective(q[1]);
    ValueOfInjective(q[2]);
    ValueOfInjective(q[3]);
    SextetsThroughBytes(ValueOf(q[0]).value, ValueOf(q[1]).value, ValueOf(q[2]).value, ValueOf(q[3]).value);
  }

  lemma FinalCanonical(q: string)
    requires |q| == 4 && DecodeFinal(q).Some?
    ensures Encode(DecodeFinal(q).value) == q
  {
    if q[2] == Pad && q[3] == Pad {
      ValueOfInjective(q[0]);
      ValueOfInjective(q[1]);
      SextetsThroughBytes(ValueOf(q[0]).value, ValueOf(q[1]).value, 0, 0);
      assert q == q[..2] + [Pad, Pad];
    } else if q[3] == Pad {
      ValueOfInjective(q[0]);
      ValueOfInjective(q[1]);
      ValueOfInjective(q[2]);
      SextetsThroughBytes(ValueOf(q[0]).value, ValueOf(q[1]).value, ValueOf(q[2]).value, 0);
      assert q == q[..3] + [Pad];
    } else {
      QuantumCanonical(q);
      var d := DecodeQuantum(q).value;
      assert d[3..] == [];
      assert Encode(d) == EncodeQuantum(d[0], d[1], d[2]) + Encode(d[3..]);
    }
  }

  /** Every text the decoder accepts is the encoding of what it decodes to:
      with DecodeEncode, Decode(s) == Some(b) exactly when Encode(b) == s. */
  lemma {:induction false} EncodeDecode(s: string)
    requires Decode(s).Some?
    ensures Encode(Decode(s).value) == s
    decreases |s|
  {
    if |s| == 0 {
    } else if |s| == 4 {
      FinalCanonical(s);
    } else {
      QuantumCanonical(s[..4]);
      EncodeDecode(s[4..]);
      var d := DecodeQuantum(s[..4]).value;
      var rest := Decode(s[4..]).value;
      var b := d + rest;
      assert Decode(s).value == b;
      assert |rest| > 0;
      assert b[..3] == d && b[3..] == rest;
      assert Encode(b) == EncodeQuantum(b[0], b[1], b[2]) + Encode(b[3..]);
      assert s == s[..4] + s[4..];
    }
  }

  /** The encoding carries no line breaks (section 3.1 of RFC 4648). */
  lemma EncodeHasNoLineBreaks(b: seq<Byte>)
    ensures '\n' !in Encode(b) && '\r' !in Encode(b)
  {
    EncodeAlphabet(b);
  }

  /** The key size of the protocol: 32 bytes encode to 44 characters, 43 of
      the alphabet and one closing `=`. */
  lemma EncodeKeySize(b: seq<Byte>)
    requires |b| == 32
    ensures |Encode(b)| == 44 && Encode(b)[43] == Pad
    ensures forall i :: 0 <= i < 43 ==> InAlphabet(Encode(b)[i])
  {
    var s := Encode(b);
    assert |s| == 44;
    EncodeAlphabet(b);
    assert PadCount(|b|) == 1;
    assert PaddedBase64(s, 1);
  }

  /** The test vectors of section 10 of RFC 4648 ("f", "fo", "foo",
      "foob", "fooba", "foobar" as ASCII bytes). */
  lemma Rfc4648TestVectors()
    ensures Encode([]) == ""
    ensures Encode([102]) == "Zg=="
    ensures Encode([102, 111]) == "Zm8="
    ensures Encode([102, 111, 111]) == "Zm9v"
    ensures Encode([102, 111, 111, 98]) == "Zm9vYg=="
    ensures Encode([102, 111, 111, 98, 97]) == "Zm9vYmE="
    ensures Encode([102, 111, 111, 98, 97, 114]) == "Zm9vYmFy"
  {
    assert [102, 111, 111, 98][3..] == [98];
    assert [102, 111, 111, 98, 97][3..] == [98, 97];
    assert [102, 111, 111, 98, 97, 114][3..] == [98, 97, 114];
  }

  /** Text the encoder never produces is refused: a length that is not a
      multiple of four, non-zero bits under the padding, padding before the
      last quantum, a character outside the alphabet. */
  lemma DecodeRejects()
    ensures Decode("Zg=") == None
    ensures Decode("Zh==") == None
    ensures Decode("Zm9=") == None
    ensures Decode("Zg==Zm9v") == None
    ensures Decode("Zm9v Zg==") == None
    ensures Decode("Zm-v") == None
  {
  }

  /** A test vector of section 10 of RFC 4648, decoded. */
  lemma DecodeTestVector()
    ensures Decode("Zm9vYg==") == Some([102, 111, 111, 98])
  {
    Rfc4648TestVectors();
    DecodeEncode([102, 111, 111, 98]);
  }

  /** Encode is one-to-one: distinct byte sequences have distinct encodings. */
  lemma EncodeInjective(a: seq<Byte>, b: seq<Byte>)
    requires Encode(a) == Encode(b)
    ensures a == b
  {
    DecodeEncode(a);
    DecodeEncode(b);
  }
}
