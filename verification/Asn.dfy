/** Unsigned values in DER and the library's relaxed BER (asn.h), for a word of `k` bytes. */
module Asn {
  import opened Octets
  import opened Powers
  import opened Wrappers

  const BOOLEAN: byte := 0x01
  const INTEGER: byte := 0x02
  const ENUMERATED: byte := 0x0a

  function BigEndian(s: Bytes): nat {
    if s == [] then 0 else 256 * BigEndian(s[..|s| - 1]) + Digit(s[|s| - 1])
  }

  lemma {:induction false} BigEndianBound(s: Bytes)
    ensures BigEndian(s) < Pow256(|s|)
  {
    hide Digit;
    if s != [] {
      BigEndianBound(s[..|s| - 1]);
      DigitBound(s[|s| - 1]);
    }
  }

  /** The first octet's share of the value. */
  lemma {:induction false} BigEndianFirst(s: Bytes)
    requires s != []
    ensures BigEndian(s) == Digit(s[0]) * Pow256(|s| - 1) + BigEndian(s[1..])
  {
    hide Digit;
    if |s| == 1 {
      assert s[..0] == [] && s[1..] == [];
      assert Pow256(0) == 1;
    } else {
      var init := s[..|s| - 1];
      BigEndianFirst(init);
      assert s[1..][..|s| - 2] == init[1..];
      assert s[1..][|s| - 2] == s[|s| - 1];
      Scale(Digit(s[0]), Pow256(|s| - 2), BigEndian(init[1..]));
      assert Pow256(|s| - 1) == 256 * Pow256(|s| - 2);
    }
  }

  lemma Scale(d: nat, p: nat, v: nat)
    ensures 256 * (d * p + v) == d * (256 * p) + 256 * v
  {}

  lemma LeadingZero(s: Bytes)
    requires s != [] && s[0] == 0
    ensures BigEndian(s) == BigEndian(s[1..])
  {
    BigEndianFirst(s);
  }

  lemma LeadingNonZero(s: Bytes, k: nat)
    requires |s| > k && s[0] != 0
    ensures BigEndian(s) >= Pow256(k)
  {
    BigEndianFirst(s);
    PowMonotone(k, |s| - 1);
    HighBitIsHalf(s[0]);
    AtLeastOnce(Digit(s[0]), Pow256(|s| - 1));
  }

  lemma AtLeastOnce(d: nat, p: nat)
    requires d >= 1
    ensures d * p >= p
  {}

  lemma {:induction false} PowMonotone(j: nat, k: nat)
    requires j <= k
    ensures Pow256(j) <= Pow256(k)
    decreases k - j
  {
    if j < k {
      PowMonotone(j, k - 1);
    }
  }

  // ----- lengths (X.690, section 8.1.3) -----

  /** The shortest big-endian octets of `n`; none for zero. */
  function ShortOctets(n: nat): Bytes {
    if n == 0 then [] else ShortOctets(n / 256) + [ToByte(n % 256)]
  }

  /** The short form below 128, else the count of the octets that follow with bit 8 set. */
  function LengthOctets(n: nat): Bytes
    requires n < Pow256(8)
  {
    if n < 128 then [ToByte(n)]
    else
      ShortOctetsFit(n, 8);
      [ToByte(128 + |ShortOctets(n)|)] + ShortOctets(n)
  }

  lemma {:induction false} ShortOctetsFit(n: nat, k: nat)
    requires n < Pow256(k)
    ensures |ShortOctets(n)| <= k
  {
    hide ToByte;
    if n > 0 {
      assert Pow256(0) == 1;
      assert Pow256(k) == 256 * Pow256(k - 1);
      ShortOctetsFit(n / 256, k - 1);
    }
  }

  lemma {:induction false} ShortOctetsValue(n: nat)
    ensures BigEndian(ShortOctets(n)) == n
  {
    hide ToByte, Digit;
    if n > 0 {
      ShortOctetsValue(n / 256);
      DigitOfByte(n % 256);
      assert ShortOctets(n)[..|ShortOctets(n)| - 1] == ShortOctets(n / 256);
    }
  }

  /** A length, None for the indefinite form, and what follows it. */
  function DecodeLength(s: Bytes): Option<(Option<nat>, Bytes)> {
    if s == [] then None
    else if !HighBit(s[0]) then Some((Some(Digit(s[0])), s[1..]))
    else if s[0] == 0x80 then Some((None, s[1..]))
    else
      var count := Digit(LowSeven(s[0]));
      if |s| < 1 + count then None else Some((Some(BigEndian(s[1..1 + count])), s[1 + count..]))
  }

  lemma LengthRoundTrip(n: nat, rest: Bytes)
    requires n < Pow256(8)
    ensures DecodeLength(LengthOctets(n) + rest) == Some((Some(n), rest))
  {
    hide ToByte, Digit, HighBit, LowSeven, BigEndian, ShortOctets, Pow256;
    var s := LengthOctets(n) + rest;
    if n < 128 {
      DigitOfByte(n);
      HighBitIsHalf(ToByte(n));
      assert s[1..] == rest;
    } else {
      var octets := ShortOctets(n);
      ShortOctetsFit(n, 8);
      ShortOctetsValue(n);
      LowSevenOf(|octets|);
      NotEmpty(n);
      assert s[1..1 + |octets|] == octets && s[1 + |octets|..] == rest;
    }
  }

  lemma NotEmpty(n: nat)
    requires n > 0
    ensures ShortOctets(n) != []
  {}

  // ----- DEREncodeUnsigned -----

  /** The shortest content of a non-negative INTEGER: no superfluous leading zero, sign bit clear. */
  predicate Minimal(s: Bytes) {
    && s != [] && !HighBit(s[0])
    && (|s| > 1 ==> s[0] != 0 || HighBit(s[1]))
  }

  /** Byte `i` of `k`, most significant first. */
  function WordByte(w: nat, k: nat, i: nat): byte
    requires i < k
  {
    ToByte(w / Pow256(k - 1 - i) % 256)
  }

  function WordBytes(w: nat, k: nat): (s: Bytes)
    ensures |s| == k
  {
    seq(k, i requires 0 <= i < k => WordByte(w, k, i))
  }

  lemma {:induction false} DivPow(w: nat, j: nat)
    ensures w / 256 / Pow256(j) == w / Pow256(j + 1)
  {
    DivDiv(w, Pow256(j));
  }

  lemma DivDiv(w: nat, p: nat)
    requires p > 0
    ensures w / 256 / p == w / (256 * p)
  {
    var q, r := w / (256 * p), w % (256 * p);
    assert w == q * (256 * p) + r;
    assert q * (256 * p) == 256 * (q * p);
    assert w == 256 * (q * p) + r;
    assert w / 256 == q * p + r / 256;
    assert 0 <= r / 256 < p;
    DivExact(w / 256, p, q, r / 256);
  }

  lemma DivExact(n: nat, p: nat, q: nat, r: nat)
    requires p > 0 && r < p && n == q * p + r
    ensures n / p == q
  {
    var d := n / p;
    assert n == d * p + n % p;
    assert (d - q) * p == d * p - q * p;
    NoMultipleBetween(d - q, p);
  }

  lemma NoMultipleBetween(d: int, p: int)
    requires p > 0
    ensures -p < d * p < p ==> d == 0
  {
    assert d >= 1 ==> d * p >= p;
    assert d <= -1 ==> d * p <= -p;
  }

  lemma {:induction false} WordBytesValue(w: nat, k: nat)
    requires w < Pow256(k)
    ensures BigEndian(WordBytes(w, k)) == w
  {
    hide ToByte, Digit;
    if k > 0 {
      var s := WordBytes(w, k);
      forall i | 0 <= i < k - 1 ensures s[i] == WordByte(w / 256, k - 1, i) {
        DivPow(w, k - 2 - i);
      }
      assert s[..k - 1] == WordBytes(w / 256, k - 1);
      WordBytesValue(w / 256, k - 1);
      assert Pow256(0) == 1;
      DigitOfByte(w % 256);
    }
  }

  /** The buffer: a zero, then the word's bytes. */
  method FillBuffer(w: nat, k: nat, buf: array<byte>)
    requires w < Pow256(k) && buf.Length == k + 1
    modifies buf
    ensures buf[..] == [0] + WordBytes(w, k)
  {
    hide ToByte;
    buf[0] := 0;
    for i := 0 to k
      invariant buf[..i + 1] == [0] + WordBytes(w, k)[..i]
    {
      buf[i + 1] := WordByte(w, k, i);
    }
  }

  /** How many of the last octets of the buffer to send. */
  method ContentLength(buf: Bytes, k: nat) returns (bc: nat)
    requires 0 < k && |buf| == k + 1 && buf[0] == 0
    ensures 1 <= bc <= k + 1
    ensures BigEndian(buf[k + 1 - bc..]) == BigEndian(buf) && Minimal(buf[k + 1 - bc..])
  {
    hide HighBit, BigEndian;
    LeadingZero(buf);
    bc := k;
    while bc > 1 && buf[k + 1 - bc] == 0
      invariant 1 <= bc <= k
      invariant BigEndian(buf[k + 1 - bc..]) == BigEndian(buf)
      invariant buf[k - bc] == 0
    {
      LeadingZero(buf[k + 1 - bc..]);
      assert buf[k + 1 - bc..][1..] == buf[k + 2 - bc..];
      bc := bc - 1;
    }
    ZeroIsLow();
    if HighBit(buf[k + 1 - bc]) {
      bc := bc + 1;
      assert buf[k + 1 - bc..][1..] == buf[k + 2 - bc..];
      LeadingZero(buf[k + 1 - bc..]);
    }
  }

  lemma ZeroIsLow()
    ensures !HighBit(0)
  {}

  /** The encoding of `w`: its content octets are minimal for an INTEGER or ENUMERATED (and any
      tag but BOOLEAN), and one octet of all zeros or all ones for a BOOLEAN. */
  method DerEncodeUnsigned(w: nat, k: nat, tag: byte) returns (out: Bytes, size: nat, ghost content: Bytes)
    requires 0 < k && k + 1 < Pow256(8) && w < Pow256(k)
    ensures |content| <= k + 1 && out == [tag] + LengthOctets(|content|) + content && size == |out|
    ensures tag == 1 ==> content == [if w != 0 then 0xff else 0]
    ensures tag != 1 ==> BigEndian(content) == w && Minimal(content)
  {
    hide ToByte, HighBit, BigEndian, Minimal, Pow256, LengthOctets;
    var buf := new byte[k + 1];
    var bc: nat;
    if tag == BOOLEAN {
      buf[k] := if w != 0 then 0xff else 0;
      bc := 1;
    } else {
      bc := FillInteger(w, k, buf);
    }
    LengthFits(bc, k);
    content := buf[k + 1 - bc..];
    out := [tag] + LengthOctets(bc) + buf[k + 1 - bc..];
    size := 1 + |LengthOctets(bc)| + bc;
  }

  lemma LengthFits(bc: nat, k: nat)
    requires bc <= k + 1 < Pow256(8)
    ensures bc < Pow256(8)
  {}

  /** The branch for every tag but BOOLEAN. */
  method FillInteger(w: nat, k: nat, buf: array<byte>) returns (bc: nat)
    requires 0 < k && w < Pow256(k) && buf.Length == k + 1
    modifies buf
    ensures 1 <= bc <= k + 1
    ensures BigEndian(buf[k + 1 - bc..]) == w && Minimal(buf[k + 1 - bc..])
  {
    hide ToByte, HighBit, BigEndian, Minimal, WordBytes, Pow256;
    FillBuffer(w, k, buf);
    WordBytesValue(w, k);
    ghost var all := buf[..];
    LeadingZero(all);
    assert all[1..] == WordBytes(w, k);
    bc := ContentLength(buf[..], k);
    assert all[k + 1 - bc..] == buf[k + 1 - bc..];
  }

  /** X.690, section 8.3.2: among all contents with the sign bit clear, the minimal one is the
      shortest, and there is only one. */
  lemma {:induction false} MinimalIsShortest(s: Bytes, t: Bytes)
    requires Minimal(s) && t != [] && !HighBit(t[0]) && BigEndian(s) == BigEndian(t)
    ensures |s| <= |t|
    ensures Minimal(t) ==> s == t
    decreases |t|
  {
    hide Digit, HighBit;
    if |s| > |t| {
      TooSmall(t);
      TooLarge(s, |t|);
    }
    if |s| < |t| && Minimal(t) {
      TooSmall(s);
      TooLarge(t, |s|);
    }
    if |s| == |t| {
      EqualLengths(s, t);
    }
  }

  /** A content with the sign bit clear is below half its range. */
  lemma TooSmall(t: Bytes)
    requires t != [] && !HighBit(t[0])
    ensures BigEndian(t) < 128 * Pow256(|t| - 1)
  {
    BigEndianFirst(t);
    BigEndianBound(t[1..]);
    HighBitIsHalf(t[0]);
    AtMost(Digit(t[0]), 127, Pow256(|t| - 1));
  }

  lemma AtMost(d: nat, e: nat, p: nat)
    requires d <= e
    ensures d * p <= e * p
  {}

  /** A minimal content of more than `n` octets does not fit `n` with the sign bit clear. */
  lemma TooLarge(s: Bytes, n: nat)
    requires Minimal(s) && |s| > n > 0
    ensures BigEndian(s) >= 128 * Pow256(n - 1)
  {
    hide Digit, HighBit;
    BigEndianFirst(s);
    HighBitIsHalf(s[0]);
    HighBitIsHalf(s[1]);
    PowMonotone(n - 1, |s| - 2);
    var p := Pow256(|s| - 2);
    assert Pow256(|s| - 1) == 256 * p;
    if s[0] == 0 {
      BigEndianFirst(s[1..]);
      AtMost(128, Digit(s[1]), p);
    } else {
      AtMost(1, Digit(s[0]), Pow256(|s| - 1));
    }
  }

  lemma {:induction false} EqualLengths(s: Bytes, t: Bytes)
    requires |s| == |t| && BigEndian(s) == BigEndian(t)
    ensures s == t
  {
    hide Digit;
    if s != [] {
      var n := |s| - 1;
      DigitBound(s[n]);
      DigitBound(t[n]);
      EqualLengths(s[..n], t[..n]);
      DigitsDetermine(s[n], t[n]);
      assert s == s[..n] + [s[n]] && t == t[..n] + [t[n]];
    }
  }

  // ----- BERDecodeUnsigned -----

  /** The content of the first element, when it has the tag, a definite length that the input
      covers, and a number of octets the tag allows. */
  function Content(s: Bytes, tag: byte): Option<(Bytes, Bytes)> {
    if s == [] || s[0] != tag then None
    else
      match DecodeLength(s[1..])
      case None => None
      case Some((None, _)) => None
      case Some((Some(bc), rest)) =>
        if bc > |rest| || (tag == BOOLEAN && bc != 1) || ((tag == INTEGER || tag == ENUMERATED) && bc == 0) then None
        else Some((rest[..bc], rest[bc..]))
  }

  /** The value and what follows it. Acceptance is a matter of the value alone, whatever its
      leading zeros: it must fit the word and the range. */
  function Value(input: Bytes, k: nat, tag: byte, minValue: nat, maxValue: nat): Option<(nat, Bytes)> {
    match Content(input, tag)
    case None => None
    case Some((content, rest)) =>
      if BigEndian(content) < Pow256(k) && minValue <= BigEndian(content) <= maxValue
      then Some((BigEndian(content), rest))
      else None
  }

  method BerDecodeUnsigned(input: Bytes, k: nat, tag: byte, minValue: nat, maxValue: nat) returns (r: Option<(nat,
                           Bytes)>)
    requires 0 < k
    ensures r == Value(input, k, tag, minValue, maxValue)
  {
    hide Digit, HighBit, DecodeLength;
    if input == [] || input[0] != tag {
      return None;
    }
    var length := DecodeLength(input[1..]);
    if length.None? || length.value.0.None? {
      return None;
    }
    var bc, rest := length.value.0.value, length.value.1;
    if bc > |rest| || (tag == BOOLEAN && bc != 1) || ((tag == INTEGER || tag == ENUMERATED) && bc == 0) {
      return None;
    }
    var buf := rest[..bc];
    ghost var content := buf;
    var ptr := 0;
    assert buf[0..] == buf;
    while bc > k && buf[ptr] == 0
      invariant ptr + bc == |buf|
      invariant BigEndian(buf[ptr..]) == BigEndian(content)
    {
      LeadingZero(buf[ptr..]);
      assert buf[ptr..][1..] == buf[ptr + 1..];
      bc, ptr := bc - 1, ptr + 1;
    }
    var digits := buf[ptr..];
    if bc > k {
      LeadingNonZero(digits, k);
      return None;
    }
    BigEndianBound(digits);
    PowMonotone(bc, k);
    var w: nat := 0;
    for i := 0 to bc
      invariant w == BigEndian(digits[..i])
    {
      assert digits[..i + 1][..i] == digits[..i];
      w := w * 256 + Digit(digits[i]);
    }
    assert digits[..bc] == digits;
    if w < minValue || w > maxValue {
      return None;
    }
    r := Some((w, rest[|buf|..]));
  }

  lemma ContentOfEncoding(tag: byte, content: Bytes, rest: Bytes)
    requires 0 < |content| < Pow256(8) && (tag == BOOLEAN ==> |content| == 1)
    ensures Content([tag] + LengthOctets(|content|) + content + rest, tag) == Some((content, rest))
  {
    hide LengthOctets, DecodeLength, Pow256;
    var s := [tag] + LengthOctets(|content|) + content + rest;
    assert s[1..] == LengthOctets(|content|) + (content + rest);
    LengthRoundTrip(|content|, content + rest);
    assert (content + rest)[..|content|] == content && (content + rest)[|content|..] == rest;
  }

  lemma BooleanOctets(content: Bytes)
    requires content == [0xff] || content == [0]
    ensures BigEndian(content) == if content == [0xff] then 255 else 0
  {
    assert content[..0] == [];
  }

  lemma OneOctetFits(k: nat)
    requires k > 0
    ensures 255 < Pow256(k)
  {
    PowMonotone(1, k);
    assert Pow256(0) == 1;
  }

  /** Decoding what was encoded, at any width and whatever follows: the value comes back exactly
      when it is in the range and, for a BOOLEAN, was 0 or 255 to begin with. */
  lemma DecodeEncoded(w: nat, k: nat, tag: byte, content: Bytes, minValue: nat, maxValue: nat, rest: Bytes)
    requires 0 < k && w < Pow256(k) && 0 < |content| < Pow256(8)
    requires tag == BOOLEAN ==> content == [if w != 0 then 0xff else 0]
    requires tag != BOOLEAN ==> BigEndian(content) == w && Minimal(content)
    ensures Value([tag] + LengthOctets(|content|) + content + rest, k, tag, minValue, maxValue) == Some((w, rest))
       <==> minValue <= w <= maxValue && (tag == BOOLEAN ==> w == 0 || w == 255)
  {
    hide LengthOctets, Content, BigEndian, Minimal, Pow256;
    ContentOfEncoding(tag, content, rest);
    if tag == BOOLEAN {
      BooleanOctets(content);
      OneOctetFits(k);
    }
  }

  // ----- the forms, octet by octet -----

  /** X.690, section 8.1.3: one octet below 128, else a count with bit 8 set and the shortest
      big-endian octets. */
  lemma LengthForms(n: nat)
    requires n < Pow256(8)
    ensures n < 128 ==> |LengthOctets(n)| == 1 && Digit(LengthOctets(n)[0]) == n
    ensures n >= 128 ==>
      var s := LengthOctets(n);
      |s| >= 2 && Digit(s[0]) == 128 + (|s| - 1) && s[1] != 0 && BigEndian(s[1..]) == n
  {
    hide Digit, ToByte, BigEndian, ShortOctets, Pow256;
    if n < 128 {
      DigitOfByte(n);
    } else {
      ShortOctetsFit(n, 8);
      ShortOctetsValue(n);
      FirstOctet(n);
      DigitOfByte(128 + |ShortOctets(n)|);
      assert LengthOctets(n)[1..] == ShortOctets(n);
    }
  }

  lemma {:induction false} FirstOctet(n: nat)
    requires n > 0
    ensures ShortOctets(n) != [] && ShortOctets(n)[0] != 0
  {
    hide ToByte, Digit;
    DigitOfByte(n % 256);
    HighBitIsHalf(ToByte(n % 256));
    if n >= 256 {
      FirstOctet(n / 256);
    }
  }

  /** Any content is accepted for its value, leading zeros or not: one octet for a BOOLEAN (tag 1), at
      least one for an INTEGER or ENUMERATED (2 and 10), and the value in the word and the range. */
  lemma ContentAccepted(tag: byte, content: Bytes, rest: Bytes, k: nat, minValue: nat, maxValue: nat)
    requires |content| < Pow256(8)
    ensures Value([tag] + LengthOctets(|content|) + content + rest, k, tag, minValue, maxValue)
      == if (tag == 1 ==> |content| == 1) && (tag == 2 || tag == 10 ==> |content| >= 1)
            && BigEndian(content) < Pow256(k) && minValue <= BigEndian(content) <= maxValue
         then Some((BigEndian(content), rest)) else None
  {
    hide LengthOctets, DecodeLength, Pow256, BigEndian;
    var s := [tag] + LengthOctets(|content|) + content + rest;
    assert s[1..] == LengthOctets(|content|) + (content + rest);
    LengthRoundTrip(|content|, content + rest);
    assert (content + rest)[..|content|] == content && (content + rest)[|content|..] == rest;
  }

  /** Nothing, another tag, no length, the indefinite length, a length cut short and a content cut
      short are all refused. */
  lemma Malformed(s: Bytes, k: nat, tag: byte, minValue: nat, maxValue: nat)
    requires s == [] || s[0] != tag || |s| == 1 || s[1] == 0x80
      || (Digit(s[1]) < 128 && |s| < 2 + Digit(s[1]))
      || (Digit(s[1]) > 128 && |s| < 2 + (Digit(s[1]) - 128))
    ensures Value(s, k, tag, minValue, maxValue) == None
  {
    hide BigEndian, Pow256, Digit, HighBit, LowSeven;
    if s != [] && s[0] == tag && |s| > 1 {
      var d := s[1..];
      HighBitIsHalf(d[0]);
      if Digit(d[0]) >= 128 {
        LowPart(d[0]);
      }
      if d[0] != 0x80 && Digit(d[0]) < 128 {
        assert DecodeLength(d) == Some((Some(Digit(d[0])), d[1..]));
      } else if d[0] != 0x80 {
        assert DecodeLength(d) == None;
      } else {
        Indefinite();
        assert DecodeLength(d) == Some((None, d[1..]));
      }
    }
  }

  lemma Indefinite()
    ensures HighBit(0x80)
  {}

  lemma LowPart(b: byte)
    requires Digit(b) >= 128
    ensures Digit(LowSeven(b)) == Digit(b) - 128
  {
    HighBitIsHalf(b);
    HighBitClears(b);
  }

  /** Most significant octet first. */
  lemma TwoOctets(a: byte, b: byte)
    ensures BigEndian([a, b]) == 256 * Digit(a) + Digit(b)
    ensures WordBytes(256 * Digit(a) + Digit(b), 2) == [a, b]
  {
    hide Digit, WordBytes;
    assert [a, b][..1] == [a] && [a][..0] == [];
    assert Pow256(0) == 1 && Pow256(1) == 256;
    BigEndianBound([a, b]);
    WordBytesValue(256 * Digit(a) + Digit(b), 2);
    EqualLengths(WordBytes(256 * Digit(a) + Digit(b), 2), [a, b]);
  }
}
