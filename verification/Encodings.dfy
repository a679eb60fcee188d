/** The client's text encodings (StringWrapper.cpp, base64.h): Base64 of RFC 4648, section 4, hex,
    and the trimming of white space. A C++ string is a sequence of bytes. */
module Encodings {
  import opened Octets
  import opened Wrappers

  type Text = seq<byte>

  const NEWLINE: byte := 10
  const PAD: byte := 61
  const MAX_LINE := 72

  // ----- Base64: bytes to groups of six bits and back -----

  type Octet = d: nat | d < 256
  type Sextet = v: nat | v < 64

  function First(a: Octet): Sextet { a / 4 }
  function Second(a: Octet, b: Octet): Sextet { a % 4 * 16 + b / 16 }
  function Third(b: Octet, c: Octet): Sextet { b % 16 * 4 + c / 64 }
  function Fourth(c: Octet): Sextet { c % 64 }

  function Sextets(s: Text): seq<Sextet> {
    if s == [] then []
    else
      DigitBounds(s);
      var a: Octet := Digit(s[0]);
      if |s| == 1 then [First(a), Second(a, 0)]
      else
        var b: Octet := Digit(s[1]);
        if |s| == 2 then [First(a), Second(a, b), Third(b, 0)]
        else
          var c: Octet := Digit(s[2]);
          [First(a), Second(a, b), Third(b, c), Fourth(c)] + Sextets(s[3..])
  }

  lemma DigitBounds(s: Text)
    ensures forall i :: 0 <= i < |s| ==> Digit(s[i]) < 256
  {
    forall i | 0 <= i < |s| ensures Digit(s[i]) < 256 {
      DigitBound(s[i]);
    }
  }

  function Front(v: Sextet, w: Sextet): byte { ToByte(v * 4 + w / 16) }
  function Middle(v: Sextet, w: Sextet): byte { ToByte(v % 16 * 16 + w / 4) }
  function Back(v: Sextet, w: Sextet): byte { ToByte(v % 4 * 64 + w) }

  /** Left-over bits that do not fill a byte are dropped. */
  function Assemble(v: seq<Sextet>): Text {
    if |v| < 2 then []
    else if |v| == 2 then [Front(v[0], v[1])]
    else if |v| == 3 then [Front(v[0], v[1]), Middle(v[1], v[2])]
    else [Front(v[0], v[1]), Middle(v[1], v[2]), Back(v[2], v[3])] + Assemble(v[4..])
  }

  lemma {:induction false} AssembleSextets(s: Text)
    ensures Assemble(Sextets(s)) == s
  {
    hide Digit, First, Second, Third, Fourth, Front, Middle, Back;
    DigitBounds(s);
    if |s| >= 3 {
      AssembleSextets(s[3..]);
      var v := Sextets(s);
      assert v[4..] == Sextets(s[3..]);
      ThreeBytes(s[0], s[1], s[2]);
      assert s == [s[0], s[1], s[2]] + s[3..];
    } else if |s| == 2 {
      ThreeBytes(s[0], s[1], 0);
      ZeroDigit();
    } else if |s| == 1 {
      ThreeBytes(s[0], 0, 0);
      ZeroDigit();
    }
  }

  lemma ZeroDigit()
    ensures Digit(0) == 0
  {}

  lemma ThreeBytes(x: byte, y: byte, z: byte)
    ensures Digit(x) < 256 && Digit(y) < 256 && Digit(z) < 256
    ensures Front(First(Digit(x)), Second(Digit(x), Digit(y))) == x
    ensures Middle(Second(Digit(x), Digit(y)), Third(Digit(y), Digit(z))) == y
    ensures Back(Third(Digit(y), Digit(z)), Fourth(Digit(z))) == z
  {
    hide Digit, First, Second, Third, Fourth, Front, Middle, Back;
    DigitBound(x);
    DigitBound(y);
    DigitBound(z);
    var a: Octet, b: Octet, c: Octet := Digit(x), Digit(y), Digit(z);
    Three(a, b, c);
    ByteOf(x, First(a), Second(a, b));
    ByteOf(y, Second(a, b), Third(b, c));
    ByteOf(z, Third(b, c), Fourth(c));
  }

  /** The byte whose number two neighbouring sextets make up in one of the three ways. */
  lemma ByteOf(x: byte, v: Sextet, w: Sextet)
    ensures v * 4 + w / 16 == Digit(x) ==> Front(v, w) == x
    ensures v % 16 * 16 + w / 4 == Digit(x) ==> Middle(v, w) == x
    ensures v % 4 * 64 + w == Digit(x) ==> Back(v, w) == x
  {
    hide Digit, ToByte;
    ByteOfDigit(x);
  }

  lemma Three(a: Octet, b: Octet, c: Octet)
    ensures First(a) * 4 + Second(a, b) / 16 == a
    ensures Second(a, b) % 16 * 16 + Third(b, c) / 4 == b
    ensures Third(b, c) % 4 * 64 + Fourth(c) == c
  {}

  // ----- Base64: the alphabet -----

  function LetterCode(v: Sextet): (d: nat)
    ensures d < 128
  {
    if v < 26 then 65 + v else if v < 52 then 71 + v else if v < 62 then v - 4 else if v == 62 then 43 else 47
  }

  function Letter(v: Sextet): byte
  {
    ToByte(LetterCode(v))
  }

  function CodeValue(d: nat): Option<Sextet>
  {
    if 65 <= d <= 90 then Some(d - 65)
    else if 97 <= d <= 122 then Some(d - 71)
    else if 48 <= d <= 57 then Some(d + 4)
    else if d == 43 then Some(62)
    else if d == 47 then Some(63)
    else None
  }

  function LetterValue(c: byte): Option<Sextet>
  {
    CodeValue(Digit(c))
  }

  lemma LetterRoundTrip(v: Sextet)
    ensures LetterValue(Letter(v)) == Some(v) && !IsSpace(Letter(v))
  {
    hide Digit, ToByte, IsSpace;
    DigitOfByte(LetterCode(v));
    SpaceIsNoLetter(Letter(v));
  }

  lemma OtherCharacters()
    ensures LetterValue(NEWLINE) == None && LetterValue(PAD) == None
    ensures IsSpace(NEWLINE) && !IsSpace(PAD)
  {}

  function Letters(v: seq<Sextet>): (t: Text)
    ensures |t| == |v|
  {
    seq(|v|, i requires 0 <= i < |v| => Letter(v[i]))
  }

  /** The value of a letter; anything else is skipped. */
  function ValueOrSkip(c: byte): seq<Sextet>
  {
    if LetterValue(c).Some? then [LetterValue(c).value] else []
  }

  function Values(t: Text): seq<Sextet>
  {
    if t == [] then [] else ValueOrSkip(t[0]) + Values(t[1..])
  }

  lemma {:induction false} ValuesAppend(t: Text, u: Text)
    ensures Values(t + u) == Values(t) + Values(u)
  {
    hide ValueOrSkip;
    if t == [] {
      assert t + u == u;
    } else {
      ValuesAppend(t[1..], u);
      assert (t + u)[1..] == t[1..] + u;
      assert Values(t + u) == ValueOrSkip(t[0]) + (Values(t[1..]) + Values(u));
    }
  }

  lemma {:induction false} ValuesOfLetters(v: seq<Sextet>)
    ensures Values(Letters(v)) == v
  {
    hide LetterValue, Letter;
    if v != [] {
      LetterRoundTrip(v[0]);
      assert Letters(v)[1..] == Letters(v[1..]);
      ValuesOfLetters(v[1..]);
      assert v == [v[0]] + v[1..];
    }
  }

  lemma {:induction false} NoValues(t: Text)
    requires forall i :: 0 <= i < |t| ==> LetterValue(t[i]) == None
    ensures Values(t) == []
  {
    if t != [] {
      NoValues(t[1..]);
    }
  }

  // ----- Base64: encode and decode -----

  function Padding(n: nat): Text {
    if n % 3 == 1 then [PAD, PAD] else if n % 3 == 2 then [PAD] else []
  }

  /** One line: letters and padding. */
  function Unbroken(s: Text): Text {
    Letters(Sextets(s)) + Padding(|s|)
  }

  /** Lines of at most 72, each with its newline. */
  function Broken(t: Text): Text {
    if |t| <= MAX_LINE then t + [NEWLINE] else t[..MAX_LINE] + [NEWLINE] + Broken(t[MAX_LINE..])
  }

  function Encode(s: Text): Text { Broken(Unbroken(s)) }

  function Decode(t: Text): Text { Assemble(Values(t)) }

  lemma {:induction false} ValuesOfBroken(t: Text)
    ensures Values(Broken(t)) == Values(t)
  {
    hide LetterValue;
    OtherCharacters();
    NoValues([NEWLINE]);
    if |t| <= MAX_LINE {
      ValuesAppend(t, [NEWLINE]);
    } else {
      var head, tail := t[..MAX_LINE], t[MAX_LINE..];
      ValuesOfBroken(tail);
      ValuesAppend(head, [NEWLINE]);
      ValuesAppend(head + [NEWLINE], Broken(tail));
      ValuesAppend(head, tail);
      assert t == head + tail;
    }
  }

  lemma ValuesOfUnbroken(s: Text)
    ensures Values(Unbroken(s)) == Sextets(s)
  {
    hide LetterValue, Sextets, Values, Letters;
    OtherCharacters();
    NoValues(Padding(|s|));
    ValuesOfLetters(Sextets(s));
    ValuesAppend(Letters(Sextets(s)), Padding(|s|));
  }

  /** White space around an encoding makes no difference to its decoding. */
  lemma DecodeEncode(s: Text, before: Text, after: Text)
    requires AllSpace(before) && AllSpace(after)
    ensures Decode(Trim(before + Encode(s) + after)) == s
    ensures Decode(Trim(before + Unbroken(s) + after)) == s
  {
    hide Assemble, Values, Sextets, Trim, Unbroken, Broken, AllSpace;
    SpaceHasNoValues(before);
    SpaceHasNoValues(after);
    ValuesOfUnbroken(s);
    ValuesOfBroken(Unbroken(s));
    AssembleSextets(s);
    Around(before, Encode(s), after);
    Around(before, Unbroken(s), after);
  }

  lemma Around(before: Text, t: Text, after: Text)
    requires Values(before) == [] && Values(after) == []
    ensures Values(Trim(before + t + after)) == Values(t)
  {
    hide Trim, LetterValue;
    ValuesAppend(before + t, after);
    ValuesAppend(before, t);
    ValuesOfTrim(before + t + after);
  }

  lemma {:induction false} SextetCount(s: Text)
    ensures |Sextets(s)| + |Padding(|s|)| == (|s| + 2) / 3 * 4
  {
    hide Sextets, Padding;
    SextetStep(s);
    CountStep(|s|);
    if |s| >= 3 {
      SextetCount(s[3..]);
    }
  }

  lemma CountStep(n: nat)
    ensures n >= 3 ==> (n + 2) / 3 * 4 == (n - 3 + 2) / 3 * 4 + 4 && Padding(n) == Padding(n - 3)
    ensures 0 < n < 3 ==> (n + 2) / 3 * 4 == 4 && |Padding(n)| == 3 - n
    ensures n == 0 ==> (n + 2) / 3 * 4 == 0 && Padding(n) == []
  {}

  lemma SextetStep(s: Text)
    ensures |Sextets(s)| == if s == [] then 0 else if |s| < 3 then |s| + 1 else 4 + |Sextets(s[3..])|
  {
    hide Digit, First, Second, Third, Fourth;
  }

  lemma UnbrokenHasNoSpace(s: Text)
    ensures NoSpace(Unbroken(s))
  {
    hide Letter, IsSpace, Sextets;
    OtherCharacters();
    var v := Sextets(s);
    forall i | 0 <= i < |v| ensures !IsSpace(Letters(v)[i]) {
      LetterRoundTrip(v[i]);
    }
  }

  // ----- hex -----

  /** boost::algorithm::hex writes upper case. */
  function HexCode(v: nat): (d: nat)
    requires v < 16
    ensures d < 128
  {
    if v < 10 then 48 + v else 55 + v
  }

  function HexLetter(v: nat): byte
    requires v < 16
  {
    ToByte(HexCode(v))
  }

  function HexValue(d: nat): (v: Option<nat>)
    ensures v.Some? ==> v.value < 16
  {
    if 48 <= d <= 57 then Some(d - 48)
    else if 65 <= d <= 70 then Some(d - 55)
    else if 97 <= d <= 102 then Some(d - 87)
    else None
  }

  function Hex(s: Text): (t: Text)
    ensures |t| == 2 * |s|
  {
    if s == [] then []
    else
      DigitBound(s[0]);
      [HexLetter(Digit(s[0]) / 16), HexLetter(Digit(s[0]) % 16)] + Hex(s[1..])
  }

  /** None for an odd length or another character, where the library throws. */
  function UnhexAll(t: Text): Option<Text> {
    if t == [] then Some([])
    else if |t| == 1 then None
    else
      match (HexValue(Digit(t[0])), HexValue(Digit(t[1])), UnhexAll(t[2..]))
      case (Some(a), Some(b), Some(rest)) => Some([ToByte(a * 16 + b)] + rest)
      case _ => None
  }

  /** The empty string on failure. */
  function Unhex(t: Text): Text { if UnhexAll(t).Some? then UnhexAll(t).value else [] }

  lemma HexLetterValue(v: nat)
    requires v < 16
    ensures HexValue(Digit(HexLetter(v))) == Some(v)
  {
    hide Digit, ToByte;
    DigitOfByte(HexCode(v));
  }

  lemma TwoHexDigits(b: byte)
    ensures Digit(b) < 256 && ToByte(Digit(b) / 16 * 16 + Digit(b) % 16) == b
  {
    hide Digit, ToByte;
    ByteOfDigit(b);
  }

  lemma {:induction false} UnhexHex(s: Text)
    ensures UnhexAll(Hex(s)) == Some(s)
  {
    hide Digit, ToByte, HexLetter, HexValue;
    if s != [] {
      TwoHexDigits(s[0]);
      HexLetterValue(Digit(s[0]) / 16);
      HexLetterValue(Digit(s[0]) % 16);
      UnhexHex(s[1..]);
      assert Hex(s)[2..] == Hex(s[1..]);
      assert s == [s[0]] + s[1..];
    }
  }

  // ----- boost::algorithm::trim -----

  predicate IsSpace(c: byte) { c == 32 || 9 <= c <= 13 }

  predicate AllSpace(t: Text) { forall i :: 0 <= i < |t| ==> IsSpace(t[i]) }

  predicate NoSpace(t: Text) { forall i :: 0 <= i < |t| ==> !IsSpace(t[i]) }

  function TrimLeft(t: Text): Text {
    if t != [] && IsSpace(t[0]) then TrimLeft(t[1..]) else t
  }

  function TrimRight(t: Text): Text {
    if t != [] && IsSpace(t[|t| - 1]) then TrimRight(t[..|t| - 1]) else t
  }

  function Trim(t: Text): Text { TrimRight(TrimLeft(t)) }

  lemma SpaceIsNoLetter(c: byte)
    ensures IsSpace(c) ==> LetterValue(c) == None
  {}

  lemma SpaceHasNoValues(t: Text)
    requires AllSpace(t)
    ensures Values(t) == []
  {
    hide LetterValue, IsSpace;
    forall i | 0 <= i < |t| ensures LetterValue(t[i]) == None {
      SpaceIsNoLetter(t[i]);
    }
    NoValues(t);
  }

  lemma {:induction false} ValuesOfTrimLeft(t: Text)
    ensures Values(TrimLeft(t)) == Values(t)
  {
    hide LetterValue, IsSpace;
    if t != [] && IsSpace(t[0]) {
      SpaceIsNoLetter(t[0]);
      ValuesOfTrimLeft(t[1..]);
    }
  }

  lemma {:induction false} ValuesOfTrimRight(t: Text)
    ensures Values(TrimRight(t)) == Values(t)
  {
    hide LetterValue, IsSpace, Values;
    if t != [] && IsSpace(t[|t| - 1]) {
      var init, last := t[..|t| - 1], t[|t| - 1];
      SpaceIsNoLetter(last);
      NoValues([last]);
      ValuesOfTrimRight(init);
      ValuesAppend(init, [last]);
      assert t == init + [last];
    }
  }

  lemma ValuesOfTrim(t: Text)
    ensures Values(Trim(t)) == Values(t)
  {
    hide Values, TrimLeft, TrimRight;
    ValuesOfTrimLeft(t);
    ValuesOfTrimRight(TrimLeft(t));
  }

  /** Trimming is settled after one pass. */
  lemma {:induction false} TrimEnds(t: Text)
    ensures Trim(t) != [] ==> !IsSpace(Trim(t)[0]) && !IsSpace(Trim(t)[|Trim(t)| - 1])
    ensures Trim(Trim(t)) == Trim(t)
  {
    hide IsSpace;
    TrimLeftEnd(t);
    TrimRightEnds(TrimLeft(t));
  }

  lemma {:induction false} TrimLeftEnd(t: Text)
    ensures TrimLeft(t) != [] ==> !IsSpace(TrimLeft(t)[0])
  {
    if t != [] && IsSpace(t[0]) {
      TrimLeftEnd(t[1..]);
    }
  }

  lemma {:induction false} TrimRightEnds(t: Text)
    ensures var u := TrimRight(t); |u| <= |t| && u == t[..|u|] && (u != [] ==> !IsSpace(u[|u| - 1]))
  {
    if t != [] && IsSpace(t[|t| - 1]) {
      TrimRightEnds(t[..|t| - 1]);
    }
  }

  // ----- the encodings, character by character -----

  /** RFC 4648, table 1. */
  lemma Alphabet(v: Sextet)
    ensures Digit(Letter(v)) ==
      if v < 26 then 'A' as int + v
      else if v < 52 then 'a' as int + (v - 26)
      else if v < 62 then '0' as int + (v - 52)
      else if v == 62 then '+' as int
      else '/' as int
  {
    hide Digit, ToByte;
    DigitOfByte(LetterCode(v));
  }

  lemma LetterIs(v: Sextet, c: byte)
    requires Digit(c) == LetterCode(v)
    ensures Letter(v) == c
  {
    hide Digit, ToByte;
    DigitOfByte(LetterCode(v));
    DigitsDetermine(Letter(v), c);
  }

  /** RFC 4648, section 10: "foobar" is "Zm9vYmFy", "fo" is "Zm8=", "f" is "Zg==". */
  lemma TestVectors()
    ensures Unbroken([102, 111, 111, 98, 97, 114]) == [90, 109, 57, 118, 89, 109, 70, 121]
    ensures Unbroken([102, 111]) == [90, 109, 56, 61]
    ensures Unbroken([102]) == [90, 103, 61, 61]
  {
    TestSextets();
    TestLetters();
    hide Letter, Sextets;
  }

  lemma TestSextets()
    ensures Sextets([102, 111, 111, 98, 97, 114]) == [25, 38, 61, 47, 24, 38, 5, 50]
    ensures Sextets([102, 111]) == [25, 38, 60] && Sextets([102]) == [25, 32]
  {
    var s: Text := [102, 111, 111, 98, 97, 114];
    assert s[3..] == [98, 97, 114] && [98 as byte, 97, 114][3..] == [];
  }

  lemma TestLetters()
    ensures Letter(25) == 90 && Letter(38) == 109 && Letter(61) == 57 && Letter(47) == 118 && Letter(24) == 89
    ensures Letter(5) == 70 && Letter(50) == 121 && Letter(60) == 56 && Letter(32) == 103
  {
    hide Letter;
    LetterIs(25, 90);
    LetterIs(38, 109);
    LetterIs(61, 57);
    LetterIs(47, 118);
    LetterIs(24, 89);
    LetterIs(5, 70);
    LetterIs(50, 121);
    LetterIs(60, 56);
    LetterIs(32, 103);
  }

  /** Every 72 letters a newline, and one at the end. */
  lemma LineBreaks(t: Text)
    ensures |t| <= 72 ==> Broken(t) == t + [10]
    ensures |t| > 72 ==> Broken(t)[..73] == t[..72] + [10] && Broken(t)[73..] == Broken(t[72..])
  {}

  lemma HexLetterIs(v: nat)
    requires v < 16
    ensures Digit(HexLetter(v)) == if v < 10 then 48 + v else 55 + v
  {
    hide Digit, ToByte;
    DigitOfByte(HexCode(v));
  }

  /** The number of a hex digit as a character: '0' to '9', 'A' to 'F'. */
  lemma {:induction false} HexDigits(s: Text, k: nat)
    requires k < |s|
    ensures var d, t := Digit(s[k]), Hex(s);
      && Digit(t[2 * k]) == (if d / 16 < 10 then 48 + d / 16 else 55 + d / 16)
      && Digit(t[2 * k + 1]) == (if d % 16 < 10 then 48 + d % 16 else 55 + d % 16)
    decreases k
  {
    hide Digit, ToByte, HexLetter;
    DigitBound(s[k]);
    DigitBound(s[0]);
    if k == 0 {
      HexLetterIs(Digit(s[0]) / 16);
      HexLetterIs(Digit(s[0]) % 16);
    } else {
      HexDigits(s[1..], k - 1);
      assert Hex(s)[2..] == Hex(s[1..]);
    }
  }

  /** Both cases of a hex digit are read, and no other character. */
  lemma HexReads(d: nat)
    ensures HexValue(d).Some? <==> 48 <= d <= 57 || 65 <= d <= 70 || 97 <= d <= 102
    ensures 65 <= d <= 70 ==> HexValue(d + 32) == HexValue(d)
  {}

  /** Tabs, newlines, feeds, returns and blanks. */
  predicate Blank(t: Text) { forall c :: c in t ==> c == 32 || 9 <= c <= 13 }

  /** Trimming takes the white space off both ends and nothing else. */
  lemma TrimStrips(before: Text, t: Text, after: Text)
    requires Blank(before) && Blank(after)
    requires t != [] ==> !Blank(t[..1]) && !Blank(t[|t| - 1..])
    ensures Trim(before + t + after) == t
  {
    TrimLeftStrips(before, t + after);
    assert before + (t + after) == before + t + after;
    if t == [] {
      assert t + after == after;
      TrimLeftStrips(after, []);
      assert after + [] == after;
    } else {
      assert t[0] in t[..1] && t[|t| - 1] in t[|t| - 1..];
      assert !IsSpace(t[0]) by { FirstNotBlank(t); }
      assert TrimLeft(t + after) == t + after;
      LastNotBlank(t);
      TrimRightStrips(t, after);
    }
  }

  lemma FirstNotBlank(t: Text)
    requires t != [] && !Blank(t[..1])
    ensures !IsSpace(t[0])
  {
    var first := t[..1];
    assert forall c :: c in first ==> c == t[0];
  }

  lemma LastNotBlank(t: Text)
    requires t != [] && !Blank(t[|t| - 1..])
    ensures !IsSpace(t[|t| - 1])
  {
    var last := t[|t| - 1..];
    assert forall c :: c in last ==> c == t[|t| - 1];
  }

  lemma {:induction false} TrimLeftStrips(before: Text, t: Text)
    requires Blank(before)
    ensures TrimLeft(before + t) == TrimLeft(t)
  {
    if before == [] {
      assert before + t == t;
    } else {
      assert before[0] in before && (forall c :: c in before[1..] ==> c in before);
      TrimLeftStrips(before[1..], t);
      assert (before + t)[1..] == before[1..] + t;
    }
  }

  lemma {:induction false} TrimRightStrips(t: Text, after: Text)
    requires Blank(after) && t != [] && !IsSpace(t[|t| - 1])
    ensures TrimRight(t + after) == t
    decreases |after|
  {
    if after == [] {
      assert t + after == t;
    } else {
      var init := after[..|after| - 1];
      assert after[|after| - 1] in after && (forall c :: c in init ==> c in after);
      TrimRightStrips(t, init);
      assert (t + after)[..|t + after| - 1] == t + init;
    }
  }
}
