/** Challenge tokens and field encodings of zkauthn/hash.go: unpadded base64url (RFC 4648, section 5) of 31 bytes,
  * and big-endian field elements of 32. */
module Tokens {
  import opened Hashing
  import opened Encoding
  import Circuit

  const SECRET_SIZE: nat := 31

  const ENTROPY_ATTEMPTS: nat := 3

  // ---------------------------------------------------------------- base64url

  function Letter(n: nat): char
    requires n < 64
  {
    if n < 26 then 'A' + n as char
    else if n < 52 then 'a' + (n - 26) as char
    else if n < 62 then '0' + (n - 52) as char
    else if n == 62 then '-' else '_'
  }

  function Value(c: char): (n: Option<nat>)
    ensures n.Some? ==> n.value < 64
  {
    if 'A' <= c <= 'Z' then Some(c as int - 'A' as int)
    else if 'a' <= c <= 'z' then Some(c as int - 'a' as int + 26)
    else if '0' <= c <= '9' then Some(c as int - '0' as int + 52)
    else if c == '-' then Some(62)
    else if c == '_' then Some(63)
    else None
  }

  lemma LetterValue(n: nat)
    requires n < 64
    ensures Value(Letter(n)) == Some(n)
    ensures Letter(n) != '\n' && Letter(n) != '\r'
  {
  }

  lemma ValueLetter(c: char)
    requires Value(c).Some?
    ensures Letter(Value(c).value) == c
  {
  }

  /** The alphabet is that of table 2 of RFC 4648, and no other character has a value. */
  lemma LettersAreTheAlphabet(n: nat)
    requires n < 64
    ensures n < 26 ==> Letter(n) == "ABCDEFGHIJKLMNOPQRSTUVWXYZ"[n]
    ensures 26 <= n < 52 ==> Letter(n) == "abcdefghijklmnopqrstuvwxyz"[n - 26]
    ensures 52 <= n < 62 ==> Letter(n) == "0123456789"[n - 52]
    ensures n == 62 ==> Letter(n) == '-'
    ensures n == 63 ==> Letter(n) == '_'
  {
  }

  lemma ValuesAreOfTheAlphabet(c: char)
    ensures Value(c).Some? <==> exists n: nat :: n < 64 && Letter(n) == c
    ensures Value(c).Some? ==> Letter(Value(c).value) == c
  {
    hide Letter, Value;
    if Value(c).Some? {
      ValueLetter(c);
    }
    if n: nat :| n < 64 && Letter(n) == c {
      LetterValue(n);
    }
  }

  /** The letters of a full group of three bytes. */
  function FourLetters(b0: Byte, b1: Byte, b2: Byte): (text: string)
    ensures |text| == 4
  {
    [Letter(b0 / 4), Letter(b0 % 4 * 16 + b1 / 16), Letter(b1 % 16 * 4 + b2 / 64), Letter(b2 % 64)]
  }

  /** RawURLEncoding.EncodeToString */
  function Encode(b: seq<Byte>): string {
    if b == [] then ""
    else if |b| == 1 then [Letter(b[0] / 4), Letter(b[0] % 4 * 16)]
    else if |b| == 2 then [Letter(b[0] / 4), Letter(b[0] % 4 * 16 + b[1] / 16), Letter(b[1] % 16 * 4)]
    else
      FourLetters(b[0], b[1], b[2]) + Encode(b[3..])
  }

  /** The decoder skips line breaks wherever they stand. */
  function StripBreaks(text: string): (r: string)
    ensures |r| <= |text|
  {
    if text == "" then ""
    else if text[0] == '\n' || text[0] == '\r' then StripBreaks(text[1..])
    else [text[0]] + StripBreaks(text[1..])
  }

  /** Groups of four; the bits left over at the end are not checked. */
  function DecodeGroups(t: string): Option<seq<Byte>> {
    if t == "" then Some([])
    else if |t| == 1 || Value(t[0]).None? || Value(t[1]).None? then None
    else
      var v0, v1 := Value(t[0]).value, Value(t[1]).value;
      if |t| == 2 then Some([v0 * 4 + v1 / 16])
      else if Value(t[2]).None? then None
      else
        var v2 := Value(t[2]).value;
        if |t| == 3 then Some([v0 * 4 + v1 / 16, v1 % 16 * 16 + v2 / 4])
        else if Value(t[3]).None? then None
        else
          var rest := DecodeGroups(t[4..]);
          if rest.None? then None
          else Some([v0 * 4 + v1 / 16, v1 % 16 * 16 + v2 / 4, v2 % 4 * 64 + Value(t[3]).value] + rest.value)
  }

  function Decode(text: string): Option<seq<Byte>> {
    DecodeGroups(StripBreaks(text))
  }

  lemma BytesRegroup(b0: Byte, b1: Byte, b2: Byte)
    ensures b0 / 4 * 4 + b0 % 4 * 16 / 16 == b0
    ensures b0 / 4 * 4 + (b0 % 4 * 16 + b1 / 16) / 16 == b0
    ensures (b0 % 4 * 16 + b1 / 16) % 16 * 16 + b1 % 16 * 4 / 4 == b1
    ensures (b0 % 4 * 16 + b1 / 16) % 16 * 16 + (b1 % 16 * 4 + b2 / 64) / 4 == b1
    ensures (b1 % 16 * 4 + b2 / 64) % 4 * 64 + b2 % 64 == b2
  {
  }

  lemma NoBytes()
    ensures DecodeGroups("") == Some([])
  {
  }

  lemma OneByte(b0: Byte)
    ensures DecodeGroups(Encode([b0])) == Some([b0])
  {
    hide Letter, Value;
    BytesRegroup(b0, 0, 0);
    LetterValue(b0 / 4);
    LetterValue(b0 % 4 * 16);
  }

  lemma TwoBytes(b0: Byte, b1: Byte)
    ensures DecodeGroups(Encode([b0, b1])) == Some([b0, b1])
  {
    hide Letter, Value;
    BytesRegroup(b0, b1, 0);
    LetterValue(b0 / 4);
    LetterValue(b0 % 4 * 16 + b1 / 16);
    LetterValue(b1 % 16 * 4);
  }

  lemma FirstThree(b0: Byte, b1: Byte, b2: Byte, rest: string)
    requires DecodeGroups(rest).Some?
    ensures DecodeGroups(FourLetters(b0, b1, b2) + rest)
         == Some([b0, b1, b2] + DecodeGroups(rest).value)
  {
    hide Letter, Value;
    BytesRegroup(b0, b1, b2);
    LetterValue(b0 / 4);
    LetterValue(b0 % 4 * 16 + b1 / 16);
    LetterValue(b1 % 16 * 4 + b2 / 64);
    LetterValue(b2 % 64);
    var t := FourLetters(b0, b1, b2) + rest;
    assert t[4..] == rest;
  }

  lemma {:induction false} DecodeInvertsEncode(b: seq<Byte>)
    ensures DecodeGroups(Encode(b)) == Some(b)
    decreases |b|
  {
    hide DecodeGroups, Letter, Value;
    if |b| == 0 {
      NoBytes();
    } else if |b| == 1 {
      OneByte(b[0]);
      assert b == [b[0]];
    } else if |b| == 2 {
      TwoBytes(b[0], b[1]);
      assert b == [b[0], b[1]];
    } else {
      DecodeInvertsEncode(b[3..]);
      FirstThree(b[0], b[1], b[2], Encode(b[3..]));
      assert b == [b[0], b[1], b[2]] + b[3..];
    }
  }

  predicate Clean(text: string) {
    '\n' !in text && '\r' !in text
  }

  lemma {:induction false} StripOfClean(text: string)
    ensures Clean(text) ==> StripBreaks(text) == text
    ensures |StripBreaks(text)| == |text| ==> StripBreaks(text) == text
  {
    if text != "" {
      StripOfClean(text[1..]);
      assert text == [text[0]] + text[1..];
    }
  }

  lemma {:induction false} EncodeShape(b: seq<Byte>)
    ensures |Encode(b)| == (|b| * 8 + 5) / 6
    ensures Clean(Encode(b))
    decreases |b|
  {
    forall n | 0 <= n < 64
      ensures Letter(n) != '\n' && Letter(n) != '\r'
    {
      LetterValue(n);
    }
    hide Letter;
    if |b| > 2 {
      EncodeShape(b[3..]);
    }
  }

  /** The text with the unchecked low bits of its last letter cleared. */
  function Canonical(t: string): string
    requires t != "" && Value(t[|t| - 1]).Some?
  {
    t[..|t| - 1] + [Letter(Value(t[|t| - 1]).value / 16 * 16)]
  }

  lemma EncodeGroup(b0: Byte, b1: Byte, b2: Byte, rest: seq<Byte>)
    ensures Encode([b0, b1, b2] + rest)
         == FourLetters(b0, b1, b2) + Encode(rest)
  {
    hide Letter;
    assert ([b0, b1, b2] + rest)[3..] == rest;
  }

  lemma GroupOfThree(v0: nat, v1: nat, v2: nat, v3: nat)
    requires v0 < 64 && v1 < 64 && v2 < 64 && v3 < 64
    ensures var b0, b1, b2 := v0 * 4 + v1 / 16, v1 % 16 * 16 + v2 / 4, v2 % 4 * 64 + v3;
            && b0 < 256 && b1 < 256 && b2 < 256
            && b0 / 4 == v0 && b0 % 4 * 16 + b1 / 16 == v1
            && b1 % 16 * 4 + b2 / 64 == v2 && b2 % 64 == v3
  {
  }

  lemma FirstGroup(t: string)
    requires |t| >= 4 && DecodeGroups(t).Some?
    ensures DecodeGroups(t[4..]).Some? && |DecodeGroups(t).value| == 3 + |DecodeGroups(t[4..]).value|
    ensures Encode(DecodeGroups(t).value) == t[..4] + Encode(DecodeGroups(t[4..]).value)
  {
    hide Letter, Value;
    ValueLetter(t[0]);
    ValueLetter(t[1]);
    ValueLetter(t[2]);
    ValueLetter(t[3]);
    var v0, v1, v2, v3 := Value(t[0]).value, Value(t[1]).value, Value(t[2]).value, Value(t[3]).value;
    GroupOfThree(v0, v1, v2, v3);
    EncodeGroup(v0 * 4 + v1 / 16, v1 % 16 * 16 + v2 / 4, v2 % 4 * 64 + v3, DecodeGroups(t[4..]).value);
    assert t[..4] == [t[0], t[1], t[2], t[3]];
  }

  lemma PairArithmetic(v0: nat, v1: nat)
    requires v0 < 64 && v1 < 64
    ensures v0 * 4 + v1 / 16 < 256
    ensures (v0 * 4 + v1 / 16) / 4 == v0 && (v0 * 4 + v1 / 16) % 4 * 16 == v1 / 16 * 16
  {
  }

  lemma EncodeOne(b: Byte)
    ensures Encode([b]) == [Letter(b / 4), Letter(b % 4 * 16)]
  {
    hide Letter;
  }

  lemma DecodePair(t: string)
    requires |t| == 2 && DecodeGroups(t).Some?
    ensures Value(t[0]).Some? && Value(t[1]).Some?
    ensures DecodeGroups(t).value == [Value(t[0]).value * 4 + Value(t[1]).value / 16]
  {
    hide Value;
  }

  lemma LastPair(t: string)
    requires |t| == 2 && DecodeGroups(t).Some?
    ensures Value(t[1]).Some? && Encode(DecodeGroups(t).value) == Canonical(t)
  {
    hide Letter, Value, Encode, DecodeGroups;
    DecodePair(t);
    ValueLetter(t[0]);
    var v0, v1 := Value(t[0]).value, Value(t[1]).value;
    PairArithmetic(v0, v1);
    EncodeOne(v0 * 4 + v1 / 16);
    assert t[..1] == [t[0]];
  }

  lemma CanonicalTail(t: string)
    requires |t| > 4 && Value(t[|t| - 1]).Some?
    ensures Canonical(t) == t[..4] + Canonical(t[4..])
  {
    hide Letter, Value;
    assert t[..|t| - 1] == t[..4] + t[4..][..|t| - 5];
  }

  /** Decoding is undone by encoding up to the unchecked bits of the last letter. */
  lemma {:induction false} EncodeInvertsDecode(t: string)
    requires DecodeGroups(t).Some? && |t| % 4 == 2
    ensures Value(t[|t| - 1]).Some? && Encode(DecodeGroups(t).value) == Canonical(t)
    decreases |t|
  {
    hide Encode, DecodeGroups, Letter, Value, Canonical;
    if |t| == 2 {
      LastPair(t);
    } else {
      FirstGroup(t);
      EncodeInvertsDecode(t[4..]);
      CanonicalTail(t);
    }
  }

  // ---------------------------------------------------------------- fields

  function BigEndian(bytes: seq<Byte>): nat {
    if bytes == [] then 0 else BigEndian(bytes[..|bytes| - 1]) * 256 + bytes[|bytes| - 1]
  }

  /** A canonical field encoding: 32 bytes below the modulus. */
  function ParseField(raw: seq<Byte>): Option<seq<Byte>> {
    if |raw| == 32 && BigEndian(raw) < Circuit.R then Some(raw) else None
  }

  /** The right-aligned copy of 31 bytes into 32, as secretField and the challenge functions make it. */
  function SecretField(secret: seq<Byte>): seq<Byte> {
    [0] + secret
  }

  lemma {:induction false} BigEndianBound(bytes: seq<Byte>)
    ensures BigEndian(bytes) < Pow256(|bytes|)
  {
    if bytes != [] {
      BigEndianBound(bytes[..|bytes| - 1]);
    }
  }

  lemma {:induction false} BigEndianPadding(bytes: seq<Byte>)
    ensures BigEndian([0] + bytes) == BigEndian(bytes)
  {
    if bytes == [] {
      assert ([0] + bytes)[..0] == [];
    } else {
      assert ([0] + bytes)[..|bytes|] == [0] + bytes[..|bytes| - 1];
      BigEndianPadding(bytes[..|bytes| - 1]);
    }
  }

  lemma {:induction false} BigEndianInjective(a: seq<Byte>, b: seq<Byte>)
    requires |a| == |b| && BigEndian(a) == BigEndian(b)
    ensures a == b
  {
    if a != [] {
      BigEndianInjective(a[..|a| - 1], b[..|b| - 1]);
      assert a == a[..|a| - 1] + [a[|a| - 1]];
      assert b == b[..|b| - 1] + [b[|b| - 1]];
    }
  }

  /** The last k base-256 digits of a number, most significant first. */
  function Digits(n: nat, k: nat): (digits: seq<Byte>)
    ensures |digits| == k
  {
    if k == 0 then [] else Digits(n / 256, k - 1) + [n % 256]
  }

  /** The 32-byte encoding of the field element an integer reduces to. */
  function ElementBytes(n: nat): (raw: seq<Byte>)
    ensures |raw| == 32
  {
    Digits(n % Circuit.R, 32)
  }

  lemma DigitStep(n: nat, k: nat)
    requires n < 256 * k
    ensures n / 256 < k
  {
  }

  lemma {:induction false} DigitsValue(n: nat, k: nat)
    requires n < Pow256(k)
    ensures BigEndian(Digits(n, k)) == n
  {
    if k > 0 {
      DigitStep(n, Pow256(k - 1));
      DigitsValue(n / 256, k - 1);
      assert Digits(n, k)[..k - 1] == Digits(n / 256, k - 1);
    }
  }

  lemma ModulusFits()
    ensures SECRET_SPACE < Circuit.R < Pow256(32)
  {
    Pow256Of31();
    assert Pow256(32) == 256 * Pow256(31);
  }

  /** The encoding is canonical, and every canonical encoding is that of its own value. */
  lemma ElementsRoundTrip(n: nat, raw: seq<Byte>)
    ensures ParseField(ElementBytes(n)) == Some(ElementBytes(n)) && BigEndian(ElementBytes(n)) == n % Circuit.R
    ensures ParseField(raw).Some? ==> ElementBytes(BigEndian(raw)) == raw
  {
    hide BigEndian, Digits, Pow256;
    ModulusFits();
    DigitsValue(n % Circuit.R, 32);
    if ParseField(raw).Some? {
      DigitsValue(BigEndian(raw) % Circuit.R, 32);
      BigEndianInjective(ElementBytes(BigEndian(raw)), raw);
    }
  }

  /** Every 31-byte value is a canonical field element, and different values are different elements below 2^248. */
  lemma SecretsAreCanonical(a: seq<Byte>, b: seq<Byte>)
    requires |a| == |b| == SECRET_SIZE
    ensures ParseField(SecretField(a)) == Some(SecretField(a))
    ensures BigEndian(SecretField(a)) == BigEndian(a) < SECRET_SPACE
    ensures BigEndian(SecretField(a)) == BigEndian(SecretField(b)) <==> a == b
  {
    Pow256Of31();
    BigEndianPadding(a);
    BigEndianPadding(b);
    BigEndianBound(a);
    hide BigEndian, Pow256;
    if BigEndian(a) == BigEndian(b) {
      BigEndianInjective(a, b);
    }
  }

  function Zeros(n: nat): seq<Byte> {
    seq(n, (i: nat) => 0)
  }

  function BytesOf(text: string): (bytes: seq<Byte>)
    ensures |bytes| == |text| && forall i :: 0 <= i < |text| ==> bytes[i] == text[i] as int % 256
  {
    seq(|text|, (i: nat) requires i < |text| => text[i] as int % 256)
  }

  lemma {:induction false} LabelValue(text: string)
    ensures BigEndian(BytesOf(text)) == DomainElement(text)
  {
    if text != "" {
      LabelValue(text[..|text| - 1]);
      assert BytesOf(text)[..|text| - 1] == BytesOf(text[..|text| - 1]);
    }
  }

  lemma {:induction false} ZerosCountNothing(n: nat, bytes: seq<Byte>)
    ensures BigEndian(Zeros(n) + bytes) == BigEndian(bytes)
  {
    if n == 0 {
      assert Zeros(0) + bytes == bytes;
    } else {
      ZerosCountNothing(n - 1, bytes);
      assert Zeros(n) + bytes == [0] + (Zeros(n - 1) + bytes);
      BigEndianPadding(Zeros(n - 1) + bytes);
    }
  }

  lemma PaddedLabelValue(text: string, n: nat)
    ensures BigEndian(Zeros(n) + BytesOf(text)) == DomainElement(text)
    ensures |Zeros(n) + BytesOf(text)| == n + |text|
  {
    hide BigEndian, DomainElement;
    ZerosCountNothing(n, BytesOf(text));
    LabelValue(text);
  }

  /** A small integer's element has it as its value. */
  lemma SmallElementValue(n: nat)
    requires n < SECRET_SPACE
    ensures BigEndian(ElementBytes(n)) == n && |ElementBytes(n)| == 32
  {
    hide BigEndian, Digits, Pow256;
    ModulusFits();
    ElementsRoundTrip(n, []);
  }

  /** A label's field element is its bytes, right-aligned in 32. */
  lemma LabelIsItsBytes(text: string)
    requires |text| <= SECRET_SIZE
    ensures ElementBytes(DomainElement(text)) == Zeros(32 - |text|) + BytesOf(text)
  {
    hide BigEndian, DomainElement, ElementBytes, Zeros, BytesOf;
    LabelsFit(text);
    PaddedLabelValue(text, 32 - |text|);
    SmallElementValue(DomainElement(text));
    BigEndianInjective(ElementBytes(DomainElement(text)), Zeros(32 - |text|) + BytesOf(text));
  }

  // ---------------------------------------------------------------- challenges

  /** challengeField, the token's hash aside. */
  function ChallengeField(token: string): Option<seq<Byte>> {
    if |token| != (SECRET_SIZE * 8 + 5) / 6 then None
    else
      match Decode(token)
      case None => None
      case Some(raw) => if |raw| != SECRET_SIZE then None else Some(SecretField(raw))
  }

  /** The first read that is not all zeros, with no error before it. */
  ghost predicate UsableRead(entropy: seq<Option<seq<Byte>>>, i: nat) {
    && i < |entropy| && entropy[i].Some? && entropy[i].value != Zeros(SECRET_SIZE)
    && forall j :: 0 <= j < i ==> entropy[j] == Some(Zeros(SECRET_SIZE))
  }

  /** The field a token was made with is the field it is read back as, and parseField accepts it unreduced. */
  lemma TokenRoundTrip(raw: seq<Byte>)
    requires |raw| == SECRET_SIZE
    ensures ChallengeField(Encode(raw)) == Some(SecretField(raw))
    ensures ParseField(SecretField(raw)) == Some(SecretField(raw))
  {
    EncodeShape(raw);
    StripOfClean(Encode(raw));
    DecodeInvertsEncode(raw);
    SecretsAreCanonical(raw, raw);
    hide Encode, DecodeGroups, StripBreaks, BigEndian;
  }

  /** The reader yields a value or an error at each attempt; all-zero values are read again, at most three times. */
  method NewChallengeToken(entropy: seq<Option<seq<Byte>>>) returns (result: Option<(string, seq<Byte>)>)
    requires |entropy| >= ENTROPY_ATTEMPTS
    requires forall i :: 0 <= i < |entropy| && entropy[i].Some? ==> |entropy[i].value| == SECRET_SIZE
    ensures result.Some? <==> exists i :: 0 <= i < ENTROPY_ATTEMPTS && UsableRead(entropy, i)
    ensures result.Some? ==> exists i :: 0 <= i < ENTROPY_ATTEMPTS && UsableRead(entropy, i) &&
                                         result.value == (Encode(entropy[i].value), SecretField(entropy[i].value))
    ensures result.Some? ==> ChallengeField(result.value.0) == Some(result.value.1)
  {
    var attempt := 0;
    while attempt < ENTROPY_ATTEMPTS
      invariant attempt <= ENTROPY_ATTEMPTS
      invariant forall j :: 0 <= j < attempt ==> entropy[j] == Some(Zeros(SECRET_SIZE))
    {
      if entropy[attempt].None? {
        return None;
      }
      var raw := entropy[attempt].value;
      if raw != Zeros(SECRET_SIZE) {
        assert UsableRead(entropy, attempt);
        TokenRoundTrip(raw);
        return Some((Encode(raw), SecretField(raw)));
      }
      attempt := attempt + 1;
    }
    result := None;
  }

  lemma CanonicalEqual(t: string, u: string)
    requires |t| == |u| == 42 && Value(t[41]).Some? && Value(u[41]).Some?
    ensures Canonical(t) == Canonical(u) <==>
            t[..41] == u[..41] && Value(t[41]).value / 16 == Value(u[41]).value / 16
  {
    var x, y := Value(t[41]).value / 16 * 16, Value(u[41]).value / 16 * 16;
    LetterValue(x);
    LetterValue(y);
    hide Letter, Value;
    assert Canonical(t)[..41] == t[..41] && Canonical(u)[..41] == u[..41];
    assert Canonical(t)[41] == Letter(x) && Canonical(u)[41] == Letter(y);
  }

  lemma {:induction false} DecodedLength(t: string)
    requires DecodeGroups(t).Some?
    ensures |DecodeGroups(t).value| == |t| * 3 / 4
    decreases |t|
  {
    hide Value;
    if |t| >= 4 {
      DecodedLength(t[4..]);
    }
  }

  lemma AcceptedTokenIsClean(t: string)
    requires ChallengeField(t).Some?
    ensures |t| == 42 && StripBreaks(t) == t && DecodeGroups(t).Some? && |DecodeGroups(t).value| == SECRET_SIZE
  {
    StripOfClean(t);
    DecodedLength(StripBreaks(t));
    hide DecodeGroups, StripBreaks;
  }

  /** Which tokens are read as the same field: those that agree but for the last letter's four unchecked bits. In
    * particular an accepted token holds no line break. */
  lemma TokensOfOneField(t: string, u: string)
    requires ChallengeField(t).Some? && ChallengeField(u).Some?
    ensures |t| == |u| == 42 && Value(t[41]).Some? && Value(u[41]).Some?
    ensures ChallengeField(t) == ChallengeField(u) <==>
            t[..41] == u[..41] && Value(t[41]).value / 16 == Value(u[41]).value / 16
  {
    hide Encode, DecodeGroups, StripBreaks, Letter, Value, Canonical;
    AcceptedTokenIsClean(t);
    AcceptedTokenIsClean(u);
    EncodeInvertsDecode(t);
    EncodeInvertsDecode(u);
    var a, b := DecodeGroups(t).value, DecodeGroups(u).value;
    DecodeInvertsEncode(a);
    DecodeInvertsEncode(b);
    assert SecretField(a)[1..] == a && SecretField(b)[1..] == b;
    CanonicalEqual(t, u);
  }
}
