/** Byte-level encodings of zkauthn/hash.go and of the derived pseudonym email. */
module Encoding {
  type Byte = b: nat | b < 256

  function HexDigit(n: nat): char
    requires n < 16
  {
    if n < 10 then '0' + n as char else 'a' + (n - 10) as char
  }

  /** hex.EncodeToString */
  function Hex(bytes: seq<Byte>): (text: string)
    ensures |text| == 2 * |bytes|
  {
    if bytes == [] then "" else [HexDigit(bytes[0] / 16), HexDigit(bytes[0] % 16)] + Hex(bytes[1..])
  }

  function PseudonymEmail(nullifier: seq<Byte>): string {
    "zk-" + Hex(nullifier) + "@invalid"
  }

  function LowerChar(c: char): char {
    if 'A' <= c <= 'Z' then c + 32 as char else c
  }

  /** lower(email) of the unique index, on ASCII. */
  function Lower(text: string): string {
    seq(|text|, (i: nat) requires i < |text| => LowerChar(text[i]))
  }

  lemma HexDigitInjective(m: nat, n: nat)
    requires m < 16 && n < 16 && HexDigit(m) == HexDigit(n)
    ensures m == n
  {
    assert HexDigit(m) as int == if m < 10 then 48 + m else 87 + m;
    assert HexDigit(n) as int == if n < 10 then 48 + n else 87 + n;
  }

  lemma {:induction false} HexInjective(a: seq<Byte>, b: seq<Byte>)
    requires Hex(a) == Hex(b)
    ensures a == b
  {
    assert |a| == |b|;
    if a != [] {
      var x, y := Hex(a), Hex(b);
      assert x[0] == HexDigit(a[0] / 16) && x[1] == HexDigit(a[0] % 16) && x[2..] == Hex(a[1..]);
      assert y[0] == HexDigit(b[0] / 16) && y[1] == HexDigit(b[0] % 16) && y[2..] == Hex(b[1..]);
      HexDigitInjective(a[0] / 16, b[0] / 16);
      HexDigitInjective(a[0] % 16, b[0] % 16);
      hide HexDigit;
      HexInjective(a[1..], b[1..]);
      assert a[0] == b[0];
    }
  }

  /** Different nullifiers derive different emails. */
  lemma PseudonymEmailInjective(a: seq<Byte>, b: seq<Byte>)
    requires PseudonymEmail(a) == PseudonymEmail(b)
    ensures a == b
  {
    var x, y := PseudonymEmail(a), PseudonymEmail(b);
    assert |Hex(a)| == |x| - 11 == |Hex(b)|;
    assert x[3..|x| - 8] == Hex(a) && y[3..|y| - 8] == Hex(b);
    HexInjective(a, b);
  }

  // ---------------------------------------------------------------- what the texts are

  const HEX: string := "0123456789abcdef"

  lemma HexDigits(b: Byte)
    ensures HexDigit(b / 16) == HEX[b / 16] && HexDigit(b % 16) == HEX[b % 16]
  {
  }

  /** Byte i is written as two lower-case hexadecimal digits, the high one first. */
  lemma {:induction false} HexAt(bytes: seq<Byte>, i: nat)
    requires i < |bytes|
    ensures Hex(bytes)[2 * i] == HEX[bytes[i] / 16] && Hex(bytes)[2 * i + 1] == HEX[bytes[i] % 16]
  {
    HexDigits(bytes[0]);
    hide HexDigit;
    if i > 0 {
      HexAt(bytes[1..], i - 1);
      assert Hex(bytes)[2..] == Hex(bytes[1..]);
      assert Hex(bytes)[2 * i] == Hex(bytes[1..])[2 * (i - 1)];
      assert Hex(bytes)[2 * i + 1] == Hex(bytes[1..])[2 * (i - 1) + 1];
    }
  }

  /** The email of a nullifier, character by character. */
  lemma PseudonymEmailAt(nullifier: seq<Byte>)
    ensures var email := PseudonymEmail(nullifier);
            && |email| == 3 + 2 * |nullifier| + 8
            && email[..3] == "zk-" && email[3 + 2 * |nullifier|..] == "@invalid"
            && forall i: nat :: i < |nullifier| ==>
                 email[3 + 2 * i] == HEX[nullifier[i] / 16] && email[3 + 2 * i + 1] == HEX[nullifier[i] % 16]
  {
    var email := PseudonymEmail(nullifier);
    forall i: nat | i < |nullifier|
      ensures email[3 + 2 * i] == HEX[nullifier[i] / 16] && email[3 + 2 * i + 1] == HEX[nullifier[i] % 16]
    {
      HexAt(nullifier, i);
      hide Hex;
    }
    hide Hex;
  }

  predicate SameLetter(x: char, y: char) {
    || x == y
    || ('A' <= x <= 'Z' && y as int == x as int + 32) || ('A' <= y <= 'Z' && x as int == y as int + 32)
  }

  /** The same text but for the case of ASCII letters. */
  ghost predicate SameButCase(a: string, b: string) {
    |a| == |b| && forall i :: 0 <= i < |a| ==> SameLetter(a[i], b[i])
  }

  lemma LowerLetter(x: char, y: char)
    ensures LowerChar(x) == LowerChar(y) <==> SameLetter(x, y)
  {
    assert LowerChar(x) as int == if 'A' <= x <= 'Z' then x as int + 32 else x as int;
    assert LowerChar(y) as int == if 'A' <= y <= 'Z' then y as int + 32 else y as int;
  }

  lemma LowerIffSameButCase(a: string, b: string)
    ensures Lower(a) == Lower(b) <==> SameButCase(a, b)
  {
    forall x: char, y: char
      ensures LowerChar(x) == LowerChar(y) <==> SameLetter(x, y)
    {
      LowerLetter(x, y);
    }
    hide LowerChar, SameLetter;
    if SameButCase(a, b) {
      assert Lower(a) == Lower(b);
    }
    if Lower(a) == Lower(b) {
      assert |a| == |b|;
      forall i | 0 <= i < |a|
        ensures SameLetter(a[i], b[i])
      {
        assert Lower(a)[i] == Lower(b)[i];
      }
    }
  }
}
