/** The UTF-8 facts the Rust code relies on: `str::as_bytes` (the encoding of
    a `String`), `OsStr::to_str` (the well-formedness check), and the ASCII
    case in which a byte string and a text string coincide. */
module Utf8 {
  import opened Primitives

  predicate IsContinuation(b: byte) {
    0x80 <= b <= 0xBF
  }

  /** Allowed second byte of a three-byte sequence with lead byte `lead`
      (excludes overlong forms and the surrogate range). */
  predicate SecondOfThree(lead: byte, b: byte) {
    if lead == 0xE0 then 0xA0 <= b <= 0xBF
    else if lead == 0xED then 0x80 <= b <= 0x9F
    else IsContinuation(b)
  }

  /** Allowed second byte of a four-byte sequence with lead byte `lead`
      (excludes overlong forms and code points above U+10FFFF). */
  predicate SecondOfFour(lead: byte, b: byte) {
    if lead == 0xF0 then 0x90 <= b <= 0xBF
    else if lead == 0xF4 then 0x80 <= b <= 0x8F
    else IsContinuation(b)
  }

  /** Well-formed UTF-8 (table 3-7 of the Unicode Standard): exactly the byte
      strings `OsStr::to_str` turns into a `str`. */
  predicate ValidUtf8(b: seq<byte>)
    decreases |b|
  {
    if |b| == 0 then true
    else if b[0] < 0x80 then ValidUtf8(b[1..])
    else if 0xC2 <= b[0] <= 0xDF then
      2 <= |b| && IsContinuation(b[1]) && ValidUtf8(b[2..])
    else if 0xE0 <= b[0] <= 0xEF then
      3 <= |b| && SecondOfThree(b[0], b[1]) && IsContinuation(b[2]) && ValidUtf8(b[3..])
    else if 0xF0 <= b[0] <= 0xF4 then
      4 <= |b| && SecondOfFour(b[0], b[1]) && IsContinuation(b[2]) && IsContinuation(b[3])
      && ValidUtf8(b[4..])
    else false
  }

  /** The UTF-8 encoding of one Unicode scalar value. */
  function EncodeChar(c: char): (r: seq<byte>)
    ensures 1 <= |r| <= 4
    ensures |r| == 1 <==> c as int < 0x80
    ensures |r| == 1 ==> r[0] as int == c as int
    ensures c as int >= 0x80 ==> r[0] >= 0xC2
  {
    var n := c as int;
    if n < 0x80 then [n as byte]
    else if n < 0x800 then
      [(0xC0 + n / 64) as byte, (0x80 + n % 64) as byte]
    else if n < 0x10000 then
      [(0xE0 + n / 4096) as byte, (0x80 + n / 64 % 64) as byte, (0x80 + n % 64) as byte]
    else
      [(0xF0 + n / 262144) as byte, (0x80 + n / 4096 % 64) as byte,
       (0x80 + n / 64 % 64) as byte, (0x80 + n % 64) as byte]
  }

  /** `String::as_bytes`: the UTF-8 encoding of a whole string. */
  function Encode(s: string): (r: seq<byte>)
    ensures |r| >= |s|
  {
    if |s| == 0 then [] else EncodeChar(s[0]) + Encode(s[1..])
  }

  predicate IsAsciiText(s: string) {
    forall i | 0 <= i < |s| :: s[i] as int < 0x80
  }

  predicate IsAsciiBytes(b: seq<byte>) {
    forall i | 0 <= i < |b| :: b[i] < 0x80
  }

  /** Reads an all-ASCII byte string as text, one character per byte. */
  function AsciiDecode(b: seq<byte>): (s: string)
    requires IsAsciiBytes(b)
    ensures |s| == |b|
    ensures forall i | 0 <= i < |b| :: s[i] as int == b[i] as int
  {
    seq(|b|, i requires 0 <= i < |b| => (b[i] as int) as char)
  }

  /** One encoded character followed by well-formed bytes is well-formed. */
  lemma EncodeCharThenValid(c: char, rest: seq<byte>)
    requires ValidUtf8(rest)
    ensures ValidUtf8(EncodeChar(c) + rest)
  {
    var e := EncodeChar(c);
    var b := e + rest;
    assert b[|e|..] == rest;
    var n := c as int;
    if n >= 0x800 && n < 0x10000 {
      assert b[0] as int == 0xE0 + n / 4096;
      assert b[1] as int == 0x80 + n / 64 % 64;
      assert n < 0xD800 || 0xE000 <= n;
    } else if n >= 0x10000 {
      assert b[0] as int == 0xF0 + n / 262144;
      assert b[1] as int == 0x80 + n / 4096 % 64;
    }
  }

  /** Every Rust `String` is well-formed UTF-8: `as_bytes` never produces
      something `to_str` would reject. */
  lemma {:induction false} EncodeIsValid(s: string)
    ensures ValidUtf8(Encode(s))
  {
    if |s| > 0 {
      EncodeIsValid(s[1..]);
      EncodeCharThenValid(s[0], Encode(s[1..]));
    }
  }

  lemma {:induction false} EncodeAppend(a: string, b: string)
    ensures Encode(a + b) == Encode(a) + Encode(b)
  {
    if |a| > 0 {
      assert (a + b)[1..] == a[1..] + b;
      EncodeAppend(a[1..], b);
    } else {
      assert a + b == b;
    }
  }

  /** A string's bytes are all ASCII exactly when its characters are, and
      then encoding is the identity on code units (one byte per character). */
  lemma {:induction false} EncodeAscii(s: string)
    ensures IsAsciiBytes(Encode(s)) <==> IsAsciiText(s)
    ensures IsAsciiText(s) ==> |Encode(s)| == |s|
    ensures IsAsciiText(s) ==> forall i | 0 <= i < |s| :: Encode(s)[i] as int == s[i] as int
  {
    if |s| > 0 {
      EncodeAscii(s[1..]);
      var e := EncodeChar(s[0]);
      var r := Encode(s[1..]);
      assert Encode(s) == e + r;
      if IsAsciiBytes(Encode(s)) {
        assert Encode(s)[0] == e[0];
        forall i | 0 <= i < |r|
          ensures r[i] < 0x80
        {
          assert r[i] == Encode(s)[|e| + i];
        }
        assert s[0] as int < 0x80;
        assert IsAsciiText(s[1..]);
        forall i | 0 <= i < |s|
          ensures s[i] as int < 0x80
        {
          if i > 0 { assert s[i] == s[1..][i - 1]; }
        }
      }
      if IsAsciiText(s) {
        assert s[0] as int < 0x80;
        assert IsAsciiText(s[1..]) by {
          forall i | 0 <= i < |s| - 1
            ensures s[1..][i] as int < 0x80
          {
            assert s[1..][i] == s[i + 1];
          }
        }
        forall i | 0 <= i < |s|
          ensures Encode(s)[i] as int == s[i] as int
        {
          if i > 0 { assert Encode(s)[i] == r[i - 1]; }
        }
      }
    }
  }

  /** Decoding ASCII bytes and encoding the text again gives the bytes back. */
  lemma AsciiRoundTrip(b: seq<byte>)
    requires IsAsciiBytes(b)
    ensures Encode(AsciiDecode(b)) == b
  {
    var s := AsciiDecode(b);
    EncodeAscii(s);
  }

  /** ASCII bytes are well-formed UTF-8. */
  lemma {:induction false} AsciiIsValid(b: seq<byte>)
    requires IsAsciiBytes(b)
    ensures ValidUtf8(b)
  {
    if |b| > 0 {
      assert IsAsciiBytes(b[1..]) by {
        forall i | 0 <= i < |b| - 1
          ensures b[1..][i] < 0x80
        {
          assert b[1..][i] == b[i + 1];
        }
      }
      AsciiIsValid(b[1..]);
    }
  }
}
