/**
 * Character classes and padding shared by the timestamp codec and the renderers,
 * and the UTF-8 byte view of a text: the C++ program keeps every string as the
 * bytes of its UTF-8 encoding, so stream extraction, `setw` and `length()` all
 * work on bytes. A byte string is modelled as a string whose characters each
 * stand for one byte, the character with that byte's value (0-255).
 */
module Text {

  /** The decimal digits '0'..'9'. */
  predicate IsDigit(c: char) {
    '0' <= c <= '9'
  }

  /** `isspace` in the classic "C" locale: space, \t, \n, \v, \f, \r. */
  predicate IsSpace(c: char) {
    c == ' ' || 9 <= c as int <= 13
  }

  predicate AllDigits(s: string) {
    forall i :: 0 <= i < |s| ==> IsDigit(s[i])
  }

  function DigitValue(c: char): (d: nat)
    requires IsDigit(c)
    ensures d < 10
  {
    c as int - '0' as int
  }

  function DigitChar(d: nat): (c: char)
    requires d < 10
    ensures IsDigit(c) && DigitValue(c) == d
  {
    ('0' as int + d) as char
  }

  /** `std::string(k, c)`: k copies of c. */
  function Repeat(c: char, k: nat): (r: string)
    ensures |r| == k
    ensures forall i :: 0 <= i < k ==> r[i] == c
  {
    if k == 0 then [] else Repeat(c, k - 1) + [c]
  }

  /** Every character is in the ASCII range, where a character is one byte. */
  predicate IsAscii(s: string) {
    forall i :: 0 <= i < |s| ==> s[i] as int < 0x80
  }

  /** The character standing for byte b. */
  function Byte(b: int): (c: char)
    requires 0 <= b < 0x100
    ensures c as int == b
  {
    b as char
  }

  /**
   * The UTF-8 encoding of one character: itself when it is ASCII, otherwise a lead
   * byte 0xC0-0xF4 and one to three continuation bytes 0x80-0xBF.
   */
  function EncodeChar(c: char): (r: string)
    ensures 1 <= |r| <= 4
    ensures c as int < 0x80 ==> r == [c]
    ensures c as int >= 0x80 ==>
      && |r| >= 2
      && 0xC0 <= r[0] as int < 0x100
      && (forall i :: 1 <= i < |r| ==> 0x80 <= r[i] as int < 0xC0)
  {
    var n := c as int;
    if n < 0x80 then [c]
    else if n < 0x800 then [Byte(0xC0 + n / 0x40)] + Continuation(n, 1)
    else if n < 0x1_0000 then [Byte(0xE0 + n / 0x1000)] + Continuation(n, 2)
    else [Byte(0xF0 + n / 0x4_0000)] + Continuation(n, 3)
  }

  /** The last `k` six-bit groups of n, most significant first, each as a byte 10xxxxxx. */
  function Continuation(n: nat, k: nat): (r: string)
    ensures |r| == k
    ensures forall i :: 0 <= i < k ==> 0x80 <= r[i] as int < 0xC0
  {
    if k == 0 then [] else Continuation(n / 0x40, k - 1) + [Byte(0x80 + n % 0x40)]
  }

  /** The bytes a `std::string` holds for text s. */
  function Utf8(s: string): (r: string)
    ensures |r| >= |s|
  {
    if s == [] then [] else EncodeChar(s[0]) + Utf8(s[1..])
  }

  lemma {:induction false} Utf8Append(a: string, b: string)
    ensures Utf8(a + b) == Utf8(a) + Utf8(b)
    decreases |a|
  {
    if a == [] {
      assert a + b == b;
    } else {
      assert (a + b)[0] == a[0] && (a + b)[1..] == a[1..] + b;
      Utf8Append(a[1..], b);
    }
  }

  /** ASCII text is its own byte string. */
  lemma {:induction false} Utf8Ascii(s: string)
    requires IsAscii(s)
    ensures Utf8(s) == s
    decreases |s|
  {
    if s != [] {
      assert IsAscii(s[1..]) by {
        forall i | 0 <= i < |s| - 1 ensures s[1..][i] as int < 0x80 {
          assert s[1..][i] == s[i + 1];
        }
      }
      Utf8Ascii(s[1..]);
      assert s == [s[0]] + s[1..];
    }
  }

  /**
   * Text with a character outside ASCII has more bytes than characters, so byte
   * widths and character counts part.
   */
  lemma {:induction false} Utf8Longer(s: string)
    requires !IsAscii(s)
    ensures |Utf8(s)| > |s|
    decreases |s|
  {
    if s[0] as int < 0x80 {
      assert !IsAscii(s[1..]) by {
        var i :| 0 <= i < |s| && s[i] as int >= 0x80;
        assert s[1..][i - 1] == s[i];
      }
      Utf8Longer(s[1..]);
    }
  }

  /** Decimal digits are ASCII. */
  lemma DigitsAscii(s: string)
    requires AllDigits(s)
    ensures IsAscii(s)
  {
  }
}
