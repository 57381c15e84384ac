/** UTF-8 as section 3 of RFC 3629 defines it, and Go's reading of bytes as UTF-8. */
module Utf8 {
  import opened Text

  type Byte = b: int | 0 <= b < 256

  /** The encoding of one scalar value. */
  function Encode(c: char): (bytes: seq<Byte>)
    ensures |bytes| == Width(c)
  {
    var v := c as int;
    if v < 0x80 then [v]
    else if v < 0x800 then [0xC0 + v / 64, 0x80 + v % 64]
    else if v < 0x1_0000 then [0xE0 + v / 4096, 0x80 + v / 64 % 64, 0x80 + v % 64]
    else [0xF0 + v / 262144, 0x80 + v / 4096 % 64, 0x80 + v / 64 % 64, 0x80 + v % 64]
  }

  function EncodeAll(s: string): (bytes: seq<Byte>) {
    if s == "" then [] else Encode(s[0]) + EncodeAll(s[1..])
  }

  predicate Continuation(b: Byte) {
    0x80 <= b < 0xC0
  }

  /** What the byte after the first may be: this keeps out overlong forms, surrogates and values past 0x10FFFF. */
  predicate Second(first: Byte, second: Byte) {
    if first == 0xE0 then 0xA0 <= second < 0xC0
    else if first == 0xED then 0x80 <= second < 0xA0
    else if first == 0xF0 then 0x90 <= second < 0xC0
    else if first == 0xF4 then 0x80 <= second < 0x90
    else Continuation(second)
  }

  /** How many bytes the character at the front takes; 0 when there is none. */
  function FirstWidth(bytes: seq<Byte>): (w: nat)
    ensures w <= |bytes| && w <= 4
  {
    if bytes == [] then 0
    else if bytes[0] < 0x80 then 1
    else if bytes[0] < 0xC2 || bytes[0] > 0xF4 || |bytes| < 2 || !Second(bytes[0], bytes[1]) then 0
    else if bytes[0] < 0xE0 then 2
    else if |bytes| < 3 || !Continuation(bytes[2]) then 0
    else if bytes[0] < 0xF0 then 3
    else if |bytes| < 4 || !Continuation(bytes[3]) then 0
    else 4
  }

  function Two(a: int, b: int): (v: int) {
    (a - 0xC0) * 64 + (b - 0x80)
  }

  function Three(a: int, b: int, c: int): (v: int) {
    (a - 0xE0) * 4096 + (b - 0x80) * 64 + (c - 0x80)
  }

  function Four(a: int, b: int, c: int, d: int): (v: int) {
    (a - 0xF0) * 262144 + (b - 0x80) * 4096 + (c - 0x80) * 64 + (d - 0x80)
  }

  function FirstValue(bytes: seq<Byte>): (v: int)
    requires FirstWidth(bytes) > 0
    ensures 0 <= v < 0xD800 || 0xE000 <= v < 0x11_0000
  {
    match FirstWidth(bytes)
    case 1 => bytes[0]
    case 2 => Two(bytes[0], bytes[1])
    case 3 => Three(bytes[0], bytes[1], bytes[2])
    case _ => Four(bytes[0], bytes[1], bytes[2], bytes[3])
  }

  function First(bytes: seq<Byte>): (c: char)
    requires FirstWidth(bytes) > 0
  {
    FirstValue(bytes) as char
  }

  /** utf8.ValidString. */
  predicate Valid(bytes: seq<Byte>)
    decreases |bytes|
  {
    bytes == [] || (FirstWidth(bytes) > 0 && Valid(bytes[FirstWidth(bytes)..]))
  }

  // ----- Decoding undoes encoding -----

  lemma Digits(v: int)
    requires 0 <= v < 0x11_0000
    ensures v == v / 64 * 64 + v % 64
    ensures v / 64 == v / 4096 * 64 + v / 64 % 64
    ensures v / 4096 == v / 262144 * 64 + v / 4096 % 64
  {
  }

  lemma FirstOfEncoded(c: char, rest: seq<Byte>)
    ensures FirstWidth(Encode(c) + rest) == Width(c)
    ensures First(Encode(c) + rest) == c
  {
    var v, bytes := c as int, Encode(c) + rest;
    assert v < 0xD800 || 0xE000 <= v < 0x11_0000;
    Digits(v);
    var a, b := v / 64, v / 4096;
    if v < 0x80 {
      assert bytes[0] == v;
    } else if v < 0x800 {
      assert bytes[0] == 0xC0 + a && bytes[1] == 0x80 + v % 64;
    } else if v < 0x1_0000 {
      assert bytes[0] == 0xE0 + b && bytes[1] == 0x80 + a % 64 && bytes[2] == 0x80 + v % 64;
    } else {
      assert bytes[0] == 0xF0 + v / 262144 && bytes[1] == 0x80 + b % 64 && bytes[2] == 0x80 + a % 64 && bytes[3] == 0x80 + v % 64;
    }
  }

  lemma TwoDigits(a: int, b: int)
    requires 0xC2 <= a < 0xE0 && 0x80 <= b < 0xC0
    ensures var v := Two(a, b); 0x80 <= v < 0x800 && v / 64 == a - 0xC0 && v % 64 == b - 0x80
  {
  }

  lemma EncodedFirst(bytes: seq<Byte>)
    requires FirstWidth(bytes) > 0
    ensures Encode(First(bytes)) == bytes[..FirstWidth(bytes)]
  {
    var v := FirstValue(bytes);
    Digits(v);
    match FirstWidth(bytes)
    case 1 =>
    case 2 => TwoDigits(bytes[0], bytes[1]);
    case 3 =>
      assert v / 64 == (bytes[0] as int - 0xE0) * 64 + (bytes[1] as int - 0x80);
    case _ =>
      assert v / 64 == (bytes[0] as int - 0xF0) * 4096 + (bytes[1] as int - 0x80) * 64 + (bytes[2] as int - 0x80);
  }

  lemma EncodeCons(c: char, s: string)
    ensures EncodeAll([c] + s) == Encode(c) + EncodeAll(s)
  {
    hide Encode;
    assert ([c] + s)[1..] == s;
  }

  lemma {:induction false} EncodedIsValid(s: string)
    ensures Valid(EncodeAll(s))
  {
    if s != "" {
      FirstOfEncoded(s[0], EncodeAll(s[1..]));
      EncodedIsValid(s[1..]);
      assert (Encode(s[0]) + EncodeAll(s[1..]))[Width(s[0])..] == EncodeAll(s[1..]);
    }
  }

  /** The bytes are valid exactly when they encode some string. */
  lemma {:induction false} ValidIffEncoded(bytes: seq<Byte>)
    ensures Valid(bytes) <==> exists s :: bytes == EncodeAll(s)
    decreases |bytes|
  {
    hide FirstWidth, First, Encode;
    if Valid(bytes) {
      if bytes == [] {
        assert EncodeAll("") == [];
      } else {
        var w := FirstWidth(bytes);
        ValidIffEncoded(bytes[w..]);
        var s :| bytes[w..] == EncodeAll(s);
        EncodedFirst(bytes);
        EncodeCons(First(bytes), s);
        assert bytes == bytes[..w] + bytes[w..];
      }
    }
    if s :| bytes == EncodeAll(s) {
      EncodedIsValid(s);
    }
  }

  lemma {:induction false} EncodeConcat(a: string, b: string)
    ensures EncodeAll(a + b) == EncodeAll(a) + EncodeAll(b)
    decreases |a|
  {
    if a == "" {
      assert a + b == b;
    } else {
      EncodeConcat(a[1..], b);
      assert (a + b)[1..] == a[1..] + b;
      assert Encode(a[0]) + (EncodeAll(a[1..]) + EncodeAll(b)) == Encode(a[0]) + EncodeAll(a[1..]) + EncodeAll(b);
    }
  }

  lemma {:induction false} EncodedLength(s: string)
    ensures |s| <= |EncodeAll(s)| <= 4 * |s| && |EncodeAll(s)| == ByteLength(s)
  {
    if s != "" {
      EncodedLength(s[1..]);
    }
  }
}
