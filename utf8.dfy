/**
 Strict UTF-8 decoding, `bytes.decode()`: the well-formed byte sequences of
 section 4 of RFC 3629 (no overlong forms, no surrogates, nothing above
 U+10FFFF); anything else raises UnicodeDecodeError.

 Store paths and values are byte strings. The model writes them as `string`
 values whose characters stand for single bytes (0 to 255); ASCII text such
 as "suspend" is the same in both readings.
 */
module Utf8 {
  import opened Common

  predicate Cont(c: char)
  {
    0x80 <= c as int <= 0xBF
  }

  predicate InRange(c: char, lo: int, hi: int)
  {
    lo <= c as int <= hi
  }

  /**
   The length and code point of the character encoded at the start of b, or
   None when b does not start with a well-formed sequence. Only a single
   byte below 0x80 decodes to a code point below 0x80.
   */
  function Lead(b: string): (r: Option<(nat, int)>)
    requires |b| > 0
    ensures r.Some? ==> 1 <= r.value.0 <= |b|
    ensures r.Some? ==> (r.value.1 < 0x80 <==> r.value.0 == 1)
    ensures r.Some? && r.value.0 == 1 ==> r.value.1 == b[0] as int
    ensures b[0] as int < 0x80 ==> r == Some((1, b[0] as int))
  {
    var b0 := b[0] as int;
    if b0 < 0x80 then Some((1, b0))
    else if 0xC2 <= b0 <= 0xDF then
      if |b| >= 2 && Cont(b[1]) then Some((2, (b0 - 0xC0) * 64 + (b[1] as int - 0x80)))
      else None
    else if 0xE0 <= b0 <= 0xEF then
      var lo := if b0 == 0xE0 then 0xA0 else 0x80;
      var hi := if b0 == 0xED then 0x9F else 0xBF;
      if |b| >= 3 && InRange(b[1], lo, hi) && Cont(b[2]) then
        Some((3, (b0 - 0xE0) * 4096 + (b[1] as int - 0x80) * 64 + (b[2] as int - 0x80)))
      else None
    else if 0xF0 <= b0 <= 0xF4 then
      var lo := if b0 == 0xF0 then 0x90 else 0x80;
      var hi := if b0 == 0xF4 then 0x8F else 0xBF;
      if |b| >= 4 && InRange(b[1], lo, hi) && Cont(b[2]) && Cont(b[3]) then
        Some((4, (b0 - 0xF0) * 262144 + (b[1] as int - 0x80) * 4096 + (b[2] as int - 0x80) * 64 + (b[3] as int - 0x80)))
      else None
    else None
  }

  /** `b.decode()`: the code points of b, or None where decoding raises. */
  function Decode(b: string): Option<seq<int>>
    decreases |b|
  {
    if b == [] then Some([])
    else match Lead(b)
      case None => None
      case Some((n, cp)) =>
        match Decode(b[n..])
        case None => None
        case Some(rest) => Some([cp] + rest)
  }

  /** The code points of a text. */
  function Codes(s: string): seq<int>
  {
    seq(|s|, i requires 0 <= i < |s| => s[i] as int)
  }

  predicate Ascii(s: string)
  {
    forall i :: 0 <= i < |s| ==> s[i] as int < 0x80
  }

  lemma {:induction false} DecodeOfAscii(s: string)
    requires Ascii(s)
    ensures Decode(s) == Some(Codes(s))
  {
    if s != [] {
      DecodeOfAscii(s[1..]);
      assert Codes(s) == [s[0] as int] + Codes(s[1..]);
    }
  }

  lemma {:induction false} DecodeToAscii(b: string, s: string)
    requires Ascii(s) && Decode(b) == Some(Codes(s))
    ensures b == s
    decreases |b|
  {
    if b != [] {
      var n := Lead(b).value.0;
      var rest := Decode(b[n..]).value;
      assert Codes(s) == [Lead(b).value.1] + rest;
      assert s != [] && Codes(s)[0] == s[0] as int;
      assert n == 1;
      assert Codes(s[1..]) == Codes(s)[1..];
      DecodeToAscii(b[1..], s[1..]);
      assert b == [b[0]] + b[1..] && s == [s[0]] + s[1..];
    } else {
      assert |Codes(s)| == 0;
    }
  }

  /**
   A byte string decodes to an ASCII text exactly when it is that text's
   bytes: `b.decode() == "suspend"` holds only for `b"suspend"`.
   */
  lemma DecodeAscii(b: string, s: string)
    requires Ascii(s)
    ensures Decode(b) == Some(Codes(s)) <==> b == s
  {
    DecodeOfAscii(s);
    if Decode(b) == Some(Codes(s)) {
      DecodeToAscii(b, s);
    }
  }

  /** A lone byte that is not ASCII, such as 0xFF or a stray continuation byte, does not decode. */
  lemma LoneHighByteRejected(c: char)
    requires 0x80 <= c as int <= 0xFF
    ensures Decode([c]) == None
  {
    assert Lead([c]) == None;
  }
}
