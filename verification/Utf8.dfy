// UTF-8: a Rust `String` is a sequence of Unicode scalar values, which is what a Dafny string is,
// and `String::len` counts the bytes of its encoding.
module Utf8 {
  import opened Basics

  function EncodeChar(c: char): (bs: seq<u8>)
    ensures 1 <= |bs| <= 4
  {
    var x := c as int;
    if x < 0x80 then [x]
    else if x < 0x800 then [0xC0 + x / 0x40, 0x80 + x % 0x40]
    else if x < 0x1_0000 then [0xE0 + x / 0x1000, 0x80 + x / 0x40 % 0x40, 0x80 + x % 0x40]
    else [0xF0 + x / 0x4_0000, 0x80 + x / 0x1000 % 0x40, 0x80 + x / 0x40 % 0x40, 0x80 + x % 0x40]
  }

  function Encode(s: string): (bs: seq<u8>)
    ensures |s| <= |bs|
  {
    if s == [] then [] else EncodeChar(s[0]) + Encode(s[1..])
  }

  predicate Continuation(b: u8) {
    0x80 <= b < 0xC0
  }

  // The payload bits of a byte above its marker.
  function Low(b: u8, marker: u8): int {
    b as int - marker as int
  }

  // The scalar value at the head of the bytes; overlong forms, surrogates and stray bytes have none.
  function DecodeChar(bs: seq<u8>): (r: Option<(char, nat)>)
    ensures r.Some? ==> 1 <= r.value.1 <= |bs|
  {
    if bs == [] then None
    else if bs[0] < 0x80 then Some((bs[0] as char, 1))
    else if 0xC0 <= bs[0] < 0xE0 && |bs| >= 2 && Continuation(bs[1]) then
      var x := Low(bs[0], 0xC0) * 0x40 + Low(bs[1], 0x80);
      if x < 0x80 then None else Some((x as char, 2))
    else if 0xE0 <= bs[0] < 0xF0 && |bs| >= 3 && Continuation(bs[1]) && Continuation(bs[2]) then
      var x := Low(bs[0], 0xE0) * 0x1000 + Low(bs[1], 0x80) * 0x40 + Low(bs[2], 0x80);
      if x < 0x800 || 0xD800 <= x < 0xE000 then None else Some((x as char, 3))
    else if 0xF0 <= bs[0] < 0xF8 && |bs| >= 4 && Continuation(bs[1]) && Continuation(bs[2]) && Continuation(bs[3]) then
      var x := Low(bs[0], 0xF0) * 0x4_0000 + Low(bs[1], 0x80) * 0x1000 + Low(bs[2], 0x80) * 0x40 + Low(bs[3], 0x80);
      if x < 0x1_0000 || x >= 0x11_0000 then None else Some((x as char, 4))
    else None
  }

  function Decode(bs: seq<u8>): Option<string>
    decreases |bs|
  {
    if bs == [] then Some([])
    else match DecodeChar(bs)
      case None => None
      case Some((c, n)) =>
        match Decode(bs[n..])
        case None => None
        case Some(s) => Some([c] + s)
  }

  lemma SixBitValue(x: nat)
    ensures x == x / 0x4_0000 * 0x4_0000 + x / 0x1000 % 0x40 * 0x1000 + x / 0x40 % 0x40 * 0x40 + x % 0x40
  {
    assert x / 0x40 / 0x40 == x / 0x1000 && x / 0x1000 / 0x40 == x / 0x4_0000;
  }

  lemma ThreeByteRoundTrip(c: char, bs: seq<u8>)
    requires 0x800 <= c as int < 0x1_0000 && EncodeChar(c) <= bs
    ensures DecodeChar(bs) == Some((c, 3))
  {
    SixBitValue(c as int);
    assert bs[0] == EncodeChar(c)[0] && bs[1] == EncodeChar(c)[1] && bs[2] == EncodeChar(c)[2];
  }

  lemma FourByteRoundTrip(c: char, bs: seq<u8>)
    requires 0x1_0000 <= c as int && EncodeChar(c) <= bs
    ensures DecodeChar(bs) == Some((c, 4))
  {
    SixBitValue(c as int);
    assert bs[0] == EncodeChar(c)[0] && bs[1] == EncodeChar(c)[1];
    assert bs[2] == EncodeChar(c)[2] && bs[3] == EncodeChar(c)[3];
  }

  lemma CharRoundTrip(c: char, rest: seq<u8>)
    ensures DecodeChar(EncodeChar(c) + rest) == Some((c, |EncodeChar(c)|))
  {
    var bs := EncodeChar(c) + rest;
    if c as int < 0x800 {
      assert bs[0] == EncodeChar(c)[0];
      assert c as int >= 0x80 ==> bs[1] == EncodeChar(c)[1];
    } else if c as int < 0x1_0000 {
      ThreeByteRoundTrip(c, bs);
    } else {
      FourByteRoundTrip(c, bs);
    }
  }

  lemma DecodeFirst(c: char, head: seq<u8>, rest: seq<u8>, s: string)
    requires head == EncodeChar(c) && Decode(rest) == Some(s)
    ensures Decode(head + rest) == Some([c] + s)
  {
    CharRoundTrip(c, rest);
    assert (head + rest)[|head|..] == rest;
  }

  lemma {:induction false} RoundTrip(s: string)
    ensures Decode(Encode(s)) == Some(s)
  {
    if s != [] {
      RoundTrip(s[1..]);
      DecodeFirst(s[0], EncodeChar(s[0]), Encode(s[1..]), s[1..]);
      assert s == [s[0]] + s[1..];
    }
  }

  lemma SixBitDigits(a: nat, b: nat, c: nat, d: nat)
    requires b < 0x40 && c < 0x40 && d < 0x40
    ensures var x := a * 0x4_0000 + b * 0x1000 + c * 0x40 + d;
            x / 0x4_0000 == a && x / 0x1000 % 0x40 == b && x / 0x40 % 0x40 == c && x % 0x40 == d
  {
    var x := a * 0x4_0000 + b * 0x1000 + c * 0x40 + d;
    assert x / 0x40 == a * 0x1000 + b * 0x40 + c;
    assert x / 0x1000 == a * 0x40 + b;
  }

  lemma CharCanonical(bs: seq<u8>, c: char, n: nat)
    requires DecodeChar(bs) == Some((c, n))
    ensures n <= |bs| && EncodeChar(c) == bs[..n]
  {
    if n == 2 {
      SixBitDigits(0, 0, Low(bs[0], 0xC0), Low(bs[1], 0x80));
    } else if n == 3 {
      SixBitDigits(0, Low(bs[0], 0xE0), Low(bs[1], 0x80), Low(bs[2], 0x80));
      assert c as int / 0x1000 == Low(bs[0], 0xE0);
    } else if n == 4 {
      SixBitDigits(Low(bs[0], 0xF0), Low(bs[1], 0x80), Low(bs[2], 0x80), Low(bs[3], 0x80));
    }
  }

  lemma DecodeHead(bs: seq<u8>, s: string) returns (n: nat)
    requires bs != [] && Decode(bs) == Some(s)
    ensures s != [] && 1 <= n <= |bs|
    ensures EncodeChar(s[0]) == bs[..n] && Decode(bs[n..]) == Some(s[1..])
  {
    n := DecodeChar(bs).value.1;
    CharCanonical(bs, DecodeChar(bs).value.0, n);
  }

  // Decoding accepts nothing but encodings: together with RoundTrip, the two are mutual inverses.
  lemma {:induction false} Canonical(bs: seq<u8>, s: string)
    requires Decode(bs) == Some(s)
    ensures Encode(s) == bs
    decreases |bs|
  {
    if bs != [] {
      var n := DecodeHead(bs, s);
      Canonical(bs[n..], s[1..]);
      assert Encode(s) == EncodeChar(s[0]) + Encode(s[1..]);
      assert bs == bs[..n] + bs[n..];
    }
  }
}
