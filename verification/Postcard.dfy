// The Postcard wire format of the control frames: LEB128 varints, zigzag integers, length-prefixed
// strings, byte strings, sequences and maps, tagged options and enums, plain field concatenation.
//
// An encoder takes the bytes that follow its value, so `PutX(x, rest)` reads "x, then rest".
// A decoder returns the value and the bytes after it.
module Postcard {
  import opened Basics
  import Utf8

  datatype Read<+T> = Got(value: T, rest: seq<u8>) | Bad {
    predicate IsFailure() { Bad? }
    function PropagateFailure<U>(): Read<U> requires Bad? { Bad }
    function Extract(): (T, seq<u8>) requires Got? { (value, rest) }
  }

  // Lengths are `usize`; a 64-bit target can hold no longer value.
  const MAX_USIZE: nat := 0x1_0000_0000_0000_0000

  // ---- Unsigned varints ----

  function PutVarint(n: nat, rest: seq<u8>): (r: seq<u8>)
    ensures |rest| < |r|
  {
    if n < 0x80 then [n] + rest else [0x80 + n % 0x80] + PutVarint(n / 0x80, rest)
  }

  // The bound on a varint of at most `left` bytes whose last possible byte is at most `last`.
  function VarintBound(left: nat, last: u8): nat {
    if left <= 1 then last + 1 else 0x80 * VarintBound(left - 1, last)
  }

  // `left` and `last` are `varint_max` and `max_of_last_byte` of the integer type; bytes that only
  // pad the number with zeros are accepted.
  function GetVarint(bs: seq<u8>, left: nat, last: u8): (r: Read<nat>)
    decreases |bs|
  {
    if left == 0 || bs == [] then Bad
    else if bs[0] < 0x80 then
      if left == 1 && bs[0] > last then Bad else Got(bs[0], bs[1..])
    else
      var (high, rest) :- GetVarint(bs[1..], left - 1, last);
      Got(bs[0] - 0x80 + 0x80 * high, rest)
  }

  lemma {:induction false} GetVarintBound(bs: seq<u8>, left: nat, last: u8)
    ensures GetVarint(bs, left, last).Got? ==> GetVarint(bs, left, last).value < VarintBound(left, last)
    decreases |bs|
  {
    if left > 0 && bs != [] {
      if bs[0] < 0x80 {
        BoundAtLeastOneByte(left, last);
      } else {
        GetVarintBound(bs[1..], left - 1, last);
      }
    }
  }

  lemma BoundAtLeastOneByte(left: nat, last: u8)
    ensures VarintBound(left, last) >= if left <= 1 then last + 1 else 0x80
  {
    if left > 1 { BoundAtLeastOneByte(left - 1, last); }
  }

  lemma {:induction false} VarintRoundTrip(n: nat, left: nat, last: u8, rest: seq<u8>)
    requires 1 <= left && last < 0x80 && n < VarintBound(left, last)
    ensures GetVarint(PutVarint(n, rest), left, last) == Got(n, rest)
  {
    var bs := PutVarint(n, rest);
    if n < 0x80 {
      assert bs[1..] == rest;
    } else {
      assert bs[1..] == PutVarint(n / 0x80, rest);
      VarintRoundTrip(n / 0x80, left - 1, last, rest);
    }
  }

  function PutU16(n: u16, rest: seq<u8>): (r: seq<u8>)
    ensures |rest| < |r|
  {
    PutVarint(n, rest)
  }

  function PutU64(n: u64, rest: seq<u8>): (r: seq<u8>)
    ensures |rest| < |r|
  {
    PutVarint(n, rest)
  }

  function GetU16(bs: seq<u8>): Read<u16> {
    GetVarintBound(bs, 3, 0x03);
    var (n, rest) :- GetVarint(bs, 3, 0x03);
    Got(n, rest)
  }

  function GetU32(bs: seq<u8>): Read<u32> {
    GetVarintBound(bs, 5, 0x0F);
    var (n, rest) :- GetVarint(bs, 5, 0x0F);
    Got(n, rest)
  }

  function GetU64(bs: seq<u8>): Read<u64> {
    GetVarintBound(bs, 10, 0x01);
    var (n, rest) :- GetVarint(bs, 10, 0x01);
    Got(n, rest)
  }

  lemma U16RoundTrip(n: u16, rest: seq<u8>)
    ensures GetU16(PutU16(n, rest)) == Got(n, rest)
  {
    VarintRoundTrip(n, 3, 0x03, rest);
  }

  lemma U32RoundTrip(n: u32, rest: seq<u8>)
    ensures GetU32(PutVarint(n, rest)) == Got(n, rest)
  {
    VarintRoundTrip(n, 5, 0x0F, rest);
  }

  lemma U64RoundTrip(n: u64, rest: seq<u8>)
    ensures GetU64(PutU64(n, rest)) == Got(n, rest)
  {
    VarintRoundTrip(n, 10, 0x01, rest);
  }

  // ---- Signed integers: zigzag ----

  function ZigZag(n: i64): u64 {
    if n >= 0 then 2 * n else -2 * n - 1
  }

  function PutI64(n: i64, rest: seq<u8>): (r: seq<u8>)
    ensures |rest| < |r|
  {
    PutU64(ZigZag(n), rest)
  }

  function GetI64(bs: seq<u8>): Read<i64> {
    var (z, rest) :- GetU64(bs);
    Got(if z % 2 == 0 then z / 2 else -(z / 2) - 1, rest)
  }

  lemma I64RoundTrip(n: i64, rest: seq<u8>)
    ensures GetI64(PutI64(n, rest)) == Got(n, rest)
  {
    U64RoundTrip(ZigZag(n), rest);
  }

  // ---- Raw bytes ----

  function GetRaw(bs: seq<u8>, n: nat): (r: Read<seq<u8>>)
    ensures r.Got? ==> |r.value| == n
  {
    if |bs| < n then Bad else Got(bs[..n], bs[n..])
  }

  lemma RawRoundTrip(raw: seq<u8>, rest: seq<u8>)
    ensures GetRaw(raw + rest, |raw|) == Got(raw, rest)
  {
    assert (raw + rest)[..|raw|] == raw && (raw + rest)[|raw|..] == rest;
  }

  function PutBytes(raw: seq<u8>, rest: seq<u8>): (r: seq<u8>)
    ensures |raw| + |rest| < |r|
  {
    PutVarint(|raw|, raw + rest)
  }

  function GetBytes(bs: seq<u8>): Read<seq<u8>> {
    var (n, rest) :- GetU64(bs);
    GetRaw(rest, n)
  }

  lemma BytesRoundTrip(raw: seq<u8>, rest: seq<u8>)
    requires |raw| < MAX_USIZE
    ensures GetBytes(PutBytes(raw, rest)) == Got(raw, rest)
  {
    U64RoundTrip(|raw|, raw + rest);
    RawRoundTrip(raw, rest);
  }

  function PutString(s: string, rest: seq<u8>): (r: seq<u8>)
    ensures |Utf8.Encode(s)| + |rest| < |r|
  {
    PutBytes(Utf8.Encode(s), rest)
  }

  function GetString(bs: seq<u8>): Read<string> {
    var (raw, rest) :- GetBytes(bs);
    match Utf8.Decode(raw)
    case None => Bad
    case Some(s) => Got(s, rest)
  }

  lemma StringRoundTrip(s: string, rest: seq<u8>)
    requires |PutString(s, rest)| < MAX_USIZE
    ensures GetString(PutString(s, rest)) == Got(s, rest)
  {
    BytesRoundTrip(Utf8.Encode(s), rest);
    Utf8.RoundTrip(s);
  }

  // ---- Fixed-width numbers ----

  function BigEndian(n: nat, width: nat): (bs: seq<u8>)
    ensures |bs| == width
  {
    if width == 0 then [] else BigEndian(n / 0x100, width - 1) + [n % 0x100]
  }

  function FromBigEndian(bs: seq<u8>): nat {
    if bs == [] then 0 else 0x100 * FromBigEndian(bs[..|bs| - 1]) + bs[|bs| - 1]
  }

  function ByteBound(width: nat): nat {
    if width == 0 then 1 else 0x100 * ByteBound(width - 1)
  }

  lemma {:induction false} BigEndianRoundTrip(n: nat, width: nat)
    requires n < ByteBound(width)
    ensures FromBigEndian(BigEndian(n, width)) == n
  {
    if width > 0 {
      BigEndianRoundTrip(n / 0x100, width - 1);
      assert BigEndian(n, width)[..width - 1] == BigEndian(n / 0x100, width - 1);
    }
  }

  lemma {:induction false} FromBigEndianBound(bs: seq<u8>)
    ensures FromBigEndian(bs) < ByteBound(|bs|)
  {
    if bs != [] { FromBigEndianBound(bs[..|bs| - 1]); }
  }

  lemma UuidBound()
    ensures ByteBound(16) == 0x1_0000_0000_0000_0000_0000_0000_0000_0000
  {
    assert ByteBound(8) == 0x1_0000_0000_0000_0000;
    assert ByteBound(12) == 0x1_0000_0000_0000_0000_0000_0000;
  }

  // A UUID is a byte string of exactly sixteen bytes.
  function PutUuid(id: Uuid, rest: seq<u8>): (r: seq<u8>)
    ensures |rest| < |r|
  {
    PutBytes(BigEndian(id, 16), rest)
  }

  function GetUuid(bs: seq<u8>): Read<Uuid> {
    var (raw, rest) :- GetBytes(bs);
    if |raw| != 16 then Bad
    else
      FromBigEndianBound(raw);
      UuidBound();
      Got(FromBigEndian(raw), rest)
  }

  lemma UuidRoundTrip(id: Uuid, rest: seq<u8>)
    ensures GetUuid(PutUuid(id, rest)) == Got(id, rest)
  {
    UuidBound();
    BigEndianRoundTrip(id, 16);
    BytesRoundTrip(BigEndian(id, 16), rest);
  }

  // An `f32` is its bit pattern in little-endian order.
  function PutF32(n: u32, rest: seq<u8>): (r: seq<u8>)
    ensures |rest| < |r|
  {
    [n % 0x100, n / 0x100 % 0x100, n / 0x1_0000 % 0x100, n / 0x100_0000] + rest
  }

  function GetF32(bs: seq<u8>): Read<u32> {
    if |bs| < 4 then Bad
    else
      var n: int := bs[0] as int + 0x100 * bs[1] as int + 0x1_0000 * bs[2] as int + 0x100_0000 * bs[3] as int;
      Got(n, bs[4..])
  }

  lemma F32RoundTrip(n: u32, rest: seq<u8>)
    ensures GetF32(PutF32(n, rest)) == Got(n, rest)
  {
    assert n / 0x1_0000 == n / 0x100 / 0x100 && n / 0x100_0000 == n / 0x100 / 0x100 / 0x100;
    assert PutF32(n, rest)[4..] == rest;
  }

  // ---- Options ----

  function PutOption<T>(o: Option<T>, put: (T, seq<u8>) -> seq<u8>, rest: seq<u8>): seq<u8> {
    match o
    case None => [0] + rest
    case Some(x) => [1] + put(x, rest)
  }

  function GetOption<T>(bs: seq<u8>, get: seq<u8> -> Read<T>): Read<Option<T>> {
    if bs == [] then Bad
    else if bs[0] == 0 then Got(None, bs[1..])
    else if bs[0] == 1 then
      var (x, rest) :- get(bs[1..]);
      Got(Some(x), rest)
    else Bad
  }

  lemma OptionRoundTrip<T>(o: Option<T>, put: (T, seq<u8>) -> seq<u8>, get: seq<u8> -> Read<T>, rest: seq<u8>)
    requires o.Some? ==> get(put(o.value, rest)) == Got(o.value, rest)
    ensures GetOption(PutOption(o, put, rest), get) == Got(o, rest)
  {
    assert PutOption(o, put, rest)[1..] == if o.None? then rest else put(o.value, rest);
  }
}
