// The text keys of the ordered tables: fixed-width numerals, UUID texts (section 4 of RFC 9562) and the
// keys of node metrics.
module Keys {
  import opened Basics
  import opened Types
  import opened Ordered

  function DigitChar(d: nat): (c: char)
    requires d < 16
  {
    if d < 10 then '0' + d as char else 'a' + (d - 10) as char
  }

  datatype Base = Decimal | Hex

  function Leading(base: Base, n: nat): nat {
    match base
    case Decimal => n / 10
    case Hex => n / 16
  }

  function LastDigit(base: Base, n: nat): (d: nat)
    ensures d < 16
  {
    match base
    case Decimal => n % 10
    case Hex => n % 16
  }

  // `{:0w}` of a number that fits: zero-padded to exactly `w` digits.
  function Numeral(base: Base, n: nat, w: nat): (s: string)
    ensures |s| == w
  {
    if w == 0 then "" else Numeral(base, Leading(base, n), w - 1) + [DigitChar(LastDigit(base, n))]
  }

  function Times(base: Base, p: nat): nat {
    match base
    case Decimal => 10 * p
    case Hex => 16 * p
  }

  // How many numbers `w` digits can tell apart.
  function Capacity(base: Base, w: nat): nat {
    if w == 0 then 1 else Times(base, Capacity(base, w - 1))
  }

  lemma SplitDigit(base: Base, a: nat, b: nat)
    ensures a < b <==> Leading(base, a) < Leading(base, b) || (Leading(base, a) == Leading(base, b) && LastDigit(base, a) < LastDigit(base, b))
    ensures a == b <==> Leading(base, a) == Leading(base, b) && LastDigit(base, a) == LastDigit(base, b)
  {
  }

  lemma LeadingBound(base: Base, n: nat, p: nat)
    requires n < Times(base, p)
    ensures Leading(base, n) < p
  {
  }

  lemma DigitOrder(d: nat, e: nat)
    requires d < 16 && e < 16
    ensures Less([DigitChar(d)], [DigitChar(e)]) <==> d < e
    ensures DigitChar(d) == DigitChar(e) <==> d == e
  {
  }

  lemma LastDigitOrder(p: string, d: char, q: string, e: char)
    requires |p| == |q|
    ensures Less(p + [d], q + [e]) <==> if p == q then d < e else Less(p, q)
    ensures p + [d] == q + [e] <==> p == q && d == e
  {
    if p == q {
      LessPrefix(p, [d], [e]);
    } else {
      LessFixedWidth(p, q, [d], [e]);
    }
    assert (p + [d])[..|p|] == p && (q + [e])[..|p|] == q && (p + [d])[|p|] == d && (q + [e])[|p|] == e;
  }

  // Numerals of one width compare as the numbers do, and only equal numbers have equal numerals.
  lemma {:induction false} NumeralOrder(base: Base, a: nat, b: nat, w: nat)
    requires a < Capacity(base, w) && b < Capacity(base, w)
    ensures Less(Numeral(base, a, w), Numeral(base, b, w)) <==> a < b
    ensures Numeral(base, a, w) == Numeral(base, b, w) <==> a == b
    decreases w
  {
    if w > 0 {
      var q, p := Leading(base, a), Leading(base, b);
      var d, e := LastDigit(base, a), LastDigit(base, b);
      LeadingBound(base, a, Capacity(base, w - 1));
      LeadingBound(base, b, Capacity(base, w - 1));
      NumeralOrder(base, q, p, w - 1);
      SplitDigit(base, a, b);
      DigitOrder(d, e);
      LastDigitOrder(Numeral(base, q, w - 1), DigitChar(d), Numeral(base, p, w - 1), DigitChar(e));
    }
  }

  lemma {:induction false} NoDashes(base: Base, n: nat, w: nat)
    ensures forall c | c in Numeral(base, n, w) :: '0' <= c
    decreases w
  {
    if w > 0 {
      NoDashes(base, Leading(base, n), w - 1);
    }
  }

  // ---- UUID text ----

  function Hyphenated(h: string): (s: string)
    requires |h| == 32
    ensures |s| == 36
  {
    h[..8] + "-" + h[8..12] + "-" + h[12..16] + "-" + h[16..20] + "-" + h[20..]
  }

  function UuidText(id: Uuid): (s: string)
    ensures |s| == 36
  {
    Hyphenated(Numeral(Hex, id, 32))
  }

  lemma HyphenatedInjective(g: string, h: string)
    requires |g| == 32 && |h| == 32
    ensures Hyphenated(g) == Hyphenated(h) <==> g == h
  {
    var a, b := Hyphenated(g), Hyphenated(h);
    assert a[..8] == g[..8] && a[9..13] == g[8..12] && a[14..18] == g[12..16] && a[19..23] == g[16..20] && a[24..] == g[20..];
    assert b[..8] == h[..8] && b[9..13] == h[8..12] && b[14..18] == h[12..16] && b[19..23] == h[16..20] && b[24..] == h[20..];
    assert g == g[..8] + g[8..12] + g[12..16] + g[16..20] + g[20..];
    assert h == h[..8] + h[8..12] + h[12..16] + h[16..20] + h[20..];
  }

  lemma Capacities()
    ensures Capacity(Hex, 32) == 0x1_0000_0000_0000_0000_0000_0000_0000_0000
    ensures Capacity(Decimal, 19) == 10_000_000_000_000_000_000
    ensures Capacity(Decimal, 20) == 100_000_000_000_000_000_000
  {
    assert Capacity(Hex, 10) == 0x100_0000_0000;
    assert Capacity(Hex, 20) == 0x1_0000_0000_0000_0000_0000;
    assert Capacity(Hex, 30) == 0x100_0000_0000_0000_0000_0000_0000_0000;
    assert Capacity(Decimal, 10) == 10_000_000_000;
  }

  lemma UuidTextInjective(a: Uuid, b: Uuid)
    ensures UuidText(a) == UuidText(b) <==> a == b
  {
    Capacities();
    NumeralOrder(Hex, a, b, 32);
    HyphenatedInjective(Numeral(Hex, a, 32), Numeral(Hex, b, 32));
  }

  // ---- Timestamps ----

  function Magnitude(t: int): nat {
    if t < 0 then -t else t
  }

  // `{:020}` of an `i64`: the sign takes one of the twenty places.
  function Timestamp(t: i64): (s: string)
    ensures |s| == 20
  {
    if t < 0 then "-" + Numeral(Decimal, Magnitude(t), 19) else Numeral(Decimal, t, 20)
  }

  function Sequence(n: u64): (s: string)
    ensures |s| == 20
  {
    Numeral(Decimal, n, 20)
  }

  // Timestamps compare as texts the way they do as numbers, except that negative ones come in reverse.
  lemma TimestampOrder(t: i64, u: i64)
    ensures Timestamp(t) == Timestamp(u) <==> t == u
    ensures Less(Timestamp(t), Timestamp(u)) <==> if t < 0 && u < 0 then u < t else t < u
  {
    Capacities();
    if t < 0 && u < 0 {
      NumeralOrder(Decimal, Magnitude(t), Magnitude(u), 19);
      LessPrefix("-", Numeral(Decimal, Magnitude(t), 19), Numeral(Decimal, Magnitude(u), 19));
      assert Timestamp(t)[1..] == Numeral(Decimal, Magnitude(t), 19) && Timestamp(u)[1..] == Numeral(Decimal, Magnitude(u), 19);
    } else if t >= 0 && u >= 0 {
      NumeralOrder(Decimal, t, u, 20);
    } else {
      var n := if t < 0 then u else t;
      NoDashes(Decimal, n, 20);
      assert Numeral(Decimal, n, 20)[0] in Numeral(Decimal, n, 20);
    }
  }

  lemma {:induction false} Zeros(base: Base, zeros: string)
    requires forall c | c in zeros :: c == '0'
    ensures Numeral(base, 0, |zeros|) == zeros
  {
    if zeros != [] {
      var rest := zeros[..|zeros| - 1];
      assert zeros[|zeros| - 1] in zeros && forall c | c in rest :: c in zeros;
      Zeros(base, rest);
      assert zeros == rest + ['0'];
    }
  }

  // Padding a numeral puts zeros in front of it.
  lemma {:induction false} LeadingZeros(base: Base, n: nat, w: nat, zeros: string)
    requires n < Capacity(base, w) && forall c | c in zeros :: c == '0'
    ensures Numeral(base, n, |zeros| + w) == zeros + Numeral(base, n, w)
    decreases w
  {
    if w == 0 {
      Zeros(base, zeros);
    } else {
      LeadingBound(base, n, Capacity(base, w - 1));
      LeadingZeros(base, Leading(base, n), w - 1, zeros);
    }
  }

  // Twenty places, the sign taking one of them.
  lemma TimestampTexts(n: int, w: nat, zeros: string)
    requires 0 < n < Capacity(Decimal, w) && n < 0x8000_0000_0000_0000 && forall c | c in zeros :: c == '0'
    ensures |zeros| + w == 20 ==> Timestamp(n) == Sequence(n) == zeros + Numeral(Decimal, n, w)
    ensures |zeros| + w == 19 ==> Timestamp(-n) == "-" + (zeros + Numeral(Decimal, n, w))
  {
    LeadingZeros(Decimal, n, w, zeros);
  }

  lemma SomeNumerals()
    ensures Numeral(Decimal, 305, 3) == "305" && Numeral(Hex, 0xA7F, 3) == "a7f"
  {
    assert Numeral(Decimal, 3, 1) == "3" && Numeral(Decimal, 30, 2) == "30";
    assert Numeral(Hex, 0xA, 1) == "a" && Numeral(Hex, 0xA7, 2) == "a7";
  }

  // Thirty-two digits in groups of 8, 4, 4, 4 and 12.
  lemma UuidShape(id: Uuid)
    ensures var s := UuidText(id);
            && s[8] == '-' && s[13] == '-' && s[18] == '-' && s[23] == '-'
            && s[..8] + s[9..13] + s[14..18] + s[19..23] + s[24..] == Numeral(Hex, id, 32)
  {
    var h, s := Numeral(Hex, id, 32), UuidText(id);
    assert s[..8] == h[..8] && s[9..13] == h[8..12] && s[14..18] == h[12..16] && s[19..23] == h[16..20] && s[24..] == h[20..];
  }

  // ---- Metric keys ----

  function Prefix(nodeId: Uuid): string {
    UuidText(nodeId) + ":"
  }

  function Suffix(t: i64, n: u64): string {
    Timestamp(t) + ":" + Sequence(n)
  }

  function Key(m: NodeMetric): (s: string) {
    Prefix(m.nodeId) + Suffix(m.recordedAt, m.snapshot.sequence)
  }

  // The numeric order of a node's metrics.
  predicate Before(a: NodeMetric, b: NodeMetric) {
    a.recordedAt < b.recordedAt || (a.recordedAt == b.recordedAt && a.snapshot.sequence < b.snapshot.sequence)
  }

  lemma JoinedOrder(p: string, x: string, q: string, y: string)
    requires |p| == |q|
    ensures Less(p + ":" + x, q + ":" + y) <==> if p == q then Less(x, y) else Less(p, q)
    ensures p + ":" + x == q + ":" + y <==> p == q && x == y
  {
    assert p + ":" + x == p + (":" + x) && q + ":" + y == q + (":" + y);
    assert (p + ":" + x)[..|p|] == p && (q + ":" + y)[..|q|] == q && (p + ":" + x)[|p| + 1..] == x && (q + ":" + y)[|q| + 1..] == y;
    if p == q {
      LessPrefix(p, ":" + x, ":" + y);
      LessPrefix(":", x, y);
    } else {
      LessFixedWidth(p, q, ":" + x, ":" + y);
    }
  }

  lemma SuffixOrder(t: i64, n: u64, u: i64, k: u64)
    ensures Less(Suffix(t, n), Suffix(u, k)) <==> if t == u then n < k else Less(Timestamp(t), Timestamp(u))
    ensures Suffix(t, n) == Suffix(u, k) <==> t == u && n == k
  {
    Capacities();
    TimestampOrder(t, u);
    NumeralOrder(Decimal, n, k, 20);
    JoinedOrder(Timestamp(t), Sequence(n), Timestamp(u), Sequence(k));
  }

  // The `starts_with` test selects exactly the node's own keys.
  lemma PrefixExact(nodeId: Uuid, m: NodeMetric)
    ensures Prefix(nodeId) <= Key(m) <==> m.nodeId == nodeId
  {
    UuidTextInjective(nodeId, m.nodeId);
    assert Key(m)[..37] == Prefix(m.nodeId);
    assert Prefix(nodeId)[..36] == UuidText(nodeId) && Prefix(m.nodeId)[..36] == UuidText(m.nodeId);
  }

  // A key identifies its node, time and sequence number.
  lemma KeyInjective(a: NodeMetric, b: NodeMetric)
    ensures Key(a) == Key(b) <==> a.nodeId == b.nodeId && a.recordedAt == b.recordedAt && a.snapshot.sequence == b.snapshot.sequence
  {
    PrefixExact(a.nodeId, a);
    PrefixExact(a.nodeId, b);
    SuffixOrder(a.recordedAt, a.snapshot.sequence, b.recordedAt, b.snapshot.sequence);
    assert Key(a)[37..] == Suffix(a.recordedAt, a.snapshot.sequence) && Key(b)[37..] == Suffix(b.recordedAt, b.snapshot.sequence);
  }

  // Two metrics of one node with different times or sequence numbers: the keys are in numeric order
  // except exactly when both times are negative and different.
  lemma KeyOrderIsNumericIff(a: NodeMetric, b: NodeMetric)
    requires a.nodeId == b.nodeId && Key(a) != Key(b)
    ensures (Less(Key(a), Key(b)) <==> Before(a, b))
            <==> !(a.recordedAt < 0 && b.recordedAt < 0 && a.recordedAt != b.recordedAt)
  {
    KeyInjective(a, b);
    TimestampOrder(a.recordedAt, b.recordedAt);
    SuffixOrder(a.recordedAt, a.snapshot.sequence, b.recordedAt, b.snapshot.sequence);
    LessPrefix(Prefix(a.nodeId), Suffix(a.recordedAt, a.snapshot.sequence), Suffix(b.recordedAt, b.snapshot.sequence));
  }

  // Two such metrics: one millisecond apart before 1970, the later one sorts first.
  lemma NegativeTimesReverse(a: NodeMetric, b: NodeMetric)
    requires a.nodeId == b.nodeId && a.recordedAt == -2 && b.recordedAt == -1
    ensures Before(a, b) && Less(Key(b), Key(a)) && !Less(Key(a), Key(b))
  {
    KeyInjective(a, b);
    KeyOrderIsNumericIff(a, b);
    LessTotal(Key(a), Key(b));
  }
}
