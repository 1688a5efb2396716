// `strip_hop_by_hop_headers` of crates/ongrok-relay-server/src/ingress.rs (section 7.6.1 of RFC 9110).
module Headers {
  import R = Routing

  // Field names are in lower case, as the header map keeps them; each has its values in order.
  type Fields = map<string, seq<string>>

  const CONNECTION := "connection"

  const FIXED: seq<string> := [
    CONNECTION, "keep-alive", "proxy-authenticate", "proxy-authorization", "te", "trailer", "transfer-encoding", "upgrade"]

  const MAX_NAME_LEN: nat := 65535

  // `HeaderValue::to_str` succeeds.
  predicate Readable(value: string) {
    forall c | c in value :: ' ' <= c <= '~' || c == '\t'
  }

  predicate Blank(c: char) {
    c == ' ' || c == '\t'
  }

  predicate Blanks(s: string) {
    forall c | c in s :: Blank(c)
  }

  predicate TokenChar(c: char) {
    || 'a' <= c <= 'z' || 'A' <= c <= 'Z' || '0' <= c <= '9'
    || c in "!#$%&'*+-.^_`|~"
  }

  // `parse::<HeaderName>` succeeds.
  predicate Token(name: string) {
    0 < |name| <= MAX_NAME_LEN && forall c | c in name :: TokenChar(c)
  }

  // A field name is made of the printable characters without the delimiters (section 5.6.2 of RFC 9110).
  lemma TokenChars(c: char)
    ensures TokenChar(c) <==> '!' <= c <= '~' && c !in "\"(),/:;<=>?@[\\]{}"
  {
  }

  lemma TokenLengths(n: nat)
    ensures Token(seq(n, i => 'a')) <==> 1 <= n <= 65535
  {
    var name := seq(n, i => 'a');
    assert forall c | c in name :: c == 'a';
  }

  // Readable text is the printable ASCII characters, the space and the tab; trimming takes off those of them
  // that are white space.
  lemma ReadableChars(c: char)
    ensures Readable([c]) <==> (32 <= c as int < 128 && c as int != 127) || c as int == 9
    ensures Blank(c) <==> Readable([c]) && R.WhiteSpace(c)
  {
    var one := [c];
    assert one[0] in one && forall x | x in one :: x == c;
  }

  lemma FixedNames(name: string)
    ensures name in FIXED <==>
              || name == "connection" || name == "keep-alive" || name == "proxy-authenticate" || name == "proxy-authorization"
              || name == "te" || name == "trailer" || name == "transfer-encoding" || name == "upgrade"
  {
    assert FIXED[0] == "connection" && FIXED[1] == "keep-alive" && FIXED[2] == "proxy-authenticate" && FIXED[3] == "proxy-authorization";
    assert FIXED[4] == "te" && FIXED[5] == "trailer" && FIXED[6] == "transfer-encoding" && FIXED[7] == "upgrade";
  }

  // ---- The names a Connection field lists ----

  // The first comma, or the end.
  function Comma(s: string): (j: nat)
    ensures j <= |s| && (forall k | 0 <= k < j :: s[k] != ',') && (j < |s| ==> s[j] == ',')
  {
    if s == [] || s[0] == ',' then 0 else 1 + Comma(s[1..])
  }

  // `split(',')`.
  function Split(s: string): seq<string>
    decreases |s|
  {
    var j := Comma(s);
    if j == |s| then [s] else [s[..j]] + Split(s[j + 1..])
  }

  function TrimStart(s: string): string {
    if s != [] && Blank(s[0]) then TrimStart(s[1..]) else s
  }

  function TrimEnd(s: string): string {
    if s != [] && Blank(s[|s| - 1]) then TrimEnd(s[..|s| - 1]) else s
  }

  // `trim` on readable text, whose only white space is the space and the tab.
  function Trim(s: string): string {
    TrimEnd(TrimStart(s))
  }

  function FlatMap<A, B>(f: A -> seq<B>, xs: seq<A>): seq<B> {
    if xs == [] then [] else f(xs[0]) + FlatMap(f, xs[1..])
  }

  function NameIn(piece: string): seq<string> {
    if Token(Trim(piece)) then [R.Lower(Trim(piece))] else []
  }

  function NamesIn(value: string): seq<string> {
    if Readable(value) then FlatMap(NameIn, Split(value)) else []
  }

  function ConnectionNames(values: seq<string>): seq<string> {
    FlatMap(NamesIn, values)
  }

  function ValuesOf(fields: Fields, name: string): seq<string> {
    if name in fields then fields[name] else []
  }

  ghost function Without(fields: Fields, names: seq<string>): Fields {
    map n | n in fields && n !in names :: fields[n]
  }

  // What stripping leaves.
  ghost function Stripped(fields: Fields): Fields {
    Without(Without(fields, ConnectionNames(ValuesOf(fields, CONNECTION))), FIXED)
  }

  lemma WithoutMore(fields: Fields, names: seq<string>, i: nat)
    requires i < |names|
    ensures Without(fields, names[..i]) - {names[i]} == Without(fields, names[..i + 1])
  {
    assert names[..i + 1] == names[..i] + [names[i]];
  }

  class HeaderMap {
    var fields: Fields

    constructor (initial: Fields)
      ensures fields == initial
    {
      fields := initial;
    }

    method Remove(name: string)
      modifies this
      ensures fields == old(fields) - {name}
    {
      fields := fields - {name};
    }

    // The listed names are collected before anything is removed.
    method StripHopByHopHeaders()
      modifies this
      ensures fields == Stripped(old(fields))
    {
      var names, fixed := ConnectionNames(ValuesOf(fields, CONNECTION)), FIXED;
      ghost var before := fields;
      for i := 0 to |names|
        invariant fields == Without(before, names[..i])
      {
        WithoutMore(before, names, i);
        Remove(names[i]);
      }
      assert names[..|names|] == names;
      ghost var between := fields;
      for i := 0 to |fixed|
        invariant fields == Without(between, fixed[..i])
      {
        WithoutMore(between, fixed, i);
        Remove(fixed[i]);
      }
      assert fixed[..|fixed|] == fixed;
    }
  }

  // ---- What the listed names are, without splitting or trimming ----

  // `seg` lies between two commas, or an end and a comma.
  ghost predicate Segment(s: string, before: string, seg: string, after: string) {
    && s == before + seg + after && ',' !in seg
    && (before == [] || before[|before| - 1] == ',')
    && (after == [] || after[0] == ',')
  }

  // The token, in any case, with nothing but blanks around it up to the commas.
  ghost predicate ListedIn(value: string, name: string) {
    exists before: string, seg: string, after: string, pre: string, token: string, post: string ::
      Segment(value, before, seg, after) && Padded(seg, pre, token, post) && R.Lower(token) == name
  }

  ghost predicate Padded(seg: string, pre: string, token: string, post: string) {
    seg == pre + token + post && Blanks(pre) && Blanks(post) && Token(token)
  }

  ghost predicate Listed(fields: Fields, name: string) {
    CONNECTION in fields && exists v | v in fields[CONNECTION] :: Readable(v) && ListedIn(v, name)
  }

  lemma {:induction false} SplitGivesSegment(s: string, seg: string) returns (before: string, after: string)
    requires seg in Split(s)
    ensures Segment(s, before, seg, after)
    decreases |s|
  {
    var c := Comma(s);
    if c == |s| || seg == s[..c] {
      before, after := [], s[c..];
    } else {
      var rest := s[c + 1..];
      var b, a := SplitGivesSegment(rest, seg);
      before, after := s[..c + 1] + b, a;
      Regroup(s, c + 1, b, seg, a);
    }
  }

  lemma Regroup(s: string, n: nat, b: string, seg: string, a: string)
    requires n <= |s| && s[n..] == b + seg + a
    ensures s == s[..n] + b + seg + a
  {
    assert s == s[..n] + s[n..];
  }

  lemma FirstSegment(seg: string, after: string)
    requires ',' !in seg && (after == [] || after[0] == ',')
    ensures Comma(seg + after) == |seg| && (seg + after)[..|seg|] == seg
  {
    var s := seg + after;
    assert forall k | 0 <= k < |seg| :: s[k] == seg[k] && seg[k] in seg;
    assert after != [] ==> s[|seg|] == ',';
  }

  lemma LaterSegment(s: string, before: string, seg: string, after: string)
    requires Segment(s, before, seg, after) && before != []
    ensures Comma(s) < |before| && Segment(s[Comma(s) + 1..], before[Comma(s) + 1..], seg, after)
  {
    assert s[|before| - 1] == ',';
    assert s == before + (seg + after);
    assert s[Comma(s) + 1..] == before[Comma(s) + 1..] + (seg + after);
    assert before[Comma(s) + 1..] + (seg + after) == before[Comma(s) + 1..] + seg + after;
  }

  lemma SplitHas(s: string)
    ensures var c := Comma(s);
            s[..c] in Split(s) && (c < |s| ==> forall x | x in Split(s[c + 1..]) :: x in Split(s))
  {
    var c := Comma(s);
    if c == |s| {
      assert s[..c] == s;
    }
  }

  lemma {:induction false} SegmentIsSplit(s: string, before: string, seg: string, after: string)
    requires Segment(s, before, seg, after)
    ensures seg in Split(s)
    decreases |s|
  {
    SplitHas(s);
    if before == [] {
      assert s == seg + after;
      FirstSegment(seg, after);
    } else {
      var c := Comma(s);
      LaterSegment(s, before, seg, after);
      SegmentIsSplit(s[c + 1..], before[c + 1..], seg, after);
    }
  }

  lemma {:induction false} TrimStartDrops(pre: string, rest: string)
    requires Blanks(pre) && (rest == [] || !Blank(rest[0]))
    ensures TrimStart(pre + rest) == rest
    decreases |pre|
  {
    if pre == [] {
      assert pre + rest == rest;
    } else {
      assert (pre + rest)[0] in pre && (pre + rest)[1..] == pre[1..] + rest;
      TrimStartDrops(pre[1..], rest);
    }
  }

  lemma {:induction false} TrimEndDrops(rest: string, post: string)
    requires Blanks(post) && (rest == [] || !Blank(rest[|rest| - 1]))
    ensures TrimEnd(rest + post) == rest
    decreases |post|
  {
    if post == [] {
      assert rest + post == rest;
    } else {
      var all := rest + post;
      assert all[|all| - 1] in post && all[..|all| - 1] == rest + post[..|post| - 1];
      TrimEndDrops(rest, post[..|post| - 1]);
    }
  }

  lemma TrimsToToken(pre: string, token: string, post: string)
    requires Blanks(pre) && Blanks(post) && Token(token)
    ensures Trim(pre + token + post) == token
  {
    var rest := token + post;
    assert token[0] in token && token[|token| - 1] in token;
    assert rest[0] == token[0];
    assert pre + token + post == pre + rest;
    TrimStartDrops(pre, rest);
    TrimEndDrops(token, post);
  }

  lemma {:induction false} FlatMapAre<A, B>(f: A -> seq<B>, xs: seq<A>, y: B)
    ensures y in FlatMap(f, xs) <==> exists x | x in xs :: y in f(x)
    decreases |xs|
  {
    if xs != [] {
      FlatMapAre(f, xs[1..], y);
      assert xs == [xs[0]] + xs[1..];
    }
  }

  lemma {:induction false} TrimStartPads(s: string) returns (pre: string)
    ensures s == pre + TrimStart(s) && Blanks(pre)
    decreases |s|
  {
    pre := [];
    if s != [] && Blank(s[0]) {
      var p := TrimStartPads(s[1..]);
      pre := [s[0]] + p;
      assert s == [s[0]] + s[1..];
    }
  }

  lemma {:induction false} TrimEndPads(s: string) returns (post: string)
    ensures s == TrimEnd(s) + post && Blanks(post)
    decreases |s|
  {
    post := [];
    if s != [] && Blank(s[|s| - 1]) {
      var p := TrimEndPads(s[..|s| - 1]);
      post := p + [s[|s| - 1]];
      assert s == s[..|s| - 1] + [s[|s| - 1]];
    }
  }

  lemma TrimPads(seg: string) returns (pre: string, post: string)
    ensures seg == pre + Trim(seg) + post && Blanks(pre) && Blanks(post)
  {
    pre := TrimStartPads(seg);
    post := TrimEndPads(TrimStart(seg));
  }

  lemma PieceIsListed(value: string, seg: string, name: string)
    requires seg in Split(value) && name in NameIn(seg)
    ensures ListedIn(value, name)
  {
    var before, after := SplitGivesSegment(value, seg);
    var pre, post := TrimPads(seg);
    assert Padded(seg, pre, Trim(seg), post);
  }

  lemma ListedIsPiece(value: string, name: string) returns (seg: string)
    requires ListedIn(value, name)
    ensures seg in Split(value) && name in NameIn(seg)
  {
    var before: string, s: string, after: string, pre: string, token: string, post: string :|
      Segment(value, before, s, after) && Padded(s, pre, token, post) && R.Lower(token) == name;
    SegmentIsSplit(value, before, s, after);
    TrimsToToken(pre, token, post);
    seg := s;
  }

  lemma ListedInIff(value: string, name: string)
    ensures name in FlatMap(NameIn, Split(value)) <==> ListedIn(value, name)
  {
    var pieces := Split(value);
    FlatMapAre(NameIn, pieces, name);
    if seg :| seg in pieces && name in NameIn(seg) {
      PieceIsListed(value, seg, name);
    }
    if ListedIn(value, name) {
      var seg := ListedIsPiece(value, name);
    }
  }

  // Stripping removes the fixed names and exactly the names listed, in any case and spacing, by some
  // readable Connection value; every other field keeps all its values in order.
  lemma StrippedIff(fields: Fields, name: string)
    ensures name in Stripped(fields) <==> name in fields && name !in FIXED && !Listed(fields, name)
    ensures name in Stripped(fields) ==> Stripped(fields)[name] == fields[name]
  {
    FlatMapAre(NamesIn, ValuesOf(fields, CONNECTION), name);
    forall v: string ensures name in NamesIn(v) <==> Readable(v) && ListedIn(v, name) {
      ListedInIff(v, name);
    }
    assert name in ConnectionNames(ValuesOf(fields, CONNECTION)) <==> Listed(fields, name);
  }

  lemma StrippingIsIdempotent(fields: Fields)
    ensures Stripped(Stripped(fields)) == Stripped(fields)
  {
    assert CONNECTION == FIXED[0];
    assert ValuesOf(Stripped(fields), CONNECTION) == [];
  }
}
