// Service names and metadata limits of crates/libongrok.
module Validation {
  import opened Basics
  import opened Types
  import Ordered
  import Utf8

  const MAX_ENTRIES: nat := 32
  const MAX_KEY_LEN: nat := 64
  const MAX_VALUE_LEN: nat := 256
  const MAX_TOTAL_BYTES: nat := 4096

  datatype ValidationError =
    | TooManyMetadataEntries
    | InvalidMetadataKey(key: string)
    | MetadataValueTooLong(key: string)
    | MetadataTooLarge

  predicate LowerOrDigit(c: char) {
    'a' <= c <= 'z' || '0' <= c <= '9'
  }

  // Only ASCII passes the character test, so counting characters or bytes comes to the same.
  predicate ValidServiceName(name: string) {
    && 0 < |name| <= 63
    && (forall c | c in name :: LowerOrDigit(c) || c == '-')
    && name[0] != '-' && name[|name| - 1] != '-'
  }

  predicate ValidKey(key: string) {
    && 0 < |key| <= MAX_KEY_LEN
    && forall c | c in key :: LowerOrDigit(c) || c == '-' || c == '_' || c == '.'
  }

  function EntryBytes(key: string, value: string): nat {
    |Utf8.Encode(key)| + |Utf8.Encode(value)|
  }

  // `for (key, value) in &map`: the entries in key order.
  function Entries(m: Metadata): (es: seq<(string, string)>)
    ensures |es| == |m|
  {
    var keys := Ordered.Sorted(m.Keys);
    seq(|keys|, i requires 0 <= i < |keys| => (keys[i], m[keys[i]]))
  }

  // The bytes of the first `n` entries.
  function TotalBytes(es: seq<(string, string)>, n: nat): nat
    requires n <= |es|
  {
    if n == 0 then 0 else TotalBytes(es, n - 1) + EntryBytes(es[n - 1].0, es[n - 1].1)
  }

  predicate ValidEntry(key: string, value: string) {
    ValidKey(key) && |Utf8.Encode(value)| <= MAX_VALUE_LEN
  }

  predicate ValidMetadata(m: Metadata) {
    && |m| <= MAX_ENTRIES
    && (forall k | k in m :: ValidEntry(k, m[k]))
    && TotalBytes(Entries(m), |m|) <= MAX_TOTAL_BYTES
  }

  // The limits: names of 1 to 63 letters, digits and inner hyphens; keys of 1 to 64 of those, underscores and
  // dots; values of up to 256 bytes; 32 entries and 4096 bytes in all.
  lemma NameLimits(c: char)
    ensures ValidServiceName([c]) <==> c in "abcdefghijklmnopqrstuvwxyz0123456789"
    ensures ValidServiceName(['a', c, 'a']) <==> c in "abcdefghijklmnopqrstuvwxyz0123456789-"
    ensures !ValidServiceName(['a', '-']) && !ValidServiceName(['-', 'a'])
  {
    var one, three := [c], ['a', c, 'a'];
    assert one[0] in one && three[1] in three;
    assert forall x | x in one :: x == c;
    assert forall x | x in three :: x == c || x == 'a';
  }

  lemma NameLengths(n: nat)
    ensures ValidServiceName(seq(n, i => 'a')) <==> 1 <= n <= 63
    ensures ValidKey(seq(n, i => 'a')) <==> 1 <= n <= 64
  {
  }

  lemma KeyLimits(c: char)
    ensures ValidKey([c]) <==> c in "abcdefghijklmnopqrstuvwxyz0123456789-_."
  {
    var one := [c];
    assert one[0] in one && forall x | x in one :: x == c;
  }

  lemma MetadataLimits(m: Metadata)
    ensures ValidMetadata(m) <==>
              && |m| <= 32
              && (forall k | k in m :: ValidKey(k) && |Utf8.Encode(m[k])| <= 256)
              && TotalBytes(Entries(m), |m|) <= 4096
  {
  }

  // The total counts every key and value, in bytes.
  lemma OneMoreEntry(es: seq<(string, string)>, n: nat)
    requires n < |es|
    ensures TotalBytes(es, n + 1) == TotalBytes(es, n) + |Utf8.Encode(es[n].0)| + |Utf8.Encode(es[n].1)|
    ensures TotalBytes(es, 0) == 0
  {
  }

  lemma {:induction false} AsciiLength(key: string)
    requires forall c | c in key :: c as int < 128
    ensures |Utf8.Encode(key)| == |key|
  {
    if key != [] {
      assert key[0] in key && forall c | c in key[1..] :: c in key;
      AsciiLength(key[1..]);
    }
  }

  ghost predicate FirstInvalid(m: Metadata, k: string) {
    && k in m && !ValidEntry(k, m[k])
    && forall j | j in m && Ordered.Less(j, k) :: ValidEntry(j, m[j])
  }

  lemma EntryBytesBound(key: string, value: string)
    requires ValidEntry(key, value)
    ensures EntryBytes(key, value) <= MAX_KEY_LEN + MAX_VALUE_LEN
  {
    AsciiLength(key);
  }

  // What each outcome says: the first offending key in key order decides the error, and the total is
  // compared only when every entry is valid.
  ghost predicate Explains(m: Metadata, r: Option<ValidationError>) {
    match r
    case None => ValidMetadata(m)
    case Some(TooManyMetadataEntries) => |m| > MAX_ENTRIES
    case Some(InvalidMetadataKey(k)) => |m| <= MAX_ENTRIES && FirstInvalid(m, k) && !ValidKey(k)
    case Some(MetadataValueTooLong(k)) => |m| <= MAX_ENTRIES && FirstInvalid(m, k) && ValidKey(k)
    case Some(MetadataTooLarge) =>
      && |m| <= MAX_ENTRIES && (forall k | k in m :: ValidEntry(k, m[k]))
      && TotalBytes(Entries(m), |m|) > MAX_TOTAL_BYTES
  }

  lemma AcceptedIffValid(m: Metadata, r: Option<ValidationError>)
    requires Explains(m, r)
    ensures r.None? <==> ValidMetadata(m)
  {
  }

  lemma EntriesCover(m: Metadata, k: string) returns (i: nat)
    requires k in m
    ensures i < |Entries(m)| && Entries(m)[i] == (k, m[k])
  {
    var keys := Ordered.Sorted(m.Keys);
    assert k in keys;
    i :| 0 <= i < |keys| && keys[i] == k;
  }

  lemma EntriesAscend(m: Metadata, i: nat, j: nat)
    requires i < j < |Entries(m)|
    ensures Ordered.Less(Entries(m)[i].0, Entries(m)[j].0)
  {
    var keys := Ordered.Sorted(m.Keys);
    assert Ordered.Less(keys[i], keys[j]);
  }

  function Offence(key: string): ValidationError {
    if ValidKey(key) then MetadataValueTooLong(key) else InvalidMetadataKey(key)
  }

  // In key order, every key below the first invalid one has been seen and is valid.
  lemma InvalidEntryExplains(m: Metadata, es: seq<(string, string)>, i: nat)
    requires |m| <= MAX_ENTRIES && es == Entries(m) && i < |es| && !ValidEntry(es[i].0, es[i].1)
    requires forall j | 0 <= j < i :: ValidEntry(es[j].0, es[j].1)
    ensures Explains(m, Some(Offence(es[i].0)))
  {
    var key := es[i].0;
    forall k | k in m && Ordered.Less(k, key) ensures ValidEntry(k, m[k]) {
      var j := EntriesCover(m, k);
      if j >= i {
        if j > i { EntriesAscend(m, i, j); Ordered.LessTransitive(k, key, k); }
        Ordered.LessIrreflexive(k);
      }
    }
  }

  function SizeVerdict(total: nat): Option<ValidationError> {
    if total > MAX_TOTAL_BYTES then Some(MetadataTooLarge) else None
  }

  lemma TotalExplains(m: Metadata, es: seq<(string, string)>, total: nat)
    requires |m| <= MAX_ENTRIES && es == Entries(m) && total == TotalBytes(es, |es|)
    requires forall j | 0 <= j < |es| :: ValidEntry(es[j].0, es[j].1)
    ensures Explains(m, SizeVerdict(total))
  {
    forall k | k in m ensures ValidEntry(k, m[k]) {
      var i := EntriesCover(m, k);
    }
  }

  // The first n entries are valid, and their total is far below where `saturating_add` would saturate.
  ghost predicate Scanned(es: seq<(string, string)>, n: nat, total: nat)
    requires n <= |es|
  {
    && (forall j | 0 <= j < n :: ValidEntry(es[j].0, es[j].1))
    && total == TotalBytes(es, n) <= n * (MAX_KEY_LEN + MAX_VALUE_LEN)
  }

  lemma ScanStep(es: seq<(string, string)>, n: nat, total: nat)
    requires n < |es| && Scanned(es, n, total) && ValidEntry(es[n].0, es[n].1)
    ensures Scanned(es, n + 1, total + EntryBytes(es[n].0, es[n].1))
  {
    EntryBytesBound(es[n].0, es[n].1);
  }

  method ValidateMetadata(m: Metadata) returns (r: Option<ValidationError>)
    ensures Explains(m, r)
  {
    if |m| > MAX_ENTRIES {
      return Some(TooManyMetadataEntries);
    }
    var es := Entries(m);
    var total: nat := 0;
    for i := 0 to |es|
      invariant Scanned(es, i, total)
    {
      var (key, value) := es[i];
      if !ValidEntry(key, value) {
        InvalidEntryExplains(m, es, i);
        return Some(Offence(key));
      }
      ScanStep(es, i, total);
      total := total + EntryBytes(key, value);
    }
    TotalExplains(m, es, total);
    return SizeVerdict(total);
  }
}
