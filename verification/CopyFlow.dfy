// One direction of a relayed connection: two copy loops in a row, from a socket into a stream and from
// that stream into another socket, with any chunking, half-close, and streams that break.
module CopyFlow {
  import opened Basics

  type Bytes = seq<u8>

  // Shut: the writer ended it after its last byte. Cut: it ended early, by a drop or a broken connection.
  // A reader cannot tell the two apart: what it sees is `AtEnd`.
  datatype End = Open | Shut | Cut

  // What is in flight between a writer and a reader.
  datatype Pipe = Pipe(bytes: Bytes, end: End)

  predicate AtEnd(p: Pipe) {
    !p.end.Open?
  }

  // `sent` is all the first endpoint ever wrote; `sink.bytes` is all that was handed to the last one;
  // `preamble` are control bytes written to the stream that its reader has yet to take off.
  datatype Flow = Flow(
    sent: Bytes, source: Pipe, buf1: Bytes, middle: Pipe, buf2: Bytes, sink: Pipe, preamble: Bytes)

  // The steps of the two copy loops.
  datatype Move = Reads1(n: nat) | Writes1(n: nat) | Shuts1 | Reads2(n: nat) | Writes2(n: nat) | Shuts2

  // A copy loop reads into its buffer, writes out of it, and shuts its output down once its input has
  // ended and its buffer is empty. An input that broke may look like one that ended.
  function Moved(f: Flow, m: Move): Option<Flow> {
    match m
    case Reads1(n) =>
      if 0 < n <= |f.source.bytes| then
        Some(f.(source := f.source.(bytes := f.source.bytes[n..]), buf1 := f.buf1 + f.source.bytes[..n]))
      else None
    case Writes1(n) =>
      if 0 < n <= |f.buf1| && f.middle.end.Open? then
        Some(f.(buf1 := f.buf1[n..], middle := f.middle.(bytes := f.middle.bytes + f.buf1[..n])))
      else None
    case Shuts1 =>
      if f.buf1 == [] && f.source.bytes == [] && !f.source.end.Open? && f.middle.end.Open? then
        Some(f.(middle := f.middle.(end := f.source.end)))
      else None
    case Reads2(n) =>
      if 0 < n <= |f.middle.bytes| then
        Some(f.(middle := f.middle.(bytes := f.middle.bytes[n..]), buf2 := f.buf2 + f.middle.bytes[..n]))
      else None
    case Writes2(n) =>
      if 0 < n <= |f.buf2| && f.sink.end.Open? then
        Some(f.(buf2 := f.buf2[n..], sink := f.sink.(bytes := f.sink.bytes + f.buf2[..n])))
      else None
    case Shuts2 =>
      if f.buf2 == [] && f.middle.bytes == [] && !f.middle.end.Open? && f.sink.end.Open? then
        Some(f.(sink := f.sink.(end := f.middle.end)))
      else None
  }

  predicate SecondStage(m: Move) {
    m.Reads2? || m.Writes2? || m.Shuts2?
  }

  function Cutoff(p: Pipe): Pipe {
    if p.end.Open? then p.(end := Cut) else p
  }

  // A broken connection keeps some prefix of what was in flight.
  function Broken(p: Pipe, k: nat): Pipe {
    Pipe(if k < |p.bytes| then p.bytes[..k] else p.bytes, Cut)
  }

  // A pipe that has delivered everything and its end has nothing left to break.
  predicate Drained(p: Pipe) {
    p == Pipe([], Shut)
  }

  function Sent(f: Flow, data: Bytes): Flow {
    f.(sent := f.sent + data, source := f.source.(bytes := f.source.bytes + data))
  }

  // Control bytes are handed to the stream's writer.
  function Put(f: Flow, control: Bytes): Flow {
    f.(buf1 := control, preamble := control)
  }

  function Ended(f: Flow): Flow {
    f.(source := f.source.(end := Shut))
  }

  predicate Breakable(f: Flow, source: bool) {
    source ==> !Drained(f.source)
  }

  function Broke(f: Flow, source: bool, kept: nat): Flow {
    if source then f.(source := Broken(f.source, kept)) else f.(middle := Broken(f.middle, kept))
  }

  // ---- Conservation ----

  ghost function Arrived(f: Flow): Bytes {
    f.sink.bytes + f.buf2 + f.middle.bytes
  }

  ghost function Everything(f: Flow): Bytes {
    Arrived(f) + f.buf1 + f.source.bytes
  }

  // No byte is lost, made up or reordered; only a cut may drop a suffix.
  ghost predicate Conserved(f: Flow) {
    && (match f.middle.end
        case Open => (if f.source.end.Cut? then Everything(f) <= f.preamble + f.sent else Everything(f) == f.preamble + f.sent)
        case Shut => Arrived(f) == f.preamble + f.sent && Drained(f.source) && f.buf1 == []
        case Cut => Arrived(f) <= f.preamble + f.sent)
    && (f.sink.end.Shut? ==>
          && f.preamble == [] && f.sink.bytes == f.sent && Drained(f.source)
          && f.buf1 == [] && f.buf2 == [] && f.middle.bytes == [] && !f.middle.end.Open?)
    && (f.preamble != [] ==> f.sink.bytes == [] && f.buf2 == [])
  }

  lemma ReadMoves(a: Bytes, b: Bytes, c: Bytes, n: nat)
    requires n <= |c|
    ensures a + (b + c[..n]) + c[n..] == a + b + c
  {
  }

  lemma ReadsKeepConserved(f: Flow, m: Move, g: Flow)
    requires Conserved(f) && Moved(f, m) == Some(g) && (SecondStage(m) ==> f.preamble == []) && (m.Reads1? || m.Reads2?)
    ensures Conserved(g)
  {
    if m.Reads1? {
      ReadMoves(Arrived(f), f.buf1, f.source.bytes, m.n);
    } else {
      ReadMoves(f.sink.bytes, f.buf2, f.middle.bytes, m.n);
      assert Arrived(g) == Arrived(f);
    }
  }

  lemma WritesKeepConserved(f: Flow, m: Move, g: Flow)
    requires Conserved(f) && Moved(f, m) == Some(g) && (SecondStage(m) ==> f.preamble == []) && (m.Writes1? || m.Writes2?)
    ensures Conserved(g)
  {
    if m.Writes1? {
      assert Arrived(g) == Arrived(f) + f.buf1[..m.n];
      assert Arrived(f) + f.buf1[..m.n] + f.buf1[m.n..] == Arrived(f) + f.buf1;
    } else {
      assert f.sink.bytes + f.buf2[..m.n] + f.buf2[m.n..] == f.sink.bytes + f.buf2;
    }
  }

  lemma ShutsKeepConserved(f: Flow, m: Move, g: Flow)
    requires Conserved(f) && Moved(f, m) == Some(g) && (SecondStage(m) ==> f.preamble == []) && (m.Shuts1? || m.Shuts2?)
    ensures Conserved(g)
  {
    if m.Shuts1? {
      assert Everything(f) == Arrived(f);
    } else {
      assert Arrived(f) == f.sink.bytes;
    }
  }

  lemma MoveKeepsConserved(f: Flow, m: Move, g: Flow)
    requires Conserved(f) && Moved(f, m) == Some(g) && (SecondStage(m) ==> f.preamble == [])
    ensures Conserved(g)
  {
    match m
    case Reads1(_) => ReadsKeepConserved(f, m, g);
    case Reads2(_) => ReadsKeepConserved(f, m, g);
    case Writes1(_) => WritesKeepConserved(f, m, g);
    case Writes2(_) => WritesKeepConserved(f, m, g);
    case Shuts1 => ShutsKeepConserved(f, m, g);
    case Shuts2 => ShutsKeepConserved(f, m, g);
  }

  lemma SendKeepsConserved(f: Flow, data: Bytes)
    requires Conserved(f) && f.source.end.Open?
    ensures Conserved(Sent(f, data))
  {
    assert Everything(Sent(f, data)) == Everything(f) + data;
    assert f.preamble + (f.sent + data) == f.preamble + f.sent + data;
  }

  lemma CutsKeepConserved(f: Flow)
    requires Conserved(f)
    ensures Conserved(f.(middle := Cutoff(f.middle))) && Conserved(f.(sink := Cutoff(f.sink)))
  {
    assert Arrived(f) <= Everything(f);
  }

  lemma BreakKeepsConserved(f: Flow, source: bool, kept: nat)
    requires Conserved(f) && Breakable(f, source)
    ensures Conserved(Broke(f, source, kept))
  {
    var g := Broke(f, source, kept);
    assert source ==> Everything(g) <= Everything(f);
    assert Arrived(g) <= Arrived(f) <= Everything(f);
  }

  // Taking the control bytes off the front of the stream.
  lemma TakeKeepsConserved(f: Flow, rest: Bytes)
    requires Conserved(f) && f.preamble != [] && f.middle.bytes == f.preamble + rest
    ensures Conserved(f.(middle := f.middle.(bytes := rest), preamble := []))
  {
    var g := f.(middle := f.middle.(bytes := rest), preamble := []);
    assert Arrived(f) == f.preamble + Arrived(g);
    assert Everything(f) == f.preamble + Everything(g);
    assert f.preamble + f.sent == f.preamble + g.sent;
    assert [] + f.sent == f.sent;
    forall x: Bytes, y: Bytes | f.preamble + x <= f.preamble + y ensures x <= y { PrefixCancel(f.preamble, x, y); }
    forall x: Bytes, y: Bytes | f.preamble + x == f.preamble + y ensures x == y { PrefixCancel(f.preamble, x, y); PrefixCancel(f.preamble, y, x); }
  }

  lemma PrefixCancel(p: Bytes, x: Bytes, y: Bytes)
    requires p + x <= p + y
    ensures x <= y
  {
    assert (p + x)[|p|..] == x && (p + y)[|p|..] == y;
  }

  // Nothing has been written to the stream yet.
  predicate Untouched(f: Flow) {
    && f.middle.bytes == [] && f.buf1 == [] && f.buf2 == [] && f.sink.bytes == [] && f.preamble == []
    && !f.middle.end.Shut? && !f.sink.end.Shut?
  }

  lemma PutKeepsConserved(f: Flow, control: Bytes)
    requires Conserved(f) && Untouched(f)
    ensures Conserved(Put(f, control))
  {
    var g := Put(f, control);
    assert Everything(g) == control + f.source.bytes && Everything(f) == f.source.bytes;
    assert Arrived(g) == [];
  }

  // What reaches the far end is a prefix of what was sent, and a chain of orderly ends reaches it only
  // after every byte and after the sender's own end.
  lemma ConservedMeans(f: Flow)
    requires Conserved(f)
    ensures f.sink.bytes <= f.sent
    ensures f.sink.end.Shut? ==> f.sink.bytes == f.sent && f.source.end.Shut?
  {
    if f.preamble == [] {
      assert f.preamble + f.sent == f.sent;
      assert f.sink.bytes <= Arrived(f) <= Everything(f);
    }
  }

  lemma IdleConserved(control: Bytes)
    ensures var idle := Pipe([], Open); Conserved(Flow([], idle, control, idle, [], idle, control))
  {
    assert control + [] == control;
  }

  // ---- Loss ----

  // All that can still reach the far end.
  ghost function Deliverable(f: Flow): Bytes {
    if AtEnd(f.sink) then f.sink.bytes else if AtEnd(f.middle) then Arrived(f) else Everything(f)
  }

  ghost predicate Undiminished(f: Flow) {
    Deliverable(f) == f.preamble + f.sent
  }

  // The stream's writer leaves before it has written all there is.
  predicate LosesAtMiddle(f: Flow) {
    !AtEnd(f.middle) && !AtEnd(f.sink) && (f.buf1 != [] || f.source.bytes != [])
  }

  // The stream's reader leaves before it has handed over all there is.
  predicate LosesAtSink(f: Flow) {
    !AtEnd(f.sink) && (f.buf2 != [] || f.middle.bytes != [] || LosesAtMiddle(f))
  }

  // A connection breaks with bytes in flight that will not arrive.
  predicate LosesByBreak(f: Flow, source: bool, kept: nat) {
    if source then !AtEnd(f.middle) && !AtEnd(f.sink) && kept < |f.source.bytes|
    else !AtEnd(f.sink) && (kept < |f.middle.bytes| || LosesAtMiddle(f))
  }

  predicate Severed(f: Flow) {
    AtEnd(f.middle) || AtEnd(f.sink)
  }

  lemma UndiminishedByLength(f: Flow)
    requires Conserved(f)
    ensures |Deliverable(f)| <= |f.preamble| + |f.sent|
    ensures Undiminished(f) <==> |Deliverable(f)| == |f.preamble| + |f.sent|
  {
    assert f.sink.bytes <= Arrived(f) <= Everything(f);
    if f.preamble == [] {
      assert f.preamble + f.sent == f.sent;
    }
  }

  lemma UndiminishedAtEnd(f: Flow)
    requires AtEnd(f.sink) && f.preamble == []
    ensures Undiminished(f) <==> f.sink.bytes == f.sent
  {
    assert f.preamble + f.sent == f.sent;
  }

  lemma IdleUndiminished(control: Bytes)
    ensures var idle := Pipe([], Open); Undiminished(Flow([], idle, control, idle, [], idle, control))
  {
    assert control + [] == control;
  }

  lemma MoveKeepsUndiminished(f: Flow, m: Move, g: Flow)
    requires Moved(f, m) == Some(g)
    ensures Undiminished(g) <==> Undiminished(f)
  {
    match m
    case Reads1(n) => ReadMoves(Arrived(f), f.buf1, f.source.bytes, n);
    case Reads2(n) => ReadMoves(f.sink.bytes, f.buf2, f.middle.bytes, n);
    case Writes1(n) =>
      assert Arrived(g) == Arrived(f) + f.buf1[..n];
      assert Arrived(f) + f.buf1[..n] + f.buf1[n..] == Arrived(f) + f.buf1;
    case Writes2(n) => assert f.sink.bytes + f.buf2[..n] + f.buf2[n..] == f.sink.bytes + f.buf2;
    case Shuts1 => assert Everything(f) == Arrived(f);
    case Shuts2 => assert Arrived(f) == f.sink.bytes;
  }

  lemma SendUndiminishedIff(f: Flow, data: Bytes)
    requires Conserved(f) && f.source.end.Open?
    ensures Undiminished(Sent(f, data)) <==> Undiminished(f) && !(data != [] && Severed(f))
  {
    SendKeepsConserved(f, data);
    UndiminishedByLength(f);
    UndiminishedByLength(Sent(f, data));
  }

  lemma CutsUndiminishedIff(f: Flow)
    requires Conserved(f)
    ensures Undiminished(f.(middle := Cutoff(f.middle))) <==> Undiminished(f) && !LosesAtMiddle(f)
    ensures Undiminished(f.(sink := Cutoff(f.sink))) <==> Undiminished(f) && !LosesAtSink(f)
  {
    CutsKeepConserved(f);
    UndiminishedByLength(f);
    UndiminishedByLength(f.(middle := Cutoff(f.middle)));
    UndiminishedByLength(f.(sink := Cutoff(f.sink)));
  }

  lemma BreakUndiminishedIff(f: Flow, source: bool, kept: nat)
    requires Conserved(f) && Breakable(f, source)
    ensures Undiminished(Broke(f, source, kept)) <==> Undiminished(f) && !LosesByBreak(f, source, kept)
  {
    BreakKeepsConserved(f, source, kept);
    UndiminishedByLength(f);
    UndiminishedByLength(Broke(f, source, kept));
  }

  lemma PutUndiminishedIff(f: Flow, control: Bytes)
    requires Conserved(f) && Untouched(f) && control != []
    ensures Undiminished(Put(f, control)) <==> Undiminished(f) && !Severed(f)
  {
    PutKeepsConserved(f, control);
    UndiminishedByLength(f);
    UndiminishedByLength(Put(f, control));
  }

  lemma TakeUndiminishedIff(f: Flow, rest: Bytes)
    requires Conserved(f) && f.preamble != [] && f.middle.bytes == f.preamble + rest && !AtEnd(f.sink)
    ensures Undiminished(f.(middle := f.middle.(bytes := rest), preamble := [])) <==> Undiminished(f)
  {
    TakeKeepsConserved(f, rest);
    UndiminishedByLength(f);
    UndiminishedByLength(f.(middle := f.middle.(bytes := rest), preamble := []));
  }

  // ---- Delivery ----

  function Work(f: Flow): nat {
    4 * |f.source.bytes| + 3 * |f.buf1| + 2 * |f.middle.bytes| + |f.buf2|
    + (if f.middle.end.Open? then 1 else 0) + (if f.sink.end.Open? then 1 else 0)
  }

  // Every move of a copy loop brings its work nearer to the end.
  lemma MoveDoesWork(f: Flow, m: Move)
    requires Moved(f, m).Some?
    ensures Work(Moved(f, m).value) < Work(f)
  {
  }

  // Two loops that can do nothing more, with nothing cut, have delivered all that was sent and its end.
  lemma StuckIsDelivered(f: Flow)
    requires Conserved(f) && f.preamble == []
    requires f.source.end.Shut? && !f.middle.end.Cut? && !f.sink.end.Cut?
    ensures (forall m :: Moved(f, m).None?) <==> f.sink == Pipe(f.sent, Shut)
  {
    if f.sink.end.Open? {
      assert !(forall m :: Moved(f, m).None?) by {
        if f.source.bytes != [] {
          assert Moved(f, Reads1(1)).Some?;
        } else if f.middle.end.Open? {
          assert Moved(f, if f.buf1 == [] then Shuts1 else Writes1(1)).Some?;
        } else if f.middle.bytes != [] {
          assert Moved(f, Reads2(1)).Some?;
        } else {
          assert Moved(f, if f.buf2 == [] then Shuts2 else Writes2(1)).Some?;
        }
      }
    }
  }
}
