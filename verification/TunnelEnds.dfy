// What an end of file at the far end of a tunnel says. The copy loops pass on the end of a stream that was
// dropped or broken exactly as that of one that was shut down, so an end may hide missing bytes.
module TunnelEnds {
  import opened Basics
  import opened Types
  import opened Framing
  import opened ControlStream
  import opened CopyFlow
  import opened Tunnel

  predicate ServerQuits(s: System, t: System) {
    !s.server.ServerLeft? && t.server.ServerLeft?
  }

  predicate ClientQuits(s: System, t: System) {
    !s.client.ClientLeft? && t.client.ClientLeft?
  }

  // A step that discards bytes of one direction: a side leaves with some of them still to be passed on,
  // a connection breaks with some in flight, or some are written although the way ahead is gone.
  predicate Discards(s: System, a: Label, t: System, isUp: bool) {
    var f := Directed(s, isUp);
    || (ServerQuits(s, t) && (if isUp then LosesAtMiddle(f) else LosesAtSink(f)))
    || (ClientQuits(s, t) && (if isUp then LosesAtSink(f) else LosesAtMiddle(f)))
    || (a.Breaks? && a.inUp == isUp && LosesByBreak(f, a.source, a.kept))
    || (a.Sends? && a.fromVisitor == isUp && a.data != [] && Severed(f))
    || (!isUp && s.answer.None? && t.answer.Some? && Severed(f))
  }

  ghost predicate StaysUndiminished(s: System, a: Label, t: System) {
    && (Undiminished(t.up) <==> Undiminished(s.up) && !Discards(s, a, t, true))
    && (Undiminished(t.down) <==> Undiminished(s.down) && !Discards(s, a, t, false))
  }

  lemma TakesUndiminished(flow: Flow, f: Frame)
    requires Conserved(flow) && Encodable(f) && flow.preamble == Encoded(f) && !AtEnd(flow.sink)
    ensures var (r, rest) := ReadFrame(DecodeFramePayload, flow.middle.bytes);
            r.Ok? ==> (Undiminished(flow.(middle := flow.middle.(bytes := rest), preamble := [])) <==> Undiminished(flow))
  {
    assert flow.middle.bytes == Arrived(flow);
    assert Arrived(flow) <= Everything(flow);
    ReadsPreamble(f, flow.preamble, flow.sent, flow.middle.bytes);
    var (r: Result<Frame, ReadError>, rest: seq<u8>) := ReadFrame(DecodeFramePayload, flow.middle.bytes);
    if r.Ok? {
      TakeUndiminishedIff(flow, rest);
    }
  }

  lemma LeavingStaysUndiminished(s: System, e: OpenError)
    requires Conserved(s.up) && Conserved(s.down)
    ensures var t := ServerLeaves(s, e);
            && (Undiminished(t.up) <==> Undiminished(s.up) && !LosesAtMiddle(s.up))
            && (Undiminished(t.down) <==> Undiminished(s.down) && !LosesAtSink(s.down))
    ensures var t := ClientLeaves(s);
            && (Undiminished(t.up) <==> Undiminished(s.up) && !LosesAtSink(s.up))
            && (Undiminished(t.down) <==> Undiminished(s.down) && !LosesAtMiddle(s.down))
  {
    CutsUndiminishedIff(s.up);
    CutsUndiminishedIff(s.down);
  }

  lemma ReadingStaysUndiminished(s: System, t: System)
    requires t == s.(server := t.server, client := t.client, up := t.up, down := t.down)
    requires s.server.ServerLeft? == t.server.ServerLeft? && s.client.ClientLeft? == t.client.ClientLeft?
    requires Undiminished(t.up) <==> Undiminished(s.up)
    requires Undiminished(t.down) <==> Undiminished(s.down)
    ensures StaysUndiminished(s, ServerReads, t) && StaysUndiminished(s, ClientReads, t)
  {
  }

  // A server that goes on to relay has taken the acknowledgement off the stream.
  lemma ServerOpens(p: Params, s: System, t: System) returns (rest: Bytes)
    requires ServerRead(p, s) == Some(t) && !t.server.ServerLeft?
    ensures s.server.AwaitingAck? && ReadFrame(DecodeFramePayload, s.down.middle.bytes).0.Ok?
    ensures rest == ReadFrame(DecodeFramePayload, s.down.middle.bytes).1
    ensures t == s.(server := ServerRelaying, down := s.down.(middle := s.down.middle.(bytes := rest), preamble := []))
  {
    rest := ReadFrame(DecodeFramePayload, s.down.middle.bytes).1;
  }

  lemma AnswerAwaited(p: Params, s: System) returns (f: Frame)
    requires Invariant(p, s) && s.server.AwaitingAck? && s.down.middle.bytes != []
    ensures Conserved(s.down) && Encodable(f) && s.down.preamble == Encoded(f) && !AtEnd(s.down.sink)
  {
    f := s.answer.value;
  }

  lemma ServerLeavesUndiminished(s: System, a: Label, e: OpenError)
    requires Conserved(s.up) && Conserved(s.down) && !s.server.ServerLeft? && (a.ServerReads? || a.ServerAborts?)
    ensures StaysUndiminished(s, a, ServerLeaves(s, e))
  {
    LeavingStaysUndiminished(s, e);
  }

  lemma ClientLeavesUndiminished(s: System, a: Label)
    requires Conserved(s.up) && Conserved(s.down) && !s.client.ClientLeft?
    requires a.ClientReads? || a.ClientAborts? || a.Dialled? || a.AnswerWritten?
    ensures StaysUndiminished(s, a, ClientLeaves(s))
  {
    LeavingStaysUndiminished(s, StreamFailed);
  }

  lemma ServerReadStaysUndiminished(p: Params, s: System, t: System)
    requires Invariant(p, s) && ServerRead(p, s) == Some(t)
    ensures StaysUndiminished(s, ServerReads, t)
  {
    if t.server.ServerLeft? {
      assert t == ServerLeaves(s, t.server.openError);
      ServerLeavesUndiminished(s, ServerReads, t.server.openError);
    } else {
      var rest := ServerOpens(p, s, t);
      var f := AnswerAwaited(p, s);
      TakesUndiminished(s.down, f);
      ReadingStaysUndiminished(s, t);
    }
  }

  lemma ClientOpens(p: Params, s: System, t: System) returns (taken: Pipe)
    requires Invariant(p, s) && ClientRead(p, s) == Some(t) && !t.client.ClientLeft?
    ensures t == s.(client := t.client, up := s.up.(middle := taken, preamble := []))
    ensures Undiminished(t.up) <==> Undiminished(s.up)
  {
    TunnelFramesEncodable(p.tunnelId, p.serviceId);
    var (r: Result<Frame, ReadError>, rest: seq<u8>) := ReadFrame(DecodeFramePayload, s.up.middle.bytes);
    taken := s.up.middle.(bytes := rest);
    TakesUndiminished(s.up, OpenStream(p.tunnelId, p.serviceId));
  }

  lemma ClientReadStaysUndiminished(p: Params, s: System, t: System)
    requires Invariant(p, s) && ClientRead(p, s) == Some(t)
    ensures StaysUndiminished(s, ClientReads, t)
  {
    if t.client.ClientLeft? {
      assert t == ClientLeaves(s);
      ClientLeavesUndiminished(s, ClientReads);
    } else {
      var taken := ClientOpens(p, s, t);
      ReadingStaysUndiminished(s, t);
    }
  }

  lemma DialStaysUndiminished(p: Params, s: System, error: Option<string>, t: System)
    requires Invariant(p, s) && ClientDials(s, error) == Some(t)
    ensures StaysUndiminished(s, Dialled(error), t)
  {
    if t.client.ClientLeft? {
      LeavingStaysUndiminished(s, StreamFailed);
    } else {
      PutUndiminishedIff(s.down, Encoded(t.answer.value));
    }
  }

  lemma CopyStaysUndiminished(s: System, isUp: bool, m: Move, t: System)
    requires Copied(s, isUp, m) == Some(t)
    ensures StaysUndiminished(s, Copies(isUp, m), t)
  {
    MoveKeepsUndiminished(Directed(s, isUp), m, Directed(t, isUp));
  }

  lemma EndpointStaysUndiminished(p: Params, s: System, a: Label, t: System)
    requires Conserved(s.up) && Conserved(s.down) && Next(p, s, a, t) && (a.Sends? || a.Ends? || a.Breaks?)
    ensures StaysUndiminished(s, a, t)
  {
    match a
    case Sends(isUp, data) => SendUndiminishedIff(Directed(s, isUp), data);
    case Breaks(isUp, source, kept) => BreakUndiminishedIff(Directed(s, isUp), source, kept);
    case _ =>
  }

  lemma ProceedStaysUndiminished(s: System, t: System)
    requires Conserved(s.up) && Conserved(s.down) && ClientProceeds(s) == Some(t)
    ensures StaysUndiminished(s, AnswerWritten, t)
  {
    if t.client.ClientLeft? {
      ClientLeavesUndiminished(s, AnswerWritten);
    }
  }

  lemma StepStaysUndiminished(p: Params, s: System, a: Label, t: System)
    requires Invariant(p, s) && Next(p, s, a, t)
    ensures StaysUndiminished(s, a, t)
  {
    match a
    case ServerReads => ServerReadStaysUndiminished(p, s, t);
    case ClientReads => ClientReadStaysUndiminished(p, s, t);
    case Dialled(error) => DialStaysUndiminished(p, s, error, t);
    case Copies(isUp, m) => CopyStaysUndiminished(s, isUp, m, t);
    case Sends(_, _) => EndpointStaysUndiminished(p, s, a, t);
    case Ends(_) => EndpointStaysUndiminished(p, s, a, t);
    case Breaks(_, _, _) => EndpointStaysUndiminished(p, s, a, t);
    case AnswerWritten => ProceedStaysUndiminished(s, t);
    case ServerAborts => ServerLeavesUndiminished(s, a, StreamFailed);
    case ClientAborts => ClientLeavesUndiminished(s, a);
  }

  // ---- Exactly when an end is honest ----

  ghost predicate EverDiscards(ws: seq<System>, acts: seq<Label>, i: nat, isUp: bool)
    requires i <= |acts| < |ws|
  {
    exists j: nat | j < i :: Discards(ws[j], acts[j], ws[j + 1], isUp)
  }

  lemma StepAt(p: Params, ws: seq<System>, acts: seq<Label>, i: nat, isUp: bool)
    requires IsRun(p, ws, acts) && i < |acts|
    ensures Undiminished(Directed(ws[i + 1], isUp))
            <==> Undiminished(Directed(ws[i], isUp)) && !Discards(ws[i], acts[i], ws[i + 1], isUp)
  {
    InvariantAlways(p, ws, acts, i);
    StepStaysUndiminished(p, ws[i], acts[i], ws[i + 1]);
  }

  ghost predicate Traced(ws: seq<System>, acts: seq<Label>, n: nat, isUp: bool)
    requires n <= |acts| < |ws|
  {
    forall j: nat | j < n :: Undiminished(Directed(ws[j + 1], isUp))
                             <==> Undiminished(Directed(ws[j], isUp)) && !Discards(ws[j], acts[j], ws[j + 1], isUp)
  }

  lemma RunIsTraced(p: Params, ws: seq<System>, acts: seq<Label>, n: nat, isUp: bool)
    requires IsRun(p, ws, acts) && n <= |acts|
    ensures Traced(ws, acts, n, isUp)
  {
    forall j: nat | j < n
      ensures Undiminished(Directed(ws[j + 1], isUp))
              <==> Undiminished(Directed(ws[j], isUp)) && !Discards(ws[j], acts[j], ws[j + 1], isUp)
    {
      StepAt(p, ws, acts, j, isUp);
    }
  }

  lemma {:induction false} LostOnce(ws: seq<System>, acts: seq<Label>, n: nat, isUp: bool)
    requires n <= |acts| < |ws| && Undiminished(Directed(ws[0], isUp)) && Traced(ws, acts, n, isUp)
    ensures Undiminished(Directed(ws[n], isUp)) <==> !EverDiscards(ws, acts, n, isUp)
  {
    if n > 0 {
      LostOnce(ws, acts, n - 1, isUp);
      var d := Discards(ws[n - 1], acts[n - 1], ws[n - 1 + 1], isUp);
      assert EverDiscards(ws, acts, n, isUp) <==> EverDiscards(ws, acts, n - 1, isUp) || d;
    }
  }

  lemma StartsUndiminished(p: Params, isUp: bool)
    ensures Undiminished(Directed(Initial(p), isUp))
  {
    IdleUndiminished(Opening(p));
    IdleUndiminished([]);
  }

  lemma UndiminishedIff(p: Params, ws: seq<System>, acts: seq<Label>, i: nat, isUp: bool)
    requires IsRun(p, ws, acts) && i < |ws|
    ensures Undiminished(Directed(ws[i], isUp)) <==> !EverDiscards(ws, acts, i, isUp)
  {
    StartsUndiminished(p, isUp);
    RunIsTraced(p, ws, acts, i, isUp);
    LostOnce(ws, acts, i, isUp);
  }

  // The control bytes of an opened tunnel have been read on both sides.
  predicate Opened(s: System) {
    s.answer.Some? && s.up.preamble == [] && s.down.preamble == []
  }

  lemma StepKeepsOpened(p: Params, s: System, a: Label, t: System)
    requires Opened(s) && Next(p, s, a, t) && !s.client.Dialling?
    ensures Opened(t)
  {
  }

  lemma {:induction false} StaysOpened(p: Params, ws: seq<System>, acts: seq<Label>, k: nat, i: nat)
    requires IsRun(p, ws, acts) && k <= i < |ws| && ws[k].server.ServerRelaying?
    ensures Opened(ws[i])
  {
    if k == i {
      InvariantAlways(p, ws, acts, k);
    } else {
      StaysOpened(p, ws, acts, k, i - 1);
      AnsweredIsNotDialling(p, ws, acts, i - 1);
      assert Next(p, ws[i - 1], acts[i - 1], ws[i - 1 + 1]);
      StepKeepsOpened(p, ws[i - 1], acts[i - 1], ws[i]);
    }
  }

  lemma AnsweredIsNotDialling(p: Params, ws: seq<System>, acts: seq<Label>, i: nat)
    requires IsRun(p, ws, acts) && i < |ws| && ws[i].answer.Some?
    ensures !ws[i].client.Dialling?
  {
    InvariantAlways(p, ws, acts, i);
  }

  // A far end of a tunnel that was opened has seen an end of file: it has received everything if and
  // only if no step of the run discarded bytes of that direction.
  lemma EndCompleteIff(p: Params, ws: seq<System>, acts: seq<Label>, k: nat, i: nat, isUp: bool)
    requires IsRun(p, ws, acts) && k <= i < |ws| && ws[k].server.ServerRelaying?
    requires AtEnd(Directed(ws[i], isUp).sink)
    ensures var f := Directed(ws[i], isUp);
            f.sink.bytes == f.sent <==> !EverDiscards(ws, acts, i, isUp)
  {
    StaysOpened(p, ws, acts, k, i);
    UndiminishedIff(p, ws, acts, i, isUp);
    UndiminishedAtEnd(Directed(ws[i], isUp));
  }

  // In particular, in a run in which no side aborts and no connection breaks, an end that reaches the far
  // end of an open tunnel comes after every byte and after the sender's own end.
  lemma FaultlessEndIsComplete(p: Params, ws: seq<System>, acts: seq<Label>, i: nat, isUp: bool)
    requires IsRun(p, ws, acts) && i < |ws| && forall a | a in acts :: !Faulty(a)
    requires ws[i].server.ServerRelaying? && AtEnd(Directed(ws[i], isUp).sink)
    ensures var f := Directed(ws[i], isUp); f.sink.bytes == f.sent && f.source.end.Shut?
  {
    InvariantAlways(p, ws, acts, i);
    UncutAlways(p, ws, acts, i);
    ConservedMeans(Directed(ws[i], isUp));
  }

  // ---- An abort that looks like an end ----

  ghost predicate RunTo(p: Params, ws: seq<System>, acts: seq<Label>, s: System) {
    IsRun(p, ws, acts) && ws[|acts|] == s
  }

  lemma Extend(p: Params, ws: seq<System>, acts: seq<Label>, s: System, a: Label, t: System)
    requires RunTo(p, ws, acts, s) && Next(p, s, a, t)
    ensures RunTo(p, ws + [t], acts + [a], t)
  {
    var us, as_ := ws + [t], acts + [a];
    forall i | 0 <= i < |as_| ensures Next(p, us[i], as_[i], us[i + 1]) {
      if i < |acts| {
        assert us[i] == ws[i] && us[i + 1] == ws[i + 1] && as_[i] == acts[i];
      } else {
        assert us[i] == s && us[i + 1] == t && as_[i] == a;
      }
    }
  }

  // The whole opening exchange.
  ghost function OpenTunnel(p: Params): System
    requires p.serviceId in p.local
  {
    var idle := Pipe([], Open);
    System(ServerRelaying, ClientRelaying,
           Flow([], idle, [], idle, [], idle, []), Flow([], idle, [], idle, [], idle, []),
           Some(p.local[p.serviceId]), Some(OpenStreamAck(p.tunnelId)))
  }

  lemma ReadsWhole(f: Frame, control: Bytes)
    requires Encodable(f) && control == Encoded(f)
    ensures ReadFrame(DecodeFramePayload, control) == (Ok(f), [])
    ensures control != []
  {
    assert control + [] == control;
    ReadEncoded(f, []);
  }

  lemma ClientLearns(p: Params, control: Bytes) returns (ws: seq<System>, acts: seq<Label>, s: System)
    requires p.serviceId in p.local && control == Opening(p)
    ensures RunTo(p, ws, acts, s)
    ensures var idle := Pipe([], Open);
            s == System(AwaitingAck, Dialling(p.tunnelId, p.local[p.serviceId]),
                        Flow([], idle, [], idle, [], idle, []), Flow([], idle, [], idle, [], idle, []), None, None)
  {
    TunnelFramesEncodable(p.tunnelId, p.serviceId);
    ReadsWhole(OpenStream(p.tunnelId, p.serviceId), control);
    var idle := Pipe([], Open);
    var s0 := Initial(p);
    ws, acts := [s0], [];
    var s1 := s0.(up := Flow([], idle, [], Pipe(control, Open), [], idle, control));
    assert [] + control == control && control[..|control|] == control && control[|control|..] == [];
    Extend(p, ws, acts, s0, Copies(true, Writes1(|control|)), s1);
    ws, acts := ws + [s1], acts + [Copies(true, Writes1(|control|))];
    s := s1.(client := Dialling(p.tunnelId, p.local[p.serviceId]), up := Flow([], idle, [], idle, [], idle, []));
    Extend(p, ws, acts, s1, ClientReads, s);
    ws, acts := ws + [s], acts + [ClientReads];
  }

  lemma ServerLearns(p: Params, control: Bytes) returns (ws: seq<System>, acts: seq<Label>)
    requires p.serviceId in p.local && control == Encoded(OpenStreamAck(p.tunnelId))
    ensures RunTo(p, ws, acts, OpenTunnel(p))
  {
    var s2: System;
    ws, acts, s2 := ClientLearns(p, Opening(p));
    TunnelFramesEncodable(p.tunnelId, p.serviceId);
    ReadsWhole(OpenStreamAck(p.tunnelId), control);
    var idle, ack := Pipe([], Open), OpenStreamAck(p.tunnelId);
    assert [] + control == control && control[..|control|] == control && control[|control|..] == [];
    var s3 := s2.(client := Answering(ack), dialled := Some(p.local[p.serviceId]), answer := Some(ack),
                  down := Flow([], idle, control, idle, [], idle, control));
    Extend(p, ws, acts, s2, Dialled(None), s3);
    ws, acts := ws + [s3], acts + [Dialled(None)];
    var s4 := s3.(down := Flow([], idle, [], Pipe(control, Open), [], idle, control));
    Extend(p, ws, acts, s3, Copies(false, Writes1(|control|)), s4);
    ws, acts := ws + [s4], acts + [Copies(false, Writes1(|control|))];
    var s5 := s4.(client := ClientRelaying);
    Extend(p, ws, acts, s4, AnswerWritten, s5);
    ws, acts := ws + [s5], acts + [AnswerWritten];
    Extend(p, ws, acts, s5, ServerReads, OpenTunnel(p));
    ws, acts := ws + [OpenTunnel(p)], acts + [ServerReads];
  }

  // A run in which the visitor sees an end of file without the byte the local service had sent: the
  // client aborts with the byte in hand, and the server passes the end of the stream on.
  lemma AbortTruncates(p: Params) returns (ws: seq<System>, acts: seq<Label>, k: nat)
    requires p.serviceId in p.local
    ensures IsRun(p, ws, acts) && k < |ws| && ws[k].server.ServerRelaying?
    ensures var f := ws[|acts|].down; AtEnd(f.sink) && f.sink.bytes == [] && f.sent == [1]
  {
    ws, acts := ServerLearns(p, Encoded(OpenStreamAck(p.tunnelId)));
    k := |acts|;
    var open := OpenTunnel(p);
    var s1, s2, s3, s4 := TruncatingSteps(p, open, [1]);
    Extend(p, ws, acts, open, Sends(false, [1]), s1);
    ws, acts := ws + [s1], acts + [Sends(false, [1])];
    Extend(p, ws, acts, s1, Copies(false, Reads1(1)), s2);
    ws, acts := ws + [s2], acts + [Copies(false, Reads1(1))];
    Extend(p, ws, acts, s2, ClientAborts, s3);
    ws, acts := ws + [s3], acts + [ClientAborts];
    Extend(p, ws, acts, s3, Copies(false, Shuts2), s4);
    ws, acts := ws + [s4], acts + [Copies(false, Shuts2)];
  }

  lemma TruncatingSteps(p: Params, open: System, data: Bytes) returns (s1: System, s2: System, s3: System, s4: System)
    requires p.serviceId in p.local && open == OpenTunnel(p) && |data| == 1
    ensures Next(p, open, Sends(false, data), s1) && Next(p, s1, Copies(false, Reads1(1)), s2)
    ensures Next(p, s2, ClientAborts, s3) && Next(p, s3, Copies(false, Shuts2), s4)
    ensures AtEnd(s4.down.sink) && s4.down.sink.bytes == [] && s4.down.sent == data
  {
    var idle := Pipe([], Open);
    assert [] + data == data && data[..1] == data && data[1..] == [];
    s1 := open.(down := Flow(data, Pipe(data, Open), [], idle, [], idle, []));
    s2 := open.(down := Flow(data, idle, data, idle, [], idle, []));
    s3 := ClientLeaves(s2);
    s4 := s3.(down := Flow(data, idle, data, Pipe([], Cut), [], Pipe([], Cut), []));
  }

  // An orderly end stays one: only a broken connection takes it back, and never at the far end.
  lemma OrderlyEndStays(p: Params, s: System, a: Label, t: System, isUp: bool)
    requires Next(p, s, a, t)
    ensures Directed(s, isUp).sink.end.Shut? ==> Directed(t, isUp).sink.end.Shut?
    ensures Directed(s, isUp).middle.end.Shut? && !a.Breaks? ==> Directed(t, isUp).middle.end.Shut?
  {
  }
}
