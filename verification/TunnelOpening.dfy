// How a tunnel is opened or refused: what each side makes of the other's control frame, and that no data
// is carried before both have agreed.
module TunnelOpening {
  import opened Basics
  import opened Types
  import opened Framing
  import opened ControlStream
  import opened CopyFlow
  import opened Tunnel
  import opened TunnelEnds

  // ---- Decisions ----

  lemma ArrivedWhole(flow: Flow, f: Frame, control: Bytes)
    requires Conserved(flow) && Encodable(f) && flow.preamble == control == Encoded(f)
    ensures ReadFrame(DecodeFramePayload, flow.middle.bytes).0 == (if |flow.middle.bytes| < |control| then Err(UnexpectedEof) else Ok(f))
  {
    assert flow.middle.bytes == Arrived(flow) && Arrived(flow) <= Everything(flow);
    ReadsPreamble(f, control, flow.sent, flow.middle.bytes);
  }

  lemma AnswerTaken(p: Params, s: System, t: System, answer: Frame, whole: bool)
    requires ServerRead(p, s) == Some(t) && (AckOf(p, answer) || answer.Error?)
    requires ReadFrame(DecodeFramePayload, s.down.middle.bytes).0 == (if whole then Ok(answer) else Err(UnexpectedEof))
    ensures t.server == (if !whole then ServerLeft(StreamFailed) else if answer.Error? then ServerLeft(LocalTargetRejected) else ServerRelaying)
  {
  }

  // An acknowledgement opens the tunnel, an error refuses it, and an answer that ends early fails it.
  lemma AnswerDecides(p: Params, s: System, t: System)
    requires Invariant(p, s) && s.answer.Some? && ServerRead(p, s) == Some(t)
    ensures t.server == (if |s.down.middle.bytes| < |s.down.preamble| then ServerLeft(StreamFailed)
                         else if s.answer.value.Error? then ServerLeft(LocalTargetRejected)
                         else ServerRelaying)
    ensures s.down.preamble == Encoded(s.answer.value)
  {
    assert s.server.AwaitingAck?;
    ArrivedWhole(s.down, s.answer.value, s.down.preamble);
    AnswerTaken(p, s, t, s.answer.value, |s.down.middle.bytes| >= |s.down.preamble|);
  }

  // The client dials the published address of the service asked for, or leaves without an answer.
  lemma OpeningDecides(p: Params, s: System, t: System)
    requires Invariant(p, s) && ClientRead(p, s) == Some(t)
    ensures t.client == (if |s.up.middle.bytes| < |s.up.preamble| || p.serviceId !in p.local then ClientLeft
                         else Dialling(p.tunnelId, p.local[p.serviceId]))
    ensures t.answer.None? && t.dialled == s.dialled
  {
    TunnelFramesEncodable(p.tunnelId, p.serviceId);
    ReadsPreamble(OpenStream(p.tunnelId, p.serviceId), s.up.preamble, s.up.sent, s.up.middle.bytes);
  }

  // It reports what came of dialling; a report too large for a frame is not written.
  lemma DialDecides(p: Params, s: System, error: Option<string>, t: System)
    requires Invariant(p, s) && ClientDials(s, error) == Some(t)
    ensures error.None? ==> t.answer == Some(OpenStreamAck(p.tunnelId)) && t.dialled == Some(p.local[p.serviceId])
    ensures error.Some? ==> t.answer == (if Encodable(Error(error.value)) then Some(Error(error.value)) else None)
                            && t.dialled == s.dialled
    ensures t.client == (if t.answer.Some? then Answering(t.answer.value) else ClientLeft)
  {
    TunnelFramesEncodable(p.tunnelId, p.serviceId);
  }

  // Whatever frame comes: only the acknowledgement of this very tunnel opens it.
  lemma AnyAnswerDecides(p: Params, s: System, t: System, f: Frame)
    requires ServerRead(p, s) == Some(t) && ReadFrame(DecodeFramePayload, s.down.middle.bytes).0 == Ok(f)
    ensures t.server == (if f == OpenStreamAck(p.tunnelId) then ServerRelaying
                         else ServerLeft(if f.Error? then LocalTargetRejected else InvalidAcknowledgement))
  {
  }

  // And only a request for a published service is dialled for, under the tunnel it names.
  lemma AnyRequestDecides(p: Params, s: System, t: System, f: Frame)
    requires ClientRead(p, s) == Some(t) && ReadFrame(DecodeFramePayload, s.up.middle.bytes).0 == Ok(f)
    ensures t.client == (if f.OpenStream? && f.serviceId in p.local then Dialling(f.tunnelId, p.local[f.serviceId]) else ClientLeft)
  {
  }

  // A read is put off exactly while the frame has not all arrived and its stream is still open; the server
  // reads only after its request is written out.
  lemma ReadsUnlessIncomplete(p: Params, s: System)
    requires Invariant(p, s)
    ensures s.client.AwaitingOpen? ==>
              (ClientRead(p, s).None? <==> |s.up.middle.bytes| < |s.up.preamble| && s.up.middle.end.Open?)
    ensures s.server.AwaitingAck? && s.up.buf1 == [] && s.answer.Some? ==>
              (ServerRead(p, s).None? <==> |s.down.middle.bytes| < |s.down.preamble| && s.down.middle.end.Open?)
  {
    if s.client.AwaitingOpen? {
      TunnelFramesEncodable(p.tunnelId, p.serviceId);
      ArrivedWhole(s.up, OpenStream(p.tunnelId, p.serviceId), s.up.preamble);
      ClientReadsUnlessWaiting(p, s);
    }
    if s.server.AwaitingAck? && s.answer.Some? {
      ArrivedWhole(s.down, s.answer.value, s.down.preamble);
      ServerReadsUnlessWaiting(p, s);
    }
  }

  lemma ClientReadsUnlessWaiting(p: Params, s: System)
    ensures s.client.AwaitingOpen? ==>
              (ClientRead(p, s).None? <==> ReadFrame(DecodeFramePayload, s.up.middle.bytes).0 == Err(UnexpectedEof) && s.up.middle.end.Open?)
  {
  }

  lemma ServerReadsUnlessWaiting(p: Params, s: System)
    ensures s.server.AwaitingAck? && s.up.buf1 == [] ==>
              (ServerRead(p, s).None? <==> ReadFrame(DecodeFramePayload, s.down.middle.bytes).0 == Err(UnexpectedEof) && s.down.middle.end.Open?)
  {
  }

  // ---- What every run keeps ----

  // The flow holds no data yet, only control bytes: all that are unread, unless some were cut off.
  ghost predicate Held(f: Flow) {
    if AtEnd(f.middle) then |Arrived(f)| + |f.buf1| <= |f.preamble| else |Arrived(f)| + |f.buf1| == |f.preamble|
  }

  // Until the server has its acknowledgement it passes on nothing of the visitor's; until the client has
  // written its answer neither side of the local service has moved; whoever has left has ended both of
  // its outputs.
  ghost predicate Early(p: Params, s: System) {
    && (s.server.AwaitingAck? ==> Held(s.up))
    && (!s.client.ClientRelaying? && !s.client.ClientLeft? ==> Held(s.down) && s.up.buf2 == [] && s.up.sink.bytes == [])
    && (s.server.ServerLeft? ==> AtEnd(s.up.middle) && AtEnd(s.down.sink))
    && (s.client.ClientLeft? ==> AtEnd(s.down.middle) && AtEnd(s.up.sink))
    && (s.dialled.Some? <==> s.answer == Some(OpenStreamAck(p.tunnelId)))
    && (p.serviceId !in p.local ==> s.answer.None?)
    && (s.dialled.None? ==> s.down.sent == [])
    && (s.server == ServerLeft(LocalTargetRejected) ==> s.answer.Some? && s.answer.value.Error?)
  }

  lemma LeavingKeepsEarly(p: Params, s: System, e: OpenError)
    requires Early(p, s)
    ensures e != LocalTargetRejected || (s.answer.Some? && s.answer.value.Error?) ==> Early(p, ServerLeaves(s, e))
    ensures Early(p, ClientLeaves(s))
  {
  }

  lemma TakeKeepsHeld(flow: Flow, rest: Bytes)
    requires Held(flow) && flow.middle.bytes == flow.preamble + rest
    ensures Held(flow.(middle := flow.middle.(bytes := rest), preamble := []))
  {
  }

  lemma TakingKeepsHeld(flow: Flow, f: Frame)
    requires Conserved(flow) && Encodable(f) && flow.preamble == Encoded(f) && Held(flow)
    ensures var (r, rest) := ReadFrame(DecodeFramePayload, flow.middle.bytes);
            r.Ok? ==> Held(flow.(middle := flow.middle.(bytes := rest), preamble := []))
  {
    var (r, rest) := ReadFrame(DecodeFramePayload, flow.middle.bytes);
    TakenBehind(flow, f, flow.preamble);
    if r.Ok? { TakeKeepsHeld(flow, rest); }
  }

  lemma TakenBehind(flow: Flow, f: Frame, control: Bytes)
    requires Conserved(flow) && Encodable(f) && flow.preamble == control == Encoded(f)
    ensures var (r, rest) := ReadFrame(DecodeFramePayload, flow.middle.bytes);
            r.Ok? ==> flow.middle.bytes == control + rest
  {
    assert flow.middle.bytes == Arrived(flow) && Arrived(flow) <= Everything(flow);
    ReadsPreamble(f, control, flow.sent, flow.middle.bytes);
  }

  // The answer read off `down`, as a step that keeps what is early.
  lemma AnswerKeepsEarly(p: Params, s: System, t: System, rest: Bytes)
    requires Early(p, s) && s.server.AwaitingAck?
    requires t == s.(server := ServerRelaying, down := s.down.(middle := s.down.middle.(bytes := rest), preamble := []))
    requires Held(s.down) ==> Held(t.down)
    ensures Early(p, t)
  {
  }

  lemma ServerReadLeaves(p: Params, s: System, t: System)
    requires ServerRead(p, s) == Some(t) && t.server.ServerLeft?
    ensures t == ServerLeaves(s, t.server.openError)
  {
  }

  lemma ServerReadKeepsEarly(p: Params, s: System, t: System)
    requires Invariant(p, s) && Early(p, s) && ServerRead(p, s) == Some(t)
    ensures Early(p, t)
  {
    if s.answer.Some? {
      AnswerDecides(p, s, t);
    }
    if t.server.ServerLeft? {
      ServerReadLeaves(p, s, t);
      LeavingKeepsEarly(p, s, t.server.openError);
    } else {
      var rest := ServerOpens(p, s, t);
      if Held(s.down) { TakingKeepsHeld(s.down, s.answer.value); }
      AnswerKeepsEarly(p, s, t, rest);
    }
  }

  lemma ClientReadKeepsEarly(p: Params, s: System, t: System)
    requires Invariant(p, s) && Early(p, s) && ClientRead(p, s) == Some(t)
    ensures Early(p, t)
  {
    LeavingKeepsEarly(p, s, StreamFailed);
    OpeningDecides(p, s, t);
    TunnelFramesEncodable(p.tunnelId, p.serviceId);
    if Held(s.up) { TakingKeepsHeld(s.up, OpenStream(p.tunnelId, p.serviceId)); }
  }

  lemma DialKeepsEarly(p: Params, s: System, error: Option<string>, t: System)
    requires Invariant(p, s) && Early(p, s) && ClientDials(s, error) == Some(t)
    ensures Early(p, t)
  {
    DialDecides(p, s, error, t);
  }

  lemma CopyKeepsEarly(p: Params, s: System, isUp: bool, m: Move, t: System)
    requires Invariant(p, s) && Early(p, s) && Copied(s, isUp, m) == Some(t)
    ensures Early(p, t)
  {
  }

  lemma EndpointKeepsEarly(p: Params, s: System, a: Label, t: System)
    requires Invariant(p, s) && Early(p, s) && Next(p, s, a, t) && (a.Sends? || a.Ends?)
    ensures Early(p, t)
  {
  }

  lemma BreakKeepsHeld(f: Flow, source: bool, kept: nat)
    requires Held(f)
    ensures Held(Broke(f, source, kept))
  {
  }

  lemma BreakKeepsEarly(p: Params, s: System, a: Label, t: System)
    requires Early(p, s) && Next(p, s, a, t) && a.Breaks?
    ensures Early(p, t)
  {
    var f := Directed(s, a.inUp);
    if Held(f) { BreakKeepsHeld(f, a.source, a.kept); }
  }

  lemma StepKeepsEarly(p: Params, s: System, a: Label, t: System)
    requires Invariant(p, s) && Early(p, s) && Next(p, s, a, t)
    ensures Early(p, t)
  {
    match a
    case ServerReads => ServerReadKeepsEarly(p, s, t);
    case ClientReads => ClientReadKeepsEarly(p, s, t);
    case Dialled(error) => DialKeepsEarly(p, s, error, t);
    case AnswerWritten => LeavingKeepsEarly(p, s, StreamFailed);
    case Copies(isUp, m) => CopyKeepsEarly(p, s, isUp, m, t);
    case ServerAborts => LeavingKeepsEarly(p, s, StreamFailed);
    case ClientAborts => LeavingKeepsEarly(p, s, StreamFailed);
    case Breaks(_, _, _) => BreakKeepsEarly(p, s, a, t);
    case _ => EndpointKeepsEarly(p, s, a, t);
  }

  lemma {:induction false} EarlyAlways(p: Params, ws: seq<System>, acts: seq<Label>, i: nat)
    requires IsRun(p, ws, acts) && i < |ws|
    ensures Early(p, ws[i])
  {
    if i > 0 {
      EarlyAlways(p, ws, acts, i - 1);
      InvariantAlways(p, ws, acts, i - 1);
      assert Next(p, ws[i - 1], acts[i - 1], ws[i - 1 + 1]);
      StepKeepsEarly(p, ws[i - 1], acts[i - 1], ws[i]);
    }
  }

  // No byte of the visitor's leaves its socket before the acknowledgement, and none of either endpoint's
  // is passed on by the client before its answer is out; the local service has sent nothing before it was
  // dialled.
  lemma NoEarlyData(p: Params, ws: seq<System>, acts: seq<Label>, i: nat)
    requires IsRun(p, ws, acts) && i < |ws|
    ensures var s := ws[i];
            && (s.down.sent != [] ==> s.dialled.Some?)
            && (s.server.AwaitingAck? && s.up.middle.end.Open? && !s.up.source.end.Cut? ==> s.up.source.bytes == s.up.sent)
            && (!s.client.ClientRelaying? && !s.client.ClientLeft? ==> s.up.sink.bytes == [] && s.down.sink.bytes == [])
            && (!s.client.ClientRelaying? && !s.client.ClientLeft? && s.down.middle.end.Open? && !s.down.source.end.Cut? ==> s.down.source.bytes == s.down.sent)
  {
    EarlyAlways(p, ws, acts, i);
    InvariantAlways(p, ws, acts, i);
    if Held(ws[i].up) { HeldMeans(ws[i].up); }
    if Held(ws[i].down) { HeldMeans(ws[i].down); }
  }

  // A side starts to relay only with its own control frame written out; the client, with the
  // acknowledgement as its answer.
  lemma WrittenOutFirst(p: Params, s: System, a: Label, t: System)
    requires Invariant(p, s) && Next(p, s, a, t)
    ensures !s.server.ServerRelaying? && t.server.ServerRelaying? ==> s.up.buf1 == []
    ensures !s.client.ClientRelaying? && t.client.ClientRelaying? ==> s.down.buf1 == [] && s.answer == Some(OpenStreamAck(p.tunnelId))
  {
  }

  lemma HeldMeans(f: Flow)
    requires Conserved(f) && Held(f)
    ensures f.sink.bytes == []
    ensures f.middle.end.Open? && !f.source.end.Cut? ==> f.source.bytes == f.sent
  {
    if f.middle.end.Open? && !f.source.end.Cut? {
      assert Everything(f) == (Arrived(f) + f.buf1) + f.source.bytes;
      assert Everything(f)[|f.preamble|..] == f.source.bytes;
      assert (f.preamble + f.sent)[|f.preamble|..] == f.sent;
    }
  }
}
