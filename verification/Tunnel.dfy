// A visitor's connection carried to a local service: `open_client_stream` on the server against
// `handle_data_stream` on the client, over one bidirectional stream of bytes, then the four copy loops.
module Tunnel {
  import opened Basics
  import opened Types
  import opened Framing
  import opened FrameCodec
  import opened ControlStream
  import opened CopyFlow

  datatype OpenError = LocalTargetRejected | InvalidAcknowledgement | StreamFailed

  // The server sends OpenStream and waits for its answer, then relays.
  datatype Server = AwaitingAck | ServerRelaying | ServerLeft(openError: OpenError)

  datatype Client =
    | AwaitingOpen
    | Dialling(tunnelId: Uuid, address: string)
    | Answering(frame: Frame)
    | ClientRelaying
    | ClientLeft

  // The tunnel and service the server asks for, and what the client published.
  datatype Params = Params(tunnelId: Uuid, serviceId: Uuid, local: map<Uuid, string>)

  // `up` runs from the visitor to the local service, `down` back. `dialled` and `answer` record what the
  // client connected to and wrote.
  datatype System = System(
    server: Server, client: Client, up: Flow, down: Flow, dialled: Option<string>, answer: Option<Frame>)

  datatype Label =
    | ServerReads
    | ClientReads
    | Dialled(error: Option<string>)
    | AnswerWritten
    | Copies(isUp: bool, move: Move)
    | Sends(fromVisitor: bool, data: Bytes)
    | Ends(ofVisitor: bool)
    | ServerAborts
    | ClientAborts
    | Breaks(inUp: bool, source: bool, kept: nat)

  // ---- Steps ----

  // A side that leaves drops its ends of the stream and its socket.
  function ServerLeaves(s: System, e: OpenError): System {
    s.(server := ServerLeft(e), up := s.up.(middle := Cutoff(s.up.middle)), down := s.down.(sink := Cutoff(s.down.sink)))
  }

  function ClientLeaves(s: System): System {
    s.(client := ClientLeft, down := s.down.(middle := Cutoff(s.down.middle)), up := s.up.(sink := Cutoff(s.up.sink)))
  }

  // `read_exact` waits while the frame may still be completed.
  ghost predicate Waits(r: Result<Frame, ReadError>, p: Pipe) {
    r == Err(UnexpectedEof) && p.end.Open?
  }

  // The stream is returned only for an acknowledgement of this tunnel; reading it leaves the bytes after it.
  ghost function ServerRead(p: Params, s: System): Option<System> {
    var (r: Result<Frame, ReadError>, rest: seq<u8>) := ReadFrame(DecodeFramePayload, s.down.middle.bytes);
    if !s.server.AwaitingAck? || s.up.buf1 != [] || Waits(r, s.down.middle) then None
    else
      match r
      case Ok(OpenStreamAck(ack)) =>
        if ack == p.tunnelId then
          Some(s.(server := ServerRelaying, down := s.down.(middle := s.down.middle.(bytes := rest), preamble := [])))
        else Some(ServerLeaves(s, InvalidAcknowledgement))
      case Ok(Error(_)) => Some(ServerLeaves(s, LocalTargetRejected))
      case Ok(_) => Some(ServerLeaves(s, InvalidAcknowledgement))
      case Err(_) => Some(ServerLeaves(s, StreamFailed))
  }

  ghost function ClientRead(p: Params, s: System): Option<System> {
    var (r: Result<Frame, ReadError>, rest: seq<u8>) := ReadFrame(DecodeFramePayload, s.up.middle.bytes);
    if !s.client.AwaitingOpen? || Waits(r, s.up.middle) then None
    else
      match r
      case Ok(OpenStream(tunnelId, serviceId)) =>
        if serviceId in p.local then
          Some(s.(client := Dialling(tunnelId, p.local[serviceId]),
                  up := s.up.(middle := s.up.middle.(bytes := rest), preamble := [])))
        else Some(ClientLeaves(s))
      case _ => Some(ClientLeaves(s))
  }

  // `write_control_frame`: an answer too large to encode ends the handler instead.
  ghost function Answered(s: System, f: Frame): System {
    if Encodable(f) then
      s.(client := Answering(f), answer := Some(f), down := Put(s.down, Encoded(f)))
    else ClientLeaves(s)
  }

  ghost function ClientDials(s: System, error: Option<string>): Option<System> {
    if !s.client.Dialling? then None
    else
      match error
      case None => Some(Answered(s.(dialled := Some(s.client.address)), OpenStreamAck(s.client.tunnelId)))
      case Some(text) => Some(Answered(s, Error(text)))
  }

  // The answer is written out: relay after an acknowledgement, return after an error.
  function ClientProceeds(s: System): Option<System> {
    if !s.client.Answering? || s.down.buf1 != [] then None
    else if s.client.frame.OpenStreamAck? then Some(s.(client := ClientRelaying))
    else Some(ClientLeaves(s))
  }

  // The server runs the first loop of `up` and the second of `down`; while a control frame is being
  // written only that loop's writes go on.
  predicate MayMove(s: System, isUp: bool, m: Move) {
    if isUp == SecondStage(m) then s.client.ClientRelaying? || (!isUp && m.Writes1? && s.client.Answering?)
    else s.server.ServerRelaying? || (isUp && m.Writes1? && s.server.AwaitingAck?)
  }

  function Directed(s: System, isUp: bool): Flow {
    if isUp then s.up else s.down
  }

  function WithFlow(s: System, isUp: bool, f: Flow): System {
    if isUp then s.(up := f) else s.(down := f)
  }

  function Copied(s: System, isUp: bool, m: Move): Option<System> {
    if !MayMove(s, isUp, m) then None
    else
      match Moved(Directed(s, isUp), m)
      case None => None
      case Some(f) => Some(WithFlow(s, isUp, f))
  }

  // The local service speaks only once it has been dialled.
  predicate MaySend(s: System, isUp: bool) {
    Directed(s, isUp).source.end.Open? && (isUp || s.dialled.Some?)
  }

  ghost predicate Next(p: Params, s: System, a: Label, t: System) {
    match a
    case ServerReads => ServerRead(p, s) == Some(t)
    case ClientReads => ClientRead(p, s) == Some(t)
    case Dialled(error) => ClientDials(s, error) == Some(t)
    case AnswerWritten => ClientProceeds(s) == Some(t)
    case Copies(isUp, m) => Copied(s, isUp, m) == Some(t)
    case Sends(isUp, data) => MaySend(s, isUp) && t == WithFlow(s, isUp, Sent(Directed(s, isUp), data))
    case Ends(isUp) => MaySend(s, isUp) && t == WithFlow(s, isUp, Ended(Directed(s, isUp)))
    case ServerAborts => !s.server.ServerLeft? && t == ServerLeaves(s, StreamFailed)
    case ClientAborts => !s.client.ClientLeft? && t == ClientLeaves(s)
    case Breaks(isUp, source, kept) =>
      Breakable(Directed(s, isUp), source) && t == WithFlow(s, isUp, Broke(Directed(s, isUp), source, kept))
  }

  ghost function Opening(p: Params): Bytes {
    Encoded(OpenStream(p.tunnelId, p.serviceId))
  }

  // The server has looked up the service's node and opened the stream; OpenStream is about to be written.
  ghost function Initial(p: Params): System {
    var idle := Pipe([], Open);
    System(AwaitingAck, AwaitingOpen,
           Flow([], idle, Opening(p), idle, [], idle, Opening(p)), Flow([], idle, [], idle, [], idle, []), None, None)
  }

  ghost predicate IsRun(p: Params, ws: seq<System>, acts: seq<Label>) {
    && |ws| == |acts| + 1 && ws[0] == Initial(p)
    && forall i | 0 <= i < |acts| :: Next(p, ws[i], acts[i], ws[i + 1])
  }

  // ---- Reading a control frame off a stream that carries data behind it ----

  lemma PutUuidSize(id: Uuid, rest: seq<u8>)
    ensures |Postcard.PutUuid(id, rest)| == 17 + |rest|
  {
  }

  lemma TunnelFramesEncodable(tunnelId: Uuid, serviceId: Uuid)
    ensures Encodable(OpenStream(tunnelId, serviceId)) && Encodable(OpenStreamAck(tunnelId))
  {
    PutUuidSize(serviceId, []);
    PutUuidSize(tunnelId, Postcard.PutUuid(serviceId, []));
    PutUuidSize(tunnelId, []);
  }

  lemma PrefixSplits(control: Bytes, data: Bytes, arrived: Bytes)
    requires arrived <= control + data && |control| <= |arrived|
    ensures arrived == control + arrived[|control|..] && arrived[|control|..] <= data
  {
  }

  // Whatever part of `Encoded(f)` and the data behind it has arrived, the reader either cannot finish yet or gets exactly
  // `f` and leaves exactly the data that arrived.
  lemma ReadsPreamble(f: Frame, control: Bytes, data: Bytes, arrived: Bytes)
    requires Encodable(f) && control == Encoded(f) && arrived <= control + data
    ensures var (r, rest) := ReadFrame(DecodeFramePayload, arrived);
            if |arrived| < |control| then r == Err(UnexpectedEof)
            else r == Ok(f) && arrived == control + rest && rest <= data
  {
    if |arrived| < |control| {
      ReadShort(DecodeFramePayload, PutFrame(f, []), data, arrived);
    } else {
      PrefixSplits(control, data, arrived);
      ReadEncoded(f, arrived[|control|..]);
    }
  }

  // ---- The invariant ----

  predicate AckOf(p: Params, f: Frame) {
    f == OpenStreamAck(p.tunnelId)
  }

  ghost predicate ClientInvariant(p: Params, s: System) {
    && (s.answer.Some? ==> Encodable(s.answer.value)
                           && ((AckOf(p, s.answer.value) && p.serviceId in p.local && s.dialled == Some(p.local[p.serviceId]))
                               || s.answer.value.Error?)
                           && s.up.preamble == [])
    && match s.client
       case AwaitingOpen => s.up.preamble == Opening(p) && s.answer.None? && !AtEnd(s.up.sink)
       case Dialling(t, a) => t == p.tunnelId && p.serviceId in p.local && a == p.local[p.serviceId] && s.up.preamble == [] && s.answer.None?
       case Answering(f) => s.answer == Some(f) && s.up.preamble == [] && !s.down.middle.end.Shut?
       case ClientRelaying => s.answer.Some? && AckOf(p, s.answer.value) && s.up.preamble == []
       case ClientLeft => true
  }

  ghost predicate ServerInvariant(p: Params, s: System) {
    && (s.answer.None? ==> Untouched(s.down))
    && match s.server
       case AwaitingAck =>
         && s.down.preamble == (if s.answer.Some? then Encoded(s.answer.value) else [])
         && s.down.sink.bytes == [] && s.down.buf2 == [] && !AtEnd(s.down.sink)
       case ServerRelaying => s.answer.Some? && AckOf(p, s.answer.value) && s.down.preamble == []
       case ServerLeft(e) => e != InvalidAcknowledgement
  }

  ghost predicate Invariant(p: Params, s: System) {
    Conserved(s.up) && Conserved(s.down) && ClientInvariant(p, s) && ServerInvariant(p, s)
  }

  // What the next control read sees, in a flow whose unread control bytes encode `f`.
  lemma ReadsConserved(flow: Flow, f: Frame)
    requires Conserved(flow) && Encodable(f) && flow.preamble == Encoded(f)
    ensures var (r, rest) := ReadFrame(DecodeFramePayload, flow.middle.bytes);
            || (r == Err(UnexpectedEof) && !flow.middle.end.Shut?)
            || (r == Ok(f) && Conserved(flow.(middle := flow.middle.(bytes := rest), preamble := [])))
  {
    assert flow.middle.bytes == Arrived(flow);
    assert Arrived(flow) <= Everything(flow);
    ReadsPreamble(f, flow.preamble, flow.sent, flow.middle.bytes);
    var (r: Result<Frame, ReadError>, rest: seq<u8>) := ReadFrame(DecodeFramePayload, flow.middle.bytes);
    if |flow.middle.bytes| >= |Encoded(f)| {
      TakeKeepsConserved(flow, rest);
    }
  }

  lemma LeavingKeepsInvariant(p: Params, s: System, e: OpenError)
    requires Invariant(p, s)
    ensures e != InvalidAcknowledgement ==> Invariant(p, ServerLeaves(s, e))
    ensures Invariant(p, ClientLeaves(s))
  {
    CutsKeepConserved(s.up);
    CutsKeepConserved(s.down);
  }

  lemma ServerReadKeepsInvariant(p: Params, s: System, t: System)
    requires Invariant(p, s) && ServerRead(p, s) == Some(t)
    ensures Invariant(p, t)
  {
    if s.answer.Some? {
      ReadsConserved(s.down, s.answer.value);
    }
    LeavingKeepsInvariant(p, s, StreamFailed);
    LeavingKeepsInvariant(p, s, LocalTargetRejected);
  }

  lemma ClientReadKeepsInvariant(p: Params, s: System, t: System)
    requires Invariant(p, s) && ClientRead(p, s) == Some(t)
    ensures Invariant(p, t)
  {
    TunnelFramesEncodable(p.tunnelId, p.serviceId);
    ReadsConserved(s.up, OpenStream(p.tunnelId, p.serviceId));
    LeavingKeepsInvariant(p, s, StreamFailed);
  }

  lemma AnswerKeepsInvariant(p: Params, s: System, f: Frame, control: Bytes, t: System)
    requires Invariant(p, s) && s.answer.None? && s.up.preamble == [] && Encodable(f) && control == Encoded(f)
    requires f.Error? || (AckOf(p, f) && p.serviceId in p.local && s.dialled == Some(p.local[p.serviceId]))
    requires t == s.(client := Answering(f), answer := Some(f), down := Put(s.down, control))
    ensures Conserved(t.up) && Conserved(t.down) && ClientInvariant(p, t) && ServerInvariant(p, t)
  {
    PutKeepsConserved(s.down, control);
  }

  lemma DialKeepsInvariant(p: Params, s: System, error: Option<string>, t: System)
    requires Invariant(p, s) && ClientDials(s, error) == Some(t)
    ensures Invariant(p, t)
  {
    LeavingKeepsInvariant(p, s, StreamFailed);
    match error
    case None =>
      TunnelFramesEncodable(p.tunnelId, p.serviceId);
      var f := OpenStreamAck(s.client.tunnelId);
      AnswerKeepsInvariant(p, s.(dialled := Some(s.client.address)), f, Encoded(f), t);
    case Some(text) =>
      if Encodable(Error(text)) { AnswerKeepsInvariant(p, s, Error(text), Encoded(Error(text)), t); }
  }

  lemma ProceedKeepsInvariant(p: Params, s: System, t: System)
    requires Invariant(p, s) && ClientProceeds(s) == Some(t)
    ensures Invariant(p, t)
  {
    LeavingKeepsInvariant(p, s, StreamFailed);
  }

  lemma CopyKeepsInvariant(p: Params, s: System, isUp: bool, m: Move, t: System)
    requires Invariant(p, s) && Copied(s, isUp, m) == Some(t)
    ensures Invariant(p, t)
  {
    MoveKeepsConserved(Directed(s, isUp), m, Directed(t, isUp));
  }

  lemma EndpointKeepsInvariant(p: Params, s: System, a: Label, t: System)
    requires Invariant(p, s) && Next(p, s, a, t) && (a.Sends? || a.Ends? || a.Breaks?)
    ensures Invariant(p, t)
  {
    match a
    case Sends(isUp, data) => SendKeepsConserved(Directed(s, isUp), data);
    case Breaks(isUp, source, kept) => BreakKeepsConserved(Directed(s, isUp), source, kept);
    case _ =>
  }

  lemma StepKeepsInvariant(p: Params, s: System, a: Label, t: System)
    requires Invariant(p, s) && Next(p, s, a, t)
    ensures Invariant(p, t)
  {
    match a
    case ServerReads => ServerReadKeepsInvariant(p, s, t);
    case ClientReads => ClientReadKeepsInvariant(p, s, t);
    case Dialled(error) => DialKeepsInvariant(p, s, error, t);
    case AnswerWritten => ProceedKeepsInvariant(p, s, t);
    case Copies(isUp, m) => CopyKeepsInvariant(p, s, isUp, m, t);
    case ServerAborts => LeavingKeepsInvariant(p, s, StreamFailed);
    case ClientAborts => LeavingKeepsInvariant(p, s, StreamFailed);
    case _ => EndpointKeepsInvariant(p, s, a, t);
  }

  lemma StartsInvariant(p: Params)
    ensures Invariant(p, Initial(p)) && Uncut(p, Initial(p))
  {
    IdleConserved(Opening(p));
    IdleConserved([]);
  }

  lemma {:induction false} InvariantAlways(p: Params, ws: seq<System>, acts: seq<Label>, i: nat)
    requires IsRun(p, ws, acts) && i < |ws|
    ensures Invariant(p, ws[i])
  {
    if i == 0 {
      StartsInvariant(p);
    } else {
      InvariantAlways(p, ws, acts, i - 1);
      assert Next(p, ws[i - 1], acts[i - 1], ws[i - 1 + 1]);
      StepKeepsInvariant(p, ws[i - 1], acts[i - 1], ws[i]);
    }
  }

  // ---- What every run keeps ----

  // The server gets its stream only after the client dialled the address it published for that very
  // service and echoed this tunnel's id; it never meets an unexpected answer.
  lemma OpenedMeansDialled(p: Params, ws: seq<System>, acts: seq<Label>, i: nat)
    requires IsRun(p, ws, acts) && i < |ws|
    ensures ws[i].server.ServerRelaying? ==>
              && p.serviceId in p.local && ws[i].dialled == Some(p.local[p.serviceId])
              && ws[i].answer == Some(OpenStreamAck(p.tunnelId))
    ensures ws[i].server != ServerLeft(InvalidAcknowledgement)
  {
    InvariantAlways(p, ws, acts, i);
  }

  // Transparency, whatever breaks and whenever: each far end has received a prefix of what was sent to
  // it, and all of it once a chain of orderly ends has reached it.
  lemma TunnelTransparent(p: Params, ws: seq<System>, acts: seq<Label>, i: nat)
    requires IsRun(p, ws, acts) && i < |ws|
    ensures forall isUp ::
              var f := Directed(ws[i], isUp);
              f.sink.bytes <= f.sent && (f.sink.end.Shut? ==> f.sink.bytes == f.sent && f.source.end.Shut?)
  {
    InvariantAlways(p, ws, acts, i);
    ConservedMeans(ws[i].up);
    ConservedMeans(ws[i].down);
  }

  // ---- Nothing is cut without a failure ----

  predicate Faulty(a: Label) {
    a.ServerAborts? || a.ClientAborts? || a.Breaks?
  }

  // Without failures a side leaves only if there will be no acknowledgement, and only those that left cut.
  ghost predicate Uncut(p: Params, s: System) {
    && !s.up.source.end.Cut? && !s.down.source.end.Cut?
    && (s.server.ServerLeft? || s.client.ClientLeft? ==> s.answer != Some(OpenStreamAck(p.tunnelId)))
    && (s.server.ServerLeft? ==> s.client.ClientLeft? || s.answer.Some?)
    && (!s.server.ServerLeft? ==> !s.up.middle.end.Cut? && !s.down.sink.end.Cut?)
    && (!s.client.ClientLeft? ==> !s.down.middle.end.Cut? && !s.up.sink.end.Cut?)
  }

  lemma ServerReadKeepsUncut(p: Params, s: System, t: System)
    requires Invariant(p, s) && Uncut(p, s) && ServerRead(p, s) == Some(t)
    ensures Uncut(p, t)
  {
    if s.answer.Some? {
      ReadsConserved(s.down, s.answer.value);
    }
  }

  lemma ClientStepKeepsUncut(p: Params, s: System, a: Label, t: System)
    requires Invariant(p, s) && Uncut(p, s) && Next(p, s, a, t) && (a.ClientReads? || a.Dialled? || a.AnswerWritten?)
    ensures Uncut(p, t)
  {
    TunnelFramesEncodable(p.tunnelId, p.serviceId);
  }

  lemma CopyKeepsUncut(p: Params, s: System, isUp: bool, m: Move, t: System)
    requires Invariant(p, s) && Uncut(p, s) && Copied(s, isUp, m) == Some(t)
    ensures Uncut(p, t)
  {
  }

  lemma StepKeepsUncut(p: Params, s: System, a: Label, t: System)
    requires Invariant(p, s) && Uncut(p, s) && Next(p, s, a, t) && !Faulty(a)
    ensures Uncut(p, t)
  {
    match a
    case ServerReads => ServerReadKeepsUncut(p, s, t);
    case Copies(isUp, m) => CopyKeepsUncut(p, s, isUp, m, t);
    case Sends(_, _) =>
    case Ends(_) =>
    case _ => ClientStepKeepsUncut(p, s, a, t);
  }

  lemma {:induction false} UncutAlways(p: Params, ws: seq<System>, acts: seq<Label>, i: nat)
    requires IsRun(p, ws, acts) && i < |ws| && forall a | a in acts :: !Faulty(a)
    ensures Uncut(p, ws[i])
  {
    if i == 0 {
      StartsInvariant(p);
    } else {
      UncutAlways(p, ws, acts, i - 1);
      InvariantAlways(p, ws, acts, i - 1);
      assert Next(p, ws[i - 1], acts[i - 1], ws[i - 1 + 1]);
      assert acts[i - 1] in acts;
      StepKeepsUncut(p, ws[i - 1], acts[i - 1], ws[i]);
    }
  }

  // The relay itself has nothing left to do.
  ghost predicate Settled(s: System) {
    ClientProceeds(s).None? && forall isUp, m :: Copied(s, isUp, m).None?
  }

  // Once the tunnel is open and both endpoints have ended their side, a relay on which nothing fails
  // comes to rest exactly when both have received all that was sent and its end.
  lemma SettledIffDelivered(p: Params, ws: seq<System>, acts: seq<Label>, i: nat)
    requires IsRun(p, ws, acts) && i < |ws| && forall a | a in acts :: !Faulty(a)
    requires ws[i].server.ServerRelaying? && ws[i].up.source.end.Shut? && ws[i].down.source.end.Shut?
    ensures var s := ws[i];
            Settled(s) <==> s.up.sink == Pipe(s.up.sent, Shut) && s.down.sink == Pipe(s.down.sent, Shut)
  {
    var s := ws[i];
    InvariantAlways(p, ws, acts, i);
    UncutAlways(p, ws, acts, i);
    assert s.down.preamble == [] && s.up.preamble == [];
    StuckIsDelivered(s.up);
    StuckIsDelivered(s.down);
    if s.client.Answering? {
      assert s.down.buf1 != [] && s.down.middle.end.Open? ==> Copied(s, false, Writes1(1)).Some?;
    } else {
      assert forall isUp, m :: Copied(s, isUp, m).None? <==> Moved(Directed(s, isUp), m).None?;
      assert (forall isUp, m :: Moved(Directed(s, isUp), m).None?) <==> (forall m :: Moved(s.up, m).None?) && (forall m :: Moved(s.down, m).None?) by {
        assert Directed(s, true) == s.up && Directed(s, false) == s.down;
      }
    }
  }
}
