/**
 The whole path of a packet: producers and the writer thread share the send queue, the
 writer pushes bytes into the connection in partial writes, and the client reads them back
 in chunks of its own. Locked sections and single writes or reads are atomic steps.
 */
module Transport {
  import opened Bytes
  import opened CameraPacket
  import Framing
  import opened PacketStream
  import opened Reassembly
  import opened Sequences
  import opened Wrappers

  const CAMERA_CAP := 6
  const JSON_CAP := 10

  /** A packet the writer holds, and how many of its bytes are written. */
  datatype Flight = Flight(packet: Packet, total: nat)

  datatype Server = Server(
    queue: seq<Packet>,
    flight: Option<Flight>,
    connected: bool,
    exited: bool,
    wire: seq<byte>,
    accepted: seq<Packet>,  // everything that entered the queue
    written: seq<Packet>,   // everything written completely
    aborted: seq<Packet>)   // popped, but not written completely because the connection was lost

  const IDLE := Server([], None, true, false, [], [], [], [])

  datatype Step =
    | EnqueueCamera(packet: Packet)
    | EnqueueJson(json: seq<byte>)
    | Pop
    | Write(n: nat)
    | WriteError
    | FinishPacket
    | ReaderLost
    | WriterExit

  predicate Enabled(s: Server, step: Step) {
    match step
    case EnqueueCamera(_) => true
    case EnqueueJson(_) => true
    case Pop => !s.exited && s.flight.None? && s.queue != []
    case Write(n) => !s.exited && s.connected && s.flight.Some? && 0 < n <= |Encode(s.flight.value.packet)| - s.flight.value.total
    case WriteError => !s.exited && s.connected && s.flight.Some? && s.flight.value.total < |Encode(s.flight.value.packet)|
    case FinishPacket => !s.exited && s.flight.Some? && (s.flight.value.total >= |Encode(s.flight.value.packet)| || !s.connected)
    case ReaderLost => true
    case WriterExit => !s.connected && s.flight.None?
  }

  function Next(s: Server, step: Step): Server
    requires Enabled(s, step)
  {
    match step
    case EnqueueCamera(p) => if |s.queue| < CAMERA_CAP then Accept(s, p) else s
    case EnqueueJson(json) => if |s.queue| < JSON_CAP then Accept(s, Packet(0, json, [])) else s
    case Pop => s.(queue := s.queue[1..], flight := Some(Flight(s.queue[0], 0)))
    case Write(n) =>
      var f := s.flight.value;
      s.(wire := s.wire + Encode(f.packet)[f.total..f.total + n], flight := Some(f.(total := f.total + n)))
    case WriteError => s.(connected := false, exited := true)
    case FinishPacket =>
      var f := s.flight.value;
      if f.total >= |Encode(f.packet)| then s.(written := s.written + [f.packet], flight := None)
      else s.(aborted := s.aborted + [f.packet], flight := None)
    case ReaderLost => s.(connected := false)
    case WriterExit => s.(exited := true)
  }

  function Accept(s: Server, p: Packet): Server {
    s.(queue := s.queue + [p], accepted := s.accepted + [p])
  }

  function InFlight(s: Server): seq<Packet> {
    if s.flight.Some? then [s.flight.value.packet] else []
  }

  /** Accepted, not completely written, in order. */
  function Outstanding(s: Server): seq<Packet> {
    s.aborted + InFlight(s) + s.queue
  }

  /** How much of the first outstanding packet is on the wire. */
  function Partial(s: Server): seq<byte>
    requires s.flight.Some? ==> s.flight.value.total <= |Encode(s.flight.value.packet)|
  {
    if s.aborted == [] && s.flight.Some? then Encode(s.flight.value.packet)[..s.flight.value.total] else []
  }

  /** Never more than ten packets, and never more than five ahead of a camera packet. */
  ghost predicate QueueBounds(queue: seq<Packet>) {
    |queue| <= 10 && forall i :: 0 <= i < |queue| && queue[i].camera != 0 ==> i <= 5
  }

  ghost predicate Inv(s: Server) {
    && s.accepted == s.written + Outstanding(s)
    && (s.flight.Some? ==> s.flight.value.total <= |Encode(s.flight.value.packet)|)
    && (s.connected ==> s.aborted == [] && !s.exited)
    && (s.aborted != [] && s.flight.Some? ==> s.flight.value.total == 0)
    && (s.aborted == [] ==> s.wire == EncodeAll(s.written) + Partial(s))
    && EncodeAll(s.written) <= s.wire <= EncodeAll(s.accepted)
    && QueueBounds(s.queue)
  }

  lemma {:induction false} OnePacketMore(a: seq<Packet>, p: Packet)
    ensures EncodeAll(a + [p]) == EncodeAll(a) + Encode(p)
  {
    EncodeAllAppend(a, [p]);
    OnePacket(p);
  }

  lemma AcceptKeeps(s: Server, p: Packet)
    requires Inv(s) && |s.queue| < JSON_CAP && (p.camera != 0 ==> |s.queue| < CAMERA_CAP)
    ensures Inv(Accept(s, p))
  {
    assert s.written + Outstanding(s) + [p] == s.written + (s.aborted + InFlight(s) + (s.queue + [p]));
    OnePacketMore(s.accepted, p);
  }

  lemma WriteKeeps(s: Server, n: nat)
    requires Inv(s) && Enabled(s, Write(n))
    ensures Inv(Next(s, Write(n)))
  {
    var f, t := s.flight.value, Next(s, Write(n));
    var bytes := Encode(f.packet);
    assert t.wire == EncodeAll(s.written) + bytes[..f.total + n] by {
      Reassociate(EncodeAll(s.written), bytes[..f.total], bytes[f.total..f.total + n]);
      assert bytes[..f.total] + bytes[f.total..f.total + n] == bytes[..f.total + n];
    }
    assert s.accepted == (s.written + [f.packet]) + s.queue;
    EncodeAllAppend(s.written + [f.packet], s.queue);
    OnePacketMore(s.written, f.packet);
    PrefixOfSum(EncodeAll(s.written), bytes, EncodeAll(s.queue), f.total + n);
    assert Outstanding(t) == Outstanding(s);
  }

  lemma PrefixOfSum<T>(a: seq<T>, b: seq<T>, c: seq<T>, n: nat)
    requires n <= |b|
    ensures a + b[..n] <= (a + b) + c
  {
  }

  lemma FinishKeeps(s: Server)
    requires Inv(s) && Enabled(s, FinishPacket)
    ensures Inv(Next(s, FinishPacket))
  {
    hide Encode, QueueBounds;
    var f, t := s.flight.value, Next(s, FinishPacket);
    if f.total >= |Encode(f.packet)| {
      OnePacketMore(s.written, f.packet);
      assert s.accepted == t.written + Outstanding(t);
      assert Encode(f.packet)[..f.total] == Encode(f.packet);
      assert EncodeAll(t.written) + [] == EncodeAll(t.written);
    } else {
      assert s.aborted + [f.packet] + s.queue == Outstanding(t);
    }
  }

  lemma StepKeeps(s: Server, step: Step)
    requires Inv(s) && Enabled(s, step)
    ensures Inv(Next(s, step))
  {
    match step
    case EnqueueCamera(p) =>
      if |s.queue| < CAMERA_CAP { AcceptKeeps(s, p); }
    case EnqueueJson(json) =>
      if |s.queue| < JSON_CAP { AcceptKeeps(s, Packet(0, json, [])); }
    case Pop =>
      assert s.queue == [s.queue[0]] + s.queue[1..];
      assert Outstanding(Next(s, Pop)) == Outstanding(s);
    case Write(n) => WriteKeeps(s, n);
    case FinishPacket => FinishKeeps(s);
    case WriteError => assert Outstanding(Next(s, step)) == Outstanding(s);
    case ReaderLost => assert Outstanding(Next(s, step)) == Outstanding(s);
    case WriterExit => assert Outstanding(Next(s, step)) == Outstanding(s);
  }

  // ---- The server's session: queue, producers and writer thread ----

  function PreparedAll(ps: seq<Packet>): (sps: seq<SendPacket>)
    ensures |sps| == |ps|
    ensures forall i :: 0 <= i < |ps| ==> sps[i] == Prepared(ps[i])
  {
    seq(|ps|, i requires 0 <= i < |ps| => Prepared(ps[i]))
  }

  /** The encrypted connection, on the writing side. */
  class Connection {
    var bytes: seq<byte>     // written so far
    ghost var failed: bool   // a write has reported an error other than that it must be repeated

    constructor ()
      ensures bytes == [] && !failed
    {
      bytes, failed := [], false;
    }

    /** SSL_write: takes any number of bytes from the front, none if it fails or must be repeated. */
    method Write(data: seq<byte>) returns (n: int, repeat: bool)
      requires data != []
      modifies this
      ensures n <= |data| && bytes == old(bytes) + (if n > 0 then data[..n] else [])
      ensures failed <==> old(failed) || (n <= 0 && !repeat)
    {
      n :| n <= |data|;
      repeat := *;
      if n > 0 {
        bytes := bytes + data[..n];
      } else if !repeat {
        failed := true;
      }
    }
  }

  class Session {
    const ssl: Connection
    var queue: seq<SendPacket>
    var sending: Option<SendPacket>
    var total: nat
    var connected: bool
    var exited: bool
    ghost var server: Server

    ghost predicate Valid()
      reads this, ssl
    {
      && Inv(server)
      && queue == PreparedAll(server.queue)
      && sending == (if server.flight.Some? then Some(Prepared(server.flight.value.packet)) else None)
      && (server.flight.Some? ==> total == server.flight.value.total)
      && connected == server.connected && exited == server.exited && ssl.bytes == server.wire
      && (ssl.failed ==> exited)
    }

    constructor (ssl: Connection)
      requires ssl.bytes == [] && !ssl.failed
      ensures Valid() && server == IDLE && this.ssl == ssl
    {
      this.ssl := ssl;
      queue, sending, total, connected, exited := [], None, 0, true, false;
      server := IDLE;
    }

    method EnqueueCameraPacket(camera: uint32, json: seq<byte>, image: seq<byte>)
      requires Valid()
      modifies this
      ensures Valid() && server == Next(old(server), EnqueueCamera(Packet(camera, json, image)))
      ensures queue == old(queue) + (if |old(queue)| < 6 then [Prepared(Packet(camera, json, image))] else [])
      ensures sending == old(sending) && total == old(total) && connected == old(connected)
    {
      hide Encode, EncodeAll, Inv;
      var pkt := MakePacket(camera, json, image);
      if |queue| < 6 {
        queue := queue + [pkt];
      }
      StepKeeps(server, EnqueueCamera(Packet(camera, json, image)));
      server := Next(server, EnqueueCamera(Packet(camera, json, image)));
    }

    method EnqueueJsonPacket(json: seq<byte>)
      requires Valid()
      modifies this
      ensures Valid() && server == Next(old(server), EnqueueJson(json))
      ensures queue == old(queue) + (if |old(queue)| < 10 then [Prepared(Packet(0, json, []))] else [])
      ensures sending == old(sending) && total == old(total) && connected == old(connected)
    {
      hide Encode, EncodeAll, Inv;
      var pkt := MakePacket(0, json, []);
      if |queue| < 10 {
        queue := queue + [pkt];
      }
      StepKeeps(server, EnqueueJson(json));
      server := Next(server, EnqueueJson(json));
    }

    /** One atomic action of the writer thread; `step` says which, None if it only waited. */
    method WriterTurn() returns (ghost step: Option<Step>)
      requires Valid() && !exited
      modifies this, ssl
      ensures Valid()
      ensures step.None? ==> server == old(server)
      ensures step.Some? ==> Enabled(old(server), step.value) && server == Next(old(server), step.value)
      ensures step.None? ==> connected && (old(sending).Some? || old(queue) == [])
      ensures old(sending).None? && old(queue) != [] ==>
        sending == Some(old(queue)[0]) && queue == old(queue)[1..] && total == 0
      ensures old(sending).Some? && old(total) >= |old(sending).value.data| ==> sending == None
      ensures old(sending).Some? && !old(connected) ==> sending == None && ssl.bytes == old(ssl.bytes)
      ensures connected == (old(connected) && !ssl.failed)
    {
      hide EncodeAll, HeaderBytes;
      step := None;
      if sending.Some? {
        if total < |sending.value.data| && connected {
          step := WriteSome();
        } else {
          step := Some(FinishPacket);
          StepKeeps(server, FinishPacket);
          sending, server := None, Next(server, FinishPacket);
        }
      } else if queue != [] {
        step := Some(Pop);
        StepKeeps(server, Pop);
        sending, total, queue, server := Some(queue[0]), 0, queue[1..], Next(server, Pop);
      } else if !connected {
        step := Some(WriterExit);
        StepKeeps(server, WriterExit);
        exited, server := true, Next(server, WriterExit);
      }
    }

    /** One SSL_write of the unsent bytes; only an error of the connection ends the thread. */
    method WriteSome() returns (ghost step: Option<Step>)
      requires Valid() && !exited && connected && sending.Some? && total < |sending.value.data|
      modifies this, ssl
      ensures Valid()
      ensures step.None? ==> server == old(server) && connected
      ensures step.Some? ==> Enabled(old(server), step.value) && server == Next(old(server), step.value)
      ensures sending == old(sending) && queue == old(queue) && old(total) <= total <= |sending.value.data|
      ensures ssl.bytes == old(ssl.bytes) + sending.value.data[old(total)..total]
      ensures exited == !connected == ssl.failed
    {
      hide EncodeAll, HeaderBytes;
      var data := sending.value.data;
      var n, repeat := ssl.Write(data[total..]);
      if n > 0 {
        step := Some(Write(n));
        StepKeeps(server, Write(n));
        assert data[total..][..n] == data[total..total + n];
        total, server := total + n, Next(server, Write(n));
        return;
      }
      if repeat {
        step := None;
      } else {
        step := Some(WriteError);
        StepKeeps(server, WriteError);
        connected, exited, server := false, true, Next(server, WriteError);
      }
    }

    /** The reader thread saw the connection fail. */
    method LoseConnection()
      requires Valid()
      modifies this
      ensures Valid() && server == Next(old(server), ReaderLost)
      ensures !connected && queue == old(queue) && sending == old(sending) && total == old(total)
    {
      connected := false;
      StepKeeps(server, ReaderLost);
      server := Next(server, ReaderLost);
    }
  }

  // ---- The server in every run ----

  /** A run of the server: any interleaving of enabled steps. */
  ghost predicate IsServerRun(s: Server, steps: seq<Step>)
    decreases |steps|
  {
    steps == [] || (Enabled(s, steps[0]) && IsServerRun(Next(s, steps[0]), steps[1..]))
  }

  ghost function AfterSteps(s: Server, steps: seq<Step>): Server
    requires IsServerRun(s, steps)
    decreases |steps|
  {
    if steps == [] then s else AfterSteps(Next(s, steps[0]), steps[1..])
  }

  lemma {:induction false} StepsKeep(s: Server, steps: seq<Step>)
    requires Inv(s) && IsServerRun(s, steps)
    ensures Inv(AfterSteps(s, steps))
    decreases |steps|
  {
    if steps != [] {
      StepKeeps(s, steps[0]);
      StepsKeep(Next(s, steps[0]), steps[1..]);
    }
  }

  /**
   In every interleaving of producers, writer and reader thread, whatever the packets and whatever
   becomes of the bytes: what was accepted is written ++ aborted ++ in flight ++ queued, with nothing
   aborted while connected; the wire is whole packets and a part of the next; at most ten packets
   are queued and at most five are ahead of a camera packet.
   */
  lemma ServerEveryRun(steps: seq<Step>)
    requires IsServerRun(IDLE, steps)
    ensures var s := AfterSteps(IDLE, steps);
      && s.accepted == Admitted(0, steps) && s.accepted == s.written + s.aborted + InFlight(s) + s.queue
      && Inv(s) && (s.connected ==> s.aborted == [] && s.wire == EncodeAll(s.written) + Partial(s))
      && EncodeAll(s.written) <= s.wire <= EncodeAll(s.accepted)
      && QueueBounds(s.queue)
  {
    StepsKeep(IDLE, steps);
    AcceptedAreAdmitted(IDLE, steps);
    hide AfterSteps, IsServerRun, Admitted, Encode, EncodeAll;
    assert [] + Admitted(0, steps) == Admitted(0, steps);
    AcceptedInOrder(AfterSteps(IDLE, steps));
  }

  lemma AcceptedInOrder(s: Server)
    requires Inv(s)
    ensures s.accepted == s.written + s.aborted + InFlight(s) + s.queue
    ensures s.connected ==> s.wire == EncodeAll(s.written) + Partial(s)
  {
    assert s.written + Outstanding(s) == s.written + s.aborted + InFlight(s) + s.queue;
  }

  // ---- What is accepted ----

  /** How many packets wait after some steps, given how many waited before: counted along the steps. */
  function Waiting(waiting: nat, steps: seq<Step>): nat
    decreases |steps|
  {
    if steps == [] then waiting
    else if (steps[0].EnqueueCamera? && waiting < 6) || (steps[0].EnqueueJson? && waiting < 10) then Waiting(waiting + 1, steps[1..])
    else if steps[0].Pop? && waiting > 0 then Waiting(waiting - 1, steps[1..])
    else Waiting(waiting, steps[1..])
  }

  /** The packets enqueued while fewer than 6 (camera) or 10 (JSON) waited, read off the steps. */
  function Admitted(waiting: nat, steps: seq<Step>): seq<Packet>
    decreases |steps|
  {
    if steps == [] then []
    else
      var now := Waiting(waiting, [steps[0]]);
      match steps[0]
      case EnqueueCamera(p) => (if waiting < 6 then [p] else []) + Admitted(now, steps[1..])
      case EnqueueJson(json) => (if waiting < 10 then [Packet(0, json, [])] else []) + Admitted(now, steps[1..])
      case _ => Admitted(now, steps[1..])
  }

  lemma WaitingMore(waiting: nat, steps: seq<Step>)
    requires steps != []
    ensures Waiting(waiting, steps) == Waiting(Waiting(waiting, [steps[0]]), steps[1..])
  {
    assert [steps[0]][1..] == [];
  }

  lemma QueueStep(s: Server, step: Step)
    requires Enabled(s, step)
    ensures |Next(s, step).queue| == Waiting(|s.queue|, [step])
    ensures Next(s, step).accepted == s.accepted + Admitted(|s.queue|, [step])
  {
    assert [step][1..] == [];
    assert Admitted(Waiting(|s.queue|, [step]), []) == [];
  }

  /**
   In every run exactly the packets enqueued while fewer than 6 or 10 waited are accepted, in order,
   whatever was popped, written or lost in between.
   */
  lemma {:induction false} AcceptedAreAdmitted(s: Server, steps: seq<Step>)
    requires IsServerRun(s, steps)
    ensures AfterSteps(s, steps).accepted == s.accepted + Admitted(|s.queue|, steps)
    ensures |AfterSteps(s, steps).queue| == Waiting(|s.queue|, steps)
    decreases |steps|
  {
    if steps != [] {
      var t := Next(s, steps[0]);
      QueueStep(s, steps[0]);
      AcceptedAreAdmitted(t, steps[1..]);
      WaitingMore(|s.queue|, steps);
      AdmittedMore(|s.queue|, steps);
      Reassociate(s.accepted, Admitted(|s.queue|, [steps[0]]), Admitted(|t.queue|, steps[1..]));
    }
  }

  lemma AdmittedMore(waiting: nat, steps: seq<Step>)
    requires steps != []
    ensures Admitted(waiting, steps) == Admitted(waiting, [steps[0]]) + Admitted(Waiting(waiting, [steps[0]]), steps[1..])
  {
    assert [steps[0]][1..] == [];
    assert Admitted(Waiting(waiting, [steps[0]]), []) == [];
  }

  /** Once the connection is lost nothing more goes on the wire, and nothing restores it. */
  lemma {:induction false} LostStaysLost(s: Server, steps: seq<Step>)
    requires IsServerRun(s, steps) && !s.connected
    ensures var t := AfterSteps(s, steps); !t.connected && t.wire == s.wire
    decreases |steps|
  {
    if steps != [] {
      LostStaysLost(Next(s, steps[0]), steps[1..]);
    }
  }

  // ---- Server, connection and client together ----

  /** The bytes of the wire have reached the client up to `read`, in `chunks`. */
  datatype Pipe = Pipe(server: Server, read: nat, chunks: seq<seq<byte>>, client: Client)

  const START := Pipe(IDLE, 0, [], FRESH)

  datatype Event = Serve(step: Step) | Read(n: nat)

  predicate Possible(p: Pipe, e: Event) {
    match e
    case Serve(step) => Enabled(p.server, step)
    case Read(n) => p.read + n <= |p.server.wire|
  }

  function After(p: Pipe, e: Event): Pipe
    requires Possible(p, e)
  {
    match e
    case Serve(step) => p.(server := Next(p.server, step))
    case Read(n) =>
      var chunk := p.server.wire[p.read..p.read + n];
      p.(read := p.read + n, chunks := p.chunks + [chunk], client := Receive(p.client, chunk))
  }

  /** A run: any interleaving of possible events. */
  ghost predicate IsRun(p: Pipe, es: seq<Event>)
    decreases |es|
  {
    es == [] || (Possible(p, es[0]) && IsRun(After(p, es[0]), es[1..]))
  }

  ghost function Final(p: Pipe, es: seq<Event>): Pipe
    requires IsRun(p, es)
    decreases |es|
  {
    if es == [] then p else Final(After(p, es[0]), es[1..])
  }

  /** The server's part of a run. */
  function StepsOf(es: seq<Event>): seq<Step> {
    if es == [] then []
    else if es[0].Serve? then [es[0].step] + StepsOf(es[1..])
    else StepsOf(es[1..])
  }

  lemma {:induction false} ServerOfPipe(p: Pipe, es: seq<Event>)
    requires IsRun(p, es)
    ensures IsServerRun(p.server, StepsOf(es)) && Final(p, es).server == AfterSteps(p.server, StepsOf(es))
    decreases |es|
  {
    if es != [] {
      ServerOfPipe(After(p, es[0]), es[1..]);
      if es[0].Serve? {
        assert StepsOf(es)[1..] == StepsOf(es[1..]);
      }
    }
  }

  ghost predicate PipeInv(p: Pipe) {
    && Inv(p.server)
    && p.read <= |p.server.wire|
    && Framing.Flatten(p.chunks) == p.server.wire[..p.read]
    && p.client == ReceiveAll(FRESH, p.chunks)
  }

  lemma WireGrows(s: Server, step: Step)
    requires Enabled(s, step)
    ensures s.wire <= Next(s, step).wire
  {
  }

  lemma ServeKeeps(p: Pipe, step: Step)
    requires PipeInv(p) && Possible(p, Serve(step))
    ensures PipeInv(After(p, Serve(step)))
  {
    hide Encode, EncodeAll, Decide;
    var t := Next(p.server, step);
    assert Inv(t) by { StepKeeps(p.server, step); }
    assert t.wire[..p.read] == p.server.wire[..p.read] by { WireGrows(p.server, step); }
  }

  lemma ReadKeeps(p: Pipe, n: nat)
    requires PipeInv(p) && Possible(p, Read(n))
    ensures PipeInv(After(p, Read(n)))
  {
    hide Inv, Receive;
    var wire := p.server.wire;
    ReceiveOneMore(FRESH, p.chunks, wire[p.read..p.read + n]);
    assert wire[..p.read] + wire[p.read..p.read + n] == wire[..p.read + n];
  }

  lemma {:induction false} RunStaysGood(p: Pipe, es: seq<Event>)
    requires PipeInv(p) && IsRun(p, es)
    ensures PipeInv(Final(p, es))
    decreases |es|
  {
    if es != [] {
      match es[0] {
        case Serve(step) => ServeKeeps(p, step);
        case Read(n) => ReadKeeps(p, n);
      }
      RunStaysGood(After(p, es[0]), es[1..]);
    }
  }

  /**
   End to end, in every interleaving of producers, writer and client: accepted are the packets
   enqueued while there was room, the server's order and wire hold as always, and if the accepted
   packets are within the limits, then the client has dispatched
   exactly those whose bytes have all arrived, intact and in order, and buffers exactly the rest,
   if and only if no read has left more than 10 MiB behind.
   */
  lemma EndToEnd(es: seq<Event>)
    requires IsRun(START, es)
    ensures var p := Final(START, es);
      && p.server.accepted == Admitted(0, StepsOf(es))
      && Inv(p.server) && p.server.accepted == p.server.written + p.server.aborted + InFlight(p.server) + p.server.queue
      && EncodeAll(p.server.written) <= p.server.wire <= EncodeAll(p.server.accepted)
      && p.read <= |p.server.wire| && Framing.Flatten(p.chunks) == p.server.wire[..p.read]
      && (AllWithinLimits(p.server.accepted) ==>
        (IsExact(p.server.accepted, p.server.wire[..p.read], Packets(p.client.history), p.client.buffer) <==>
          ReadsFit(p.server.accepted, Lengths(p.chunks), 0)))
  {
    StartIsGood();
    RunStaysGood(START, es);
    ServerOfPipe(START, es);
    AcceptedAreAdmitted(IDLE, StepsOf(es));
    hide Final, IsRun, AfterSteps, IsServerRun, StepsOf, Admitted, Encode, EncodeAll, IsExact, ReadsFit;
    assert [] + Admitted(0, StepsOf(es)) == Admitted(0, StepsOf(es));
    var p := Final(START, es);
    AcceptedInOrder(p.server);
    PrefixOfPrefix(p.server.wire[..p.read], p.server.wire, EncodeAll(p.server.accepted));
    if AllWithinLimits(p.server.accepted) {
      ChunkedStreamExactIff(p.server.accepted, p.chunks);
    }
  }

  lemma StartIsGood()
    ensures PipeInv(START)
  {
  }

  /** With reads no larger than 10 MiB less the largest accepted packet, the client is always exact. */
  lemma SmallReadsEndToEnd(es: seq<Event>, largest: nat)
    requires IsRun(START, es)
    requires var p := Final(START, es);
      && AllWithinLimits(p.server.accepted) && (forall q :: q in p.server.accepted ==> |Encode(q)| <= largest)
      && forall n :: n in Lengths(p.chunks) ==> n + largest <= BUFFER_LIMIT
    ensures var p := Final(START, es);
      && p.read <= |p.server.wire|
      && IsExact(p.server.accepted, p.server.wire[..p.read], Packets(p.client.history), p.client.buffer)
  {
    EndToEnd(es);
    hide Final, IsRun, Encode, EncodeAll, IsExact, ReadsFit, Inv;
    var p := Final(START, es);
    FlattenLength(p.chunks);
    SmallReadsFit(p.server.accepted, Lengths(p.chunks), 0, largest);
  }
}
