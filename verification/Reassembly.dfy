/** The client side of the transport: `NetworkClient::readData` and its buffer. */
module Reassembly {
  import opened Bytes
  import opened CameraPacket
  import opened Search
  import opened Sequences
  import opened Wrappers

  /** 10 * 1024 * 1024, where both overflow guards fire. */
  const BUFFER_LIMIT := 10485760

  /** What happened to a stretch of received bytes. */
  datatype Segment = Skipped(bytes: seq<byte>) | Dispatched(packet: Packet)

  datatype Outcome = Outcome(segments: seq<Segment>, rest: seq<byte>)

  /** A notification to the rest of the client. */
  datatype Call = Json(json: seq<byte>) | Frame(camera: uint32, image: seq<byte>, json: seq<byte>)

  function SegmentBytes(g: Segment): seq<byte> {
    match g
    case Skipped(bytes) => bytes
    case Dispatched(p) => Encode(p)
  }

  /** All the bytes of a history, in order. */
  function Flat(gs: seq<Segment>): seq<byte> {
    if gs == [] then [] else SegmentBytes(gs[0]) + Flat(gs[1..])
  }

  function Taken(g: Segment): seq<Packet> {
    if g.Dispatched? then [g.packet] else []
  }

  function Packets(gs: seq<Segment>): seq<Packet> {
    if gs == [] then [] else Taken(gs[0]) + Packets(gs[1..])
  }

  function Lost(gs: seq<Segment>): nat {
    if gs == [] then 0 else (if gs[0].Skipped? then |gs[0].bytes| else 0) + Lost(gs[1..])
  }

  function CallFor(p: Packet): Call {
    if p.camera == 0 then Json(p.json) else Frame(p.camera, p.image, p.json)
  }

  function CallsFor(ps: seq<Packet>): (calls: seq<Call>)
    ensures |calls| == |ps| && forall i :: 0 <= i < |ps| ==> calls[i] == CallFor(ps[i])
  {
    seq(|ps|, i requires 0 <= i < |ps| => CallFor(ps[i]))
  }

  /** What listeners are told: the dispatched packets, in order, and nothing else. */
  function Calls(gs: seq<Segment>): seq<Call> {
    CallsFor(Packets(gs))
  }

  /**
   Each packet is told once, in order: one of camera 0 as a JSON reply, any other as a frame with
   the packet's image as the image and its JSON as the JSON.
   */
  ghost predicate Tells(calls: seq<Call>, ps: seq<Packet>) {
    && |calls| == |ps|
    && forall i :: 0 <= i < |ps| ==>
      if ps[i].camera == 0 then calls[i].Json? && calls[i].json == ps[i].json
      else calls[i].Frame? && calls[i].camera == ps[i].camera && calls[i].image == ps[i].image && calls[i].json == ps[i].json
  }

  function Prepend(gs: seq<Segment>, o: Outcome): Outcome {
    Outcome(gs + o.segments, o.rest)
  }

  predicate Abnormal(h: Header) {
    h.jsonSize > MAX_JSON || h.imageSize > MAX_IMAGE
  }

  function TotalSize(h: Header): nat {
    HEADER_SIZE + h.jsonSize + h.imageSize
  }

  /** What one turn of the reassembly loop does. */
  datatype Action = Stop | Drop(n: nat) | Deliver(packet: Packet, total: nat)

  function Decide(buffer: seq<byte>): (a: Action)
    ensures a.Drop? ==> 0 < a.n <= |buffer|
    ensures a.Deliver? ==> 0 < a.total <= |buffer|
  {
    if |buffer| < 4 then Stop
    else
      match Find(buffer, COOKIE, 0)
      case None => Drop(|buffer|)
      case Some(at) =>
        if at > 0 then Drop(at)
        else if |buffer| < HEADER_SIZE then Stop
        else if Abnormal(ReadHeader(buffer)) then Drop(4)
        else if |buffer| < TotalSize(ReadHeader(buffer)) then Stop
        else Deliver(FrontPacket(buffer), TotalSize(ReadHeader(buffer)))
  }

  /** The segments one turn adds and the buffer it leaves; the in-loop overflow guard included. */
  function Effect(a: Action, buffer: seq<byte>): Outcome
    requires a.Drop? ==> a.n <= |buffer|
    requires a.Deliver? ==> a.total <= |buffer|
  {
    match a
    case Stop => Outcome([], buffer)
    case Drop(n) => Outcome([Skipped(buffer[..n])], buffer[n..])
    case Deliver(packet, total) =>
      if |buffer| - total > BUFFER_LIMIT then Outcome([Dispatched(packet), Skipped(buffer[total..])], [])
      else Outcome([Dispatched(packet)], buffer[total..])
  }

  /** The reassembly loop, run on a buffer. */
  function Scan(buffer: seq<byte>): Outcome
    decreases |buffer|
  {
    var a := Decide(buffer);
    if a.Stop? then Outcome([], buffer)
    else
      var e := Effect(a, buffer);
      Prepend(e.segments, Scan(e.rest))
  }

  /** The guard after the loop. */
  function Guard(o: Outcome): Outcome {
    if |o.rest| <= BUFFER_LIMIT then o
    else
      match Find(o.rest, COOKIE, 4)
      case Some(next) => Outcome(o.segments + [Skipped(o.rest[..next])], o.rest[next..])
      case None => Outcome(o.segments + [Skipped(o.rest)], [])
  }

  function Read(buffer: seq<byte>): Outcome {
    Guard(Scan(buffer))
  }

  // ---- Sequences of segments ----

  lemma {:induction false} FlatAppend(a: seq<Segment>, b: seq<Segment>)
    ensures Flat(a + b) == Flat(a) + Flat(b)
  {
    if a == [] {
      assert a + b == b;
    } else {
      assert (a + b)[1..] == a[1..] + b;
      FlatAppend(a[1..], b);
    }
  }

  lemma {:induction false} PacketsAppend(a: seq<Segment>, b: seq<Segment>)
    ensures Packets(a + b) == Packets(a) + Packets(b)
  {
    hide Taken;
    if a == [] {
      assert a + b == b;
    } else {
      assert (a + b)[0] == a[0] && (a + b)[1..] == a[1..] + b;
      PacketsAppend(a[1..], b);
      Reassociate(Taken(a[0]), Packets(a[1..]), Packets(b));
    }
  }

  lemma {:induction false} LostAppend(a: seq<Segment>, b: seq<Segment>)
    ensures Lost(a + b) == Lost(a) + Lost(b)
  {
    if a == [] {
      assert a + b == b;
    } else {
      assert (a + b)[1..] == a[1..] + b;
      LostAppend(a[1..], b);
    }
  }

  lemma LogAppend(a: seq<Segment>, b: seq<Segment>)
    ensures Packets(a + b) == Packets(a) + Packets(b)
    ensures Calls(a + b) == Calls(a) + Calls(b)
    ensures Lost(a + b) == Lost(a) + Lost(b)
  {
    hide Packets, Lost, CallFor;
    PacketsAppend(a, b);
    LostAppend(a, b);
    assert CallsFor(Packets(a) + Packets(b)) == CallsFor(Packets(a)) + CallsFor(Packets(b));
  }

  /** Bytes in a history are either in dispatched packets or lost. */
  lemma {:induction false} FlatLength(gs: seq<Segment>)
    ensures |Flat(gs)| == |EncodeAll(Packets(gs))| + Lost(gs)
  {
    if gs != [] {
      FlatLength(gs[1..]);
      if gs[0].Dispatched? {
        assert Packets(gs) == [gs[0].packet] + Packets(gs[1..]);
      } else {
        assert Packets(gs) == Packets(gs[1..]);
      }
    }
  }

  // ---- Arbitrary input ----

  /** `o` accounts for every byte of `buffer`, and hands over acceptable packets only. */
  ghost predicate Accounts(o: Outcome, buffer: seq<byte>) {
    Flat(o.segments) + o.rest == buffer && AllWithinLimits(Packets(o.segments))
  }

  lemma AccountsCompose(gs: seq<Segment>, o: Outcome, middle: seq<byte>, buffer: seq<byte>)
    requires Accounts(Outcome(gs, middle), buffer) && Accounts(o, middle)
    ensures Accounts(Prepend(gs, o), buffer)
  {
    FlatAppend(gs, o.segments);
    LogAppend(gs, o.segments);
    Reassociate(Flat(gs), Flat(o.segments), o.rest);
  }

  lemma SkipAccounts(buffer: seq<byte>, n: nat)
    requires n <= |buffer|
    ensures Accounts(Outcome([Skipped(buffer[..n])], buffer[n..]), buffer)
  {
    assert Flat([Skipped(buffer[..n])]) == buffer[..n];
    assert buffer[..n] + buffer[n..] == buffer;
  }

  lemma DeliverAccounts(buffer: seq<byte>)
    requires Decide(buffer).Deliver?
    ensures Accounts(Outcome([Dispatched(Decide(buffer).packet)], buffer[Decide(buffer).total..]), buffer)
  {
    var p, total := Decide(buffer).packet, Decide(buffer).total;
    assert COOKIE <= buffer;
    EncodeDecode(buffer);
    assert Flat([Dispatched(p)]) == buffer[..total];
    assert buffer[..total] + buffer[total..] == buffer;
    assert Packets([Dispatched(p)]) == [p];
  }

  lemma EffectAccounts(buffer: seq<byte>)
    requires !Decide(buffer).Stop?
    ensures Accounts(Effect(Decide(buffer), buffer), buffer)
  {
    match Decide(buffer)
    case Drop(n) => SkipAccounts(buffer, n);
    case Deliver(packet, total) =>
      DeliverAccounts(buffer);
      if |buffer| - total > BUFFER_LIMIT {
        var rest := buffer[total..];
        SkipAccounts(rest, |rest|);
        assert rest[..|rest|] == rest && rest[|rest|..] == [];
        AccountsCompose([Dispatched(packet)], Outcome([Skipped(rest)], []), rest, buffer);
        assert [Dispatched(packet)] + [Skipped(rest)] == [Dispatched(packet), Skipped(rest)];
      }
  }

  /** Nothing is invented, reordered or duplicated: segments and rest spell out the buffer. */
  lemma {:induction false} ScanAccounts(buffer: seq<byte>)
    ensures Accounts(Scan(buffer), buffer)
    decreases |buffer|
  {
    if Decide(buffer).Stop? {
      assert Flat([]) + buffer == buffer;
    } else {
      var e := Effect(Decide(buffer), buffer);
      EffectAccounts(buffer);
      ScanAccounts(e.rest);
      AccountsCompose(e.segments, Scan(e.rest), e.rest, buffer);
    }
  }

  /** Between calls the buffer is too short to search or starts at a cookie, and is bounded. */
  predicate Settled(buffer: seq<byte>) {
    |buffer| < HEADER_SIZE + MAX_JSON + MAX_IMAGE && (|buffer| < 4 || COOKIE <= buffer)
  }

  lemma {:induction false} ScanSettles(buffer: seq<byte>)
    ensures Settled(Scan(buffer).rest)
    decreases |buffer|
  {
    if !Decide(buffer).Stop? {
      ScanSettles(Effect(Decide(buffer), buffer).rest);
    }
  }

  lemma GuardAccounts(o: Outcome, buffer: seq<byte>)
    requires Accounts(o, buffer) && Settled(o.rest)
    ensures Accounts(Guard(o), buffer) && Settled(Guard(o).rest)
  {
    if |o.rest| > BUFFER_LIMIT {
      match Find(o.rest, COOKIE, 4)
      case Some(next) =>
        SkipAccounts(o.rest, next);
        AccountsCompose(o.segments, Outcome([Skipped(o.rest[..next])], o.rest[next..]), o.rest, buffer);
      case None =>
        SkipAccounts(o.rest, |o.rest|);
        assert o.rest[..|o.rest|] == o.rest && o.rest[|o.rest|..] == [];
        AccountsCompose(o.segments, Outcome([Skipped(o.rest)], []), o.rest, buffer);
    }
  }

  /**
   One call on arbitrary bytes: skipped stretches, dispatched packets (as encoded, header
   included) and the kept buffer spell out the input in order, every dispatched packet is of
   acceptable size, and what is kept stays below the largest packet.
   */
  lemma ReadAccounts(buffer: seq<byte>)
    ensures Accounts(Read(buffer), buffer) && Settled(Read(buffer).rest)
  {
    ScanAccounts(buffer);
    ScanSettles(buffer);
    GuardAccounts(Scan(buffer), buffer);
  }

  /** A read extends an accounted history to an accounted history. */
  lemma ReadExtends(history: seq<Segment>, buffer: seq<byte>, received: seq<byte>, newData: seq<byte>)
    requires Accounts(Outcome(history, buffer), received)
    ensures Accounts(Prepend(history, Read(buffer + newData)), received + newData)
    ensures Settled(Read(buffer + newData).rest)
  {
    ReadAccounts(buffer + newData);
    Reassociate(Flat(history), buffer, newData);
    AccountsCompose(history, Read(buffer + newData), buffer + newData, received + newData);
  }

  lemma GuardCalls(o: Outcome)
    ensures Calls(Guard(o).segments) == Calls(o.segments)
    ensures Packets(Guard(o).segments) == Packets(o.segments)
  {
    if |o.rest| > BUFFER_LIMIT {
      match Find(o.rest, COOKIE, 4)
      case Some(next) => LogAppend(o.segments, [Skipped(o.rest[..next])]);
      case None => LogAppend(o.segments, [Skipped(o.rest)]);
    }
  }

  /**
   Resynchronisation passes over no cookie, except the one in front of an abnormal header; and
   what it stops at is a cookie again.
   */
  lemma DropPassesNoCookie(buffer: seq<byte>, j: nat)
    requires Decide(buffer).Drop? && j < Decide(buffer).n && MatchAt(buffer, COOKIE, j)
    ensures j == 0 && HEADER_SIZE <= |buffer| && Abnormal(ReadHeader(buffer))
  {
    var at := Find(buffer, COOKIE, 0).value;
    if at == 0 {
      var front := buffer[0..4];
      assert front == COOKIE && buffer[j] == buffer[j..j + 4][0] == 0xDE;
      assert buffer[j] == front[j];
    }
  }

  /** What the two overflow guards throw away: all that lies behind a packet, or all up to the next cookie. */
  lemma OverflowDrops(buffer: seq<byte>)
    ensures Decide(buffer).Deliver? && |buffer| - Decide(buffer).total > 10485760 ==>
      Packets(Read(buffer).segments) == [Decide(buffer).packet] && Read(buffer).rest == []
    ensures Decide(buffer).Stop? && |buffer| > 10485760 ==>
      Packets(Read(buffer).segments) == [] &&
      Read(buffer).rest == match Find(buffer, COOKIE, 4) case Some(next) => buffer[next..] case None => []
    ensures Decide(buffer).Stop? && |buffer| <= 10485760 ==> Read(buffer) == Outcome([], buffer)
  {
    match Decide(buffer) {
      case Stop =>
        assert Scan(buffer) == Outcome([], buffer);
        match Find(buffer, COOKIE, 4) {
          case Some(next) => NothingTaken(buffer[..next]);
          case None => NothingTaken(buffer);
        }
      case Drop(_) =>
      case Deliver(packet, total) =>
        if |buffer| - total > 10485760 {
          assert Scan([]) == Outcome([], []);
          var gs := [Dispatched(packet), Skipped(buffer[total..])];
          assert Scan(buffer) == Prepend(gs, Outcome([], []));
          assert gs[1..] == [Skipped(buffer[total..])] && gs + [] == gs;
          NothingTaken(buffer[total..]);
        }
    }
  }

  lemma NothingTaken(bytes: seq<byte>)
    ensures Packets([Skipped(bytes)]) == [] && [] + [Skipped(bytes)] == [Skipped(bytes)]
  {
  }

  lemma CallsTell(gs: seq<Segment>)
    ensures Tells(Calls(gs), Packets(gs))
  {
  }

  // ---- The client ----

  class NetworkClient {
    var buffer: seq<byte>
    var calls: seq<Call>
    ghost var received: seq<byte>
    ghost var history: seq<Segment>

    ghost predicate Valid()
      reads this
    {
      && Accounts(Outcome(history, buffer), received)
      && calls == Calls(history)
      && Settled(buffer)
    }

    constructor ()
      ensures Valid() && received == [] && history == [] && buffer == [] && calls == []
    {
      buffer, calls, received, history := [], [], [], [];
    }

    /** Reads `newData` off the socket and dispatches every complete packet. */
    method ReadData(newData: seq<byte>)
      requires Valid()
      modifies this
      ensures Valid()
      ensures received == old(received) + newData
      ensures history == old(history) + Read(old(buffer) + newData).segments
      ensures buffer == Read(old(buffer) + newData).rest
      ensures calls == old(calls) + Calls(Read(old(buffer) + newData).segments)
      ensures Tells(calls, Packets(history))
    {
      hide Scan, Find, Accounts, Calls, Settled;
      buffer := buffer + newData;
      ghost var o := Scan(buffer);
      Drain();
      if |buffer| > BUFFER_LIMIT {
        var nextMagic := Find(buffer, COOKIE, 4);
        if nextMagic.Some? {
          buffer := buffer[nextMagic.value..];
        } else {
          buffer := [];
        }
      }
      history, received := history + Guard(o).segments, received + newData;
      ReadExtends(old(history), old(buffer), old(received), newData);
      GuardCalls(o);
      LogAppend(old(history), Guard(o).segments);
      CallsTell(history);
    }

    /** The loop of `readData`. */
    method Drain()
      modifies `buffer, `calls
      ensures buffer == Scan(old(buffer)).rest
      ensures calls == old(calls) + Calls(Scan(old(buffer)).segments)
    {
      hide Scan, Decide;
      ghost var done: seq<Segment> := [];
      ghost var whole := Scan(buffer);
      var more := true;
      while more && buffer != []
        invariant whole == Prepend(done, Scan(buffer))
        invariant !more ==> Decide(buffer).Stop?
        invariant calls == old(calls) + Calls(done)
        decreases |buffer|, more
      {
        ghost var a, seen := Decide(buffer), buffer;
        more := ProcessFront();
        if !a.Stop? {
          ScanTurn(done, seen);
          done := done + Effect(a, seen).segments;
        }
      }
      EmptyWaits();
      ScanDone(done, buffer);
    }

    /** One turn of the loop; `more` is false where the source breaks out to wait for input. */
    method ProcessFront() returns (more: bool)
      modifies `buffer, `calls
      ensures more == !Decide(old(buffer)).Stop?
      ensures buffer == Effect(Decide(old(buffer)), old(buffer)).rest
      ensures calls == old(calls) + Calls(Effect(Decide(old(buffer)), old(buffer)).segments)
    {
      hide Calls;
      NoCall(buffer);
      if |buffer| < 4 { return false; }
      var magicPos := Find(buffer, COOKIE, 0);
      if magicPos.None? {
        NoCall(buffer[..|buffer|]);
        buffer := [];
        return true;
      }
      if magicPos.value > 0 {
        NoCall(buffer[..magicPos.value]);
        buffer := buffer[magicPos.value..];
        return true;
      }
      if |buffer| < HEADER_SIZE { return false; }
      var header := ReadHeader(buffer);
      var totalSize := ToUint32(HEADER_SIZE + header.jsonSize + header.imageSize);
      if header.magic != MAGIC_COOKIE {
        CookieIsMagic(buffer);
        assert false;
      }
      if Abnormal(header) {
        NoCall(buffer[..4]);
        buffer := buffer[4..];
        return true;
      }
      SmallUint32(TotalSize(header));
      if |buffer| < totalSize { return false; }
      var json := buffer[HEADER_SIZE..HEADER_SIZE + header.jsonSize];
      if header.camera == 0 {
        calls := calls + [Json(json)];
      } else {
        var image := buffer[HEADER_SIZE + header.jsonSize..HEADER_SIZE + header.jsonSize + header.imageSize];
        calls := calls + [Frame(header.camera, image, json)];
      }
      OneCall(FrontPacket(buffer), buffer[totalSize..]);
      buffer := buffer[totalSize..];
      if |buffer| > BUFFER_LIMIT {
        buffer := [];
      }
      return true;
    }
  }

  lemma NoCall(bytes: seq<byte>)
    ensures Calls([Skipped(bytes)]) == Calls([]) == []
  {
    assert [Skipped(bytes)][1..] == [] && Packets([Skipped(bytes)]) == [];
  }

  lemma OneCall(p: Packet, rest: seq<byte>)
    ensures Calls([Dispatched(p)]) == Calls([Dispatched(p), Skipped(rest)]) == [CallFor(p)]
  {
    assert [Dispatched(p), Skipped(rest)] == [Dispatched(p)] + [Skipped(rest)];
    LogAppend([Dispatched(p)], [Skipped(rest)]);
  }

  lemma EmptyWaits()
    ensures Decide([]).Stop?
  {
  }

  lemma ScanDone(done: seq<Segment>, buffer: seq<byte>)
    requires Decide(buffer).Stop?
    ensures Prepend(done, Scan(buffer)) == Outcome(done, buffer)
  {
    assert done + [] == done;
  }

  /** One turn of the loop moves segments from what is left to what is done. */
  lemma ScanTurn(done: seq<Segment>, buffer: seq<byte>)
    requires !Decide(buffer).Stop?
    ensures var e := Effect(Decide(buffer), buffer);
      && Prepend(done, Scan(buffer)) == Prepend(done + e.segments, Scan(e.rest))
      && Calls(done + e.segments) == Calls(done) + Calls(e.segments)
  {
    var e := Effect(Decide(buffer), buffer);
    LogAppend(done, e.segments);
    PrependTwice(done, e.segments, Scan(e.rest));
  }

  lemma PrependTwice(a: seq<Segment>, b: seq<Segment>, o: Outcome)
    ensures Prepend(a, Prepend(b, o)) == Prepend(a + b, o)
  {
    assert a + (b + o.segments) == (a + b) + o.segments;
  }
}
