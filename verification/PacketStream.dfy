/**
 What `readData` does on the streams a server really sends: concatenated encoded packets,
 cut into reads anywhere, with or without leading garbage.
 */
module PacketStream {
  import opened Bytes
  import opened CameraPacket
  import Framing
  import opened Reassembly
  import opened Search
  import opened Sequences
  import opened Wrappers

  /** The packet framer without resynchronisation and overflow guards. */
  function NextPacket(buffer: seq<byte>): Framing.Cut<Packet> {
    match Decide(buffer)
    case Deliver(packet, total) => Framing.Frame(packet, total)
    case _ => Framing.Wait
  }

  function DispatchAll(ps: seq<Packet>): seq<Segment> {
    if ps == [] then [] else [Dispatched(ps[0])] + DispatchAll(ps[1..])
  }

  /** What remains behind the front packet; the quantity both overflow guards look at. */
  function Backlog(buffer: seq<byte>): nat {
    match Decide(buffer)
    case Deliver(_, total) => |buffer| - total
    case _ => |buffer|
  }

  lemma DecideExtends(s: seq<byte>, t: seq<byte>)
    requires Decide(s).Deliver?
    ensures Decide(s + t) == Decide(s)
  {
    FindInPrefix(s, t, COOKIE, 0);
    assert (s + t)[..|s|] == s;
    SameFront(s, s + t);
  }

  lemma SameFront(s: seq<byte>, u: seq<byte>)
    requires HEADER_SIZE <= |s| && s <= u
    ensures ReadHeader(u) == ReadHeader(s)
    ensures TotalSize(ReadHeader(s)) <= |s| ==> FrontPacket(u) == FrontPacket(s)
  {
    assert forall i :: 0 <= i < |s| ==> u[i] == s[i];
    var h := ReadHeader(s);
    if TotalSize(h) <= |s| {
      var a, b := HEADER_SIZE + h.jsonSize, TotalSize(h);
      assert u[HEADER_SIZE..a] == s[HEADER_SIZE..a];
      assert u[a..b] == s[a..b];
    }
  }

  lemma NextPacketFrames()
    ensures Framing.Progresses(NextPacket) && Framing.Stable(NextPacket)
  {
    forall s: seq<byte>, t: seq<byte>
      ensures Framing.StableAt(NextPacket, s, t)
    {
      if Decide(s).Deliver? {
        DecideExtends(s, t);
      }
    }
  }

  /** On a prefix of a packet stream the loop either waits or delivers the next packet. */
  lemma DecideOnStream(ps: seq<Packet>, buffer: seq<byte>)
    requires AllWithinLimits(ps) && buffer <= EncodeAll(ps)
    ensures ps == [] || |buffer| < |Encode(ps[0])| ==> Decide(buffer) == Stop
    ensures ps != [] && |Encode(ps[0])| <= |buffer| ==> Decide(buffer) == Deliver(ps[0], |Encode(ps[0])|)
  {
    if ps != [] && 4 <= |buffer| {
      var p := ps[0];
      assert WithinLimits(p);
      StartsLike(p, EncodeAll(ps[1..]), buffer);
      FindIs(buffer, COOKIE, 0, 0);
      if HEADER_SIZE <= |buffer| {
        HeaderOfPrefix(p, buffer);
        SmallUint32(|p.json|);
        SmallUint32(|p.image|);
        if |Encode(p)| <= |buffer| {
          var rest := buffer[|Encode(p)|..];
          assert buffer == Encode(p) + rest;
          DecodeEncode(p, rest);
        }
      }
    }
  }

  lemma StartsLike(p: Packet, later: seq<byte>, buffer: seq<byte>)
    requires 4 <= |buffer| && buffer <= Encode(p) + later
    ensures MatchAt(buffer, COOKIE, 0)
    ensures HEADER_SIZE <= |buffer| ==> buffer[..HEADER_SIZE] == HeaderBytes(p)
    ensures |Encode(p)| <= |buffer| ==> Encode(p) <= buffer
  {
    hide Encode, HeaderBytes;
    HeadOfPacket(p);
    PrefixOfSum(Encode(p), later, buffer, HEADER_SIZE);
    assert buffer[0..4] == buffer[..4];
    assert |Encode(p)| <= |buffer| ==> (Encode(p) + later)[..|Encode(p)|] == Encode(p);
  }

  lemma HeadOfPacket(p: Packet)
    ensures Encode(p)[..HEADER_SIZE] == HeaderBytes(p) && Encode(p)[..4] == COOKIE
  {
    var front := HeaderBytes(p);
    assert front[..4] == BigEndian(MAGIC_COOKIE) == COOKIE;
    assert Encode(p)[..HEADER_SIZE] == front;
    assert Encode(p)[..4] == Encode(p)[..HEADER_SIZE][..4];
  }

  lemma PrefixOfSum<T>(a: seq<T>, b: seq<T>, s: seq<T>, n: nat)
    requires s <= a + b && n <= |a|
    ensures forall i :: 0 <= i <= n && i <= |s| ==> s[..i] == a[..i]
  {
    assert forall k :: 0 <= k < |s| ==> s[k] == (a + b)[k];
  }

  /** Behind a delivered packet lies the rest of the stream. */
  lemma StreamTail(ps: seq<Packet>, buffer: seq<byte>)
    requires ps != [] && buffer <= EncodeAll(ps) && |Encode(ps[0])| <= |buffer|
    ensures buffer == Encode(ps[0]) + buffer[|Encode(ps[0])|..]
    ensures buffer[|Encode(ps[0])|..] <= EncodeAll(ps[1..])
  {
    var n := |Encode(ps[0])|;
    assert EncodeAll(ps)[..n] == Encode(ps[0]);
    assert EncodeAll(ps)[n..] == EncodeAll(ps[1..]);
    assert buffer[n..] == EncodeAll(ps)[n..|buffer|];
  }

  /** The ideal result: exactly the complete packets, and exactly the unfinished tail. */
  ghost predicate IsExact(ps: seq<Packet>, buffer: seq<byte>, items: seq<Packet>, rest: seq<byte>) {
    && items <= ps
    && EncodeAll(items) + rest == buffer
    && rest <= EncodeAll(ps[|items|..])
    && (|items| < |ps| ==> |rest| < |Encode(ps[|items|])|)
  }

  lemma {:induction false} DrainOnStream(ps: seq<Packet>, buffer: seq<byte>)
    requires AllWithinLimits(ps) && buffer <= EncodeAll(ps)
    ensures Framing.Progresses(NextPacket)
    ensures var r := Framing.Drain(NextPacket, buffer); IsExact(ps, buffer, r.items, r.rest)
    decreases |ps|
  {
    NextPacketFrames();
    DecideOnStream(ps, buffer);
    if ps == [] || |buffer| < |Encode(ps[0])| {
      assert EncodeAll([]) + buffer == buffer;
    } else {
      StreamTail(ps, buffer);
      var tail := buffer[|Encode(ps[0])|..];
      DrainOnStream(ps[1..], tail);
      var r := Framing.Drain(NextPacket, tail);
      ExactCons(ps, tail, r.items, r.rest);
    }
  }

  lemma ExactCons(ps: seq<Packet>, tail: seq<byte>, items: seq<Packet>, rest: seq<byte>)
    requires ps != [] && IsExact(ps[1..], tail, items, rest)
    ensures IsExact(ps, Encode(ps[0]) + tail, [ps[0]] + items, rest)
  {
    var longer := [ps[0]] + items;
    assert longer[1..] == items;
    assert ps == [ps[0]] + ps[1..];
    assert ps[1..][|items|..] == ps[|longer|..];
    Reassociate(Encode(ps[0]), EncodeAll(items), rest);
  }

  /** Exactness pins the result down. */
  lemma ExactIsUnique(ps: seq<Packet>, buffer: seq<byte>, a: seq<Packet>, u: seq<byte>, b: seq<Packet>, v: seq<byte>)
    requires IsExact(ps, buffer, a, u) && IsExact(ps, buffer, b, v)
    ensures a == b && u == v
  {
    if |a| < |b| {
      StrictlyMore(a, b);
    } else if |b| < |a| {
      StrictlyMore(b, a);
    } else {
      assert a == ps[..|a|] == b;
    }
  }

  lemma StrictlyMore(a: seq<Packet>, b: seq<Packet>)
    requires a < b
    ensures |EncodeAll(a)| + |Encode(b[|a|])| <= |EncodeAll(b)|
  {
    EncodeAllAppend(a, b[|a|..]);
    assert a + b[|a|..] == b;
  }

  ghost function Framed(buffer: seq<byte>): Framing.Result<Packet, byte>
    ensures Framing.Progresses(NextPacket) && Framing.Stable(NextPacket)
  {
    NextPacketFrames();
    Framing.Drain(NextPacket, buffer)
  }

  /** The outcome that loses nothing. */
  ghost function Faithful(buffer: seq<byte>): Outcome {
    Outcome(DispatchAll(Framed(buffer).items), Framed(buffer).rest)
  }

  lemma {:induction false} ScanOnStream(ps: seq<Packet>, buffer: seq<byte>)
    requires AllWithinLimits(ps) && buffer <= EncodeAll(ps) && Backlog(buffer) <= BUFFER_LIMIT
    ensures Scan(buffer) == Faithful(buffer) && |Framed(buffer).rest| <= BUFFER_LIMIT
    decreases |ps|
  {
    DecideOnStream(ps, buffer);
    if Decide(buffer).Deliver? {
      StreamTail(ps, buffer);
      var tail := buffer[|Encode(ps[0])|..];
      ScanOnStream(ps[1..], tail);
      DispatchCons(ps[0], Framed(tail).items);
    }
  }

  lemma DispatchCons(p: Packet, items: seq<Packet>)
    ensures DispatchAll([p] + items) == [Dispatched(p)] + DispatchAll(items)
  {
    assert ([p] + items)[1..] == items;
  }

  lemma {:induction false} DispatchAllLog(items: seq<Packet>)
    ensures Packets(DispatchAll(items)) == items && Lost(DispatchAll(items)) == 0
  {
    if items != [] {
      DispatchAllLog(items[1..]);
      assert DispatchAll(items)[1..] == DispatchAll(items[1..]);
      assert [items[0]] + items[1..] == items;
    }
  }

  /** When a guard fires on a packet stream, bytes are lost. */
  lemma OverflowLoses(ps: seq<Packet>, buffer: seq<byte>)
    requires AllWithinLimits(ps) && buffer <= EncodeAll(ps) && Backlog(buffer) > BUFFER_LIMIT
    ensures Lost(Read(buffer).segments) > 0
  {
    DecideOnStream(ps, buffer);
    match Decide(buffer)
    case Stop =>
      assert Scan(buffer) == Outcome([], buffer);
      GuardLoses([], buffer);
    case Deliver(packet, total) =>
      var skipped := buffer[total..];
      assert Scan([]) == Outcome([], []);
      assert Scan(buffer).rest == [];
      LogAppend([Dispatched(packet)], [Skipped(skipped)]);
      assert [Dispatched(packet)] + [Skipped(skipped)] + [] == [Dispatched(packet), Skipped(skipped)];
  }

  lemma GuardLoses(gs: seq<Segment>, rest: seq<byte>)
    requires |rest| > BUFFER_LIMIT
    ensures Lost(Guard(Outcome(gs, rest)).segments) > 0
  {
    match Find(rest, COOKIE, 4)
    case Some(next) => LogAppend(gs, [Skipped(rest[..next])]);
    case None => LogAppend(gs, [Skipped(rest)]);
  }

  /** One read of a piece of packet stream is faithful exactly when its backlog stays within 10 MiB. */
  lemma ReadExactIff(ps: seq<Packet>, buffer: seq<byte>)
    requires AllWithinLimits(ps) && buffer <= EncodeAll(ps)
    ensures Read(buffer) == Faithful(buffer) <==> Backlog(buffer) <= BUFFER_LIMIT
  {
    if Backlog(buffer) <= BUFFER_LIMIT {
      ScanOnStream(ps, buffer);
    } else {
      OverflowLoses(ps, buffer);
      DispatchAllLog(Framed(buffer).items);
    }
  }

  // ---- Whole runs ----

  datatype Client = Client(history: seq<Segment>, buffer: seq<byte>)

  const FRESH := Client([], [])

  /** `readData`, as a function on the client's history and buffer. */
  function Receive(c: Client, chunk: seq<byte>): Client {
    var o := Read(c.buffer + chunk);
    Client(c.history + o.segments, o.rest)
  }

  function ReceiveAll(c: Client, chunks: seq<seq<byte>>): Client
    decreases |chunks|
  {
    if chunks == [] then c else ReceiveAll(Receive(c, chunks[0]), chunks[1..])
  }

  /** At no read do the overflow guards see more than 10 MiB. */
  predicate NeverOverflows(c: Client, chunks: seq<seq<byte>>)
    decreases |chunks|
  {
    chunks == [] ||
    (Backlog(c.buffer + chunks[0]) <= BUFFER_LIMIT && NeverOverflows(Receive(c, chunks[0]), chunks[1..]))
  }

  /** A client that waits on a piece of stream still to be completed. */
  ghost predicate Waiting(c: Client, ps: seq<Packet>, chunks: seq<seq<byte>>) {
    AllWithinLimits(ps) && NextPacket(c.buffer).Wait? && c.buffer + Framing.Flatten(chunks) <= EncodeAll(ps)
  }

  lemma NextRead(c: Client, ps: seq<Packet>, chunks: seq<seq<byte>>) returns (left: seq<Packet>)
    requires Waiting(c, ps, chunks) && chunks != []
    ensures c.buffer + chunks[0] <= EncodeAll(ps)
    ensures Backlog(c.buffer + chunks[0]) <= BUFFER_LIMIT ==> Waiting(Receive(c, chunks[0]), left, chunks[1..])
    ensures forall p :: p in left ==> p in ps
  {
    var head, later := c.buffer + chunks[0], Framing.Flatten(chunks[1..]);
    assert c.buffer + Framing.Flatten(chunks) == head + later;
    assert head == (head + later)[..|head|];
    ReadExactIff(ps, head);
    left := TailOnStream(ps, head, later);
  }

  lemma TailOnStream(ps: seq<Packet>, head: seq<byte>, later: seq<byte>) returns (left: seq<Packet>)
    requires AllWithinLimits(ps) && head + later <= EncodeAll(ps)
    ensures AllWithinLimits(left) && NextPacket(Framed(head).rest).Wait?
    ensures forall p :: p in left ==> p in ps
    ensures Framed(head).rest + later <= EncodeAll(left)
  {
    assert head == (head + later)[..|head|];
    DrainOnStream(ps, head);
    var r := Framed(head);
    Framing.DrainIsComplete(NextPacket, head);
    left := ps[|r.items|..];
    SplitStream(ps, r.items);
    Reassociate(EncodeAll(r.items), r.rest, later);
    SharedPrefix(EncodeAll(r.items), r.rest + later, EncodeAll(left));
  }

  lemma SplitStream(ps: seq<Packet>, items: seq<Packet>)
    requires items <= ps
    ensures EncodeAll(ps) == EncodeAll(items) + EncodeAll(ps[|items|..])
  {
    EncodeAllAppend(items, ps[|items|..]);
    assert items + ps[|items|..] == ps;
  }

  lemma SharedPrefix<T>(a: seq<T>, b: seq<T>, c: seq<T>)
    requires a + b <= a + c
    ensures b <= c
  {
    assert b == (a + b)[|a|..];
    assert c == (a + c)[|a|..];
    assert (a + b) == (a + c)[..|a + b|];
    assert b == c[..|b|];
  }

  lemma {:induction false} RunIsFeed(c: Client, ps: seq<Packet>, chunks: seq<seq<byte>>)
    requires Waiting(c, ps, chunks) && NeverOverflows(c, chunks)
    ensures Framing.Progresses(NextPacket)
    ensures var f := Framing.Feed(NextPacket, c.buffer, chunks);
      ReceiveAll(c, chunks) == Client(c.history + DispatchAll(f.items), f.rest)
    decreases |chunks|
  {
    NextPacketFrames();
    if chunks == [] {
      assert c.history + [] == c.history;
    } else {
      var left := NextRead(c, ps, chunks);
      var head, next := c.buffer + chunks[0], Receive(c, chunks[0]);
      ReadExactIff(ps, head);
      RunIsFeed(next, left, chunks[1..]);
      var later := Framing.Feed(NextPacket, next.buffer, chunks[1..]);
      DispatchAppend(Framed(head).items, later.items);
      Reassociate(c.history, DispatchAll(Framed(head).items), DispatchAll(later.items));
    }
  }

  lemma {:induction false} DispatchAppend(a: seq<Packet>, b: seq<Packet>)
    ensures DispatchAll(a + b) == DispatchAll(a) + DispatchAll(b)
  {
    if a == [] {
      assert a + b == b;
    } else {
      assert (a + b)[1..] == a[1..] + b;
      DispatchAppend(a[1..], b);
    }
  }

  lemma {:induction false} RunAccounts(c: Client, received: seq<byte>, chunks: seq<seq<byte>>)
    requires Accounts(Outcome(c.history, c.buffer), received)
    ensures var d := ReceiveAll(c, chunks); Accounts(Outcome(d.history, d.buffer), received + Framing.Flatten(chunks))
    decreases |chunks|
  {
    if chunks == [] {
      assert received + Framing.Flatten(chunks) == received;
    } else {
      ReadExtends(c.history, c.buffer, received, chunks[0]);
      RunAccounts(Receive(c, chunks[0]), received + chunks[0], chunks[1..]);
      Reassociate(received, chunks[0], Framing.Flatten(chunks[1..]));
    }
  }

  lemma {:induction false} LostOnlyGrows(c: Client, chunks: seq<seq<byte>>)
    ensures Lost(ReceiveAll(c, chunks).history) >= Lost(c.history)
    decreases |chunks|
  {
    if chunks != [] {
      LogAppend(c.history, Read(c.buffer + chunks[0]).segments);
      LostOnlyGrows(Receive(c, chunks[0]), chunks[1..]);
    }
  }

  lemma {:induction false} RunSettles(c: Client, chunks: seq<seq<byte>>)
    requires Settled(c.buffer)
    ensures Settled(ReceiveAll(c, chunks).buffer)
    decreases |chunks|
  {
    if chunks != [] {
      ReadAccounts(c.buffer + chunks[0]);
      RunSettles(Receive(c, chunks[0]), chunks[1..]);
    }
  }

  /**
   Arbitrary bytes in arbitrary reads: the skipped stretches, the dispatched packets (each
   spelled out with its own header) and the kept buffer are, in order and without overlap,
   the bytes received; every dispatched packet is of acceptable size; the buffer stays below
   11,000,016 bytes and is either too short to search or starts at a cookie.
   */
  lemma AnyInputIsAccountedFor(chunks: seq<seq<byte>>)
    ensures var c := ReceiveAll(FRESH, chunks);
      && Flat(c.history) + c.buffer == Framing.Flatten(chunks)
      && AllWithinLimits(Packets(c.history))
      && Settled(c.buffer)
  {
    assert Accounts(Outcome([], []), []);
    RunAccounts(FRESH, [], chunks);
    RunSettles(FRESH, chunks);
    assert [] + Framing.Flatten(chunks) == Framing.Flatten(chunks);
  }

  lemma {:induction false} OverflowLosesInRun(c: Client, ps: seq<Packet>, chunks: seq<seq<byte>>)
    requires Waiting(c, ps, chunks) && !NeverOverflows(c, chunks)
    ensures Lost(ReceiveAll(c, chunks).history) > Lost(c.history)
    decreases |chunks|
  {
    var left := NextRead(c, ps, chunks);
    LogAppend(c.history, Read(c.buffer + chunks[0]).segments);
    if Backlog(c.buffer + chunks[0]) <= BUFFER_LIMIT {
      OverflowLosesInRun(Receive(c, chunks[0]), left, chunks[1..]);
    } else {
      OverflowLoses(ps, c.buffer + chunks[0]);
      LostOnlyGrows(Receive(c, chunks[0]), chunks[1..]);
    }
  }

  // ---- The guard condition in lengths alone ----

  function Lengths(chunks: seq<seq<byte>>): seq<nat> {
    if chunks == [] then [] else [|chunks[0]|] + Lengths(chunks[1..])
  }

  function Total(lengths: seq<nat>): nat {
    if lengths == [] then 0 else lengths[0] + Total(lengths[1..])
  }

  lemma {:induction false} FlattenLength(chunks: seq<seq<byte>>)
    ensures |Framing.Flatten(chunks)| == Total(Lengths(chunks))
  {
    if chunks != [] {
      FlattenLength(chunks[1..]);
      assert Lengths(chunks)[1..] == Lengths(chunks[1..]);
    }
  }

  /**
   A read of the bytes `from` to `to` of a packet stream: how many of them, at most all that are
   buffered, lie behind the first packet it completes, or, if it completes none, behind the packets
   complete before it.
   */
  function Behind(ps: seq<Packet>, from: nat, to: nat): nat
    requires from <= to
  {
    if ps == [] then to
    else if |Encode(ps[0])| <= from then Behind(ps[1..], from - |Encode(ps[0])|, to - |Encode(ps[0])|)
    else if |Encode(ps[0])| <= to then to - |Encode(ps[0])|
    else to
  }

  /** No read leaves more than 10 MiB behind: a condition on the lengths of packets and reads alone. */
  predicate ReadsFit(ps: seq<Packet>, lengths: seq<nat>, from: nat)
    decreases |lengths|
  {
    lengths == [] ||
    (Behind(ps, from, from + lengths[0]) <= BUFFER_LIMIT && ReadsFit(ps, lengths[1..], from + lengths[0]))
  }

  lemma {:induction false} BacklogIsBehind(ps: seq<Packet>, s: seq<byte>, from: nat)
    requires AllWithinLimits(ps) && s <= EncodeAll(ps) && from <= |s|
    ensures Backlog(Framed(s[..from]).rest + s[from..]) == Behind(ps, from, |s|)
    decreases |ps|
  {
    hide Encode, EncodeAll, Decide, Framed, Backlog;
    var head := s[..from];
    PrefixOfPrefix(head, s, EncodeAll(ps));
    if ps != [] && |Encode(ps[0])| <= from {
      var n := |Encode(ps[0])|;
      StreamTail(ps, s);
      SlicesBehind(s, from, n);
      FramedTail(ps, head);
      BacklogIsBehind(ps[1..], s[n..], from - n);
    } else {
      FramedWaits(ps, head);
      BacklogFront(ps, s);
      assert head + s[from..] == s;
    }
  }

  lemma FramedTail(ps: seq<Packet>, head: seq<byte>)
    requires AllWithinLimits(ps) && head <= EncodeAll(ps) && ps != [] && |Encode(ps[0])| <= |head|
    ensures Framed(head).rest == Framed(head[|Encode(ps[0])|..]).rest
  {
    hide Encode, EncodeAll, Decide;
    DecideOnStream(ps, head);
  }

  lemma FramedWaits(ps: seq<Packet>, head: seq<byte>)
    requires AllWithinLimits(ps) && head <= EncodeAll(ps) && (ps == [] || |head| < |Encode(ps[0])|)
    ensures Framed(head).rest == head
  {
    hide Encode, EncodeAll, Decide;
    DecideOnStream(ps, head);
  }

  lemma BacklogFront(ps: seq<Packet>, s: seq<byte>)
    requires AllWithinLimits(ps) && s <= EncodeAll(ps)
    ensures Backlog(s) == if ps != [] && |Encode(ps[0])| <= |s| then |s| - |Encode(ps[0])| else |s|
  {
    hide Encode, EncodeAll, Decide;
    DecideOnStream(ps, s);
  }

  lemma SlicesBehind<T>(s: seq<T>, from: nat, n: nat)
    requires n <= from <= |s|
    ensures s[..from][n..] == s[n..][..from - n] && s[from..] == s[n..][from - n..]
  {
  }

  /** What the guards see over a run depends on lengths alone. */
  lemma {:induction false} NeverOverflowsIff(c: Client, ps: seq<Packet>, head: seq<byte>, chunks: seq<seq<byte>>)
    requires AllWithinLimits(ps) && head + Framing.Flatten(chunks) <= EncodeAll(ps) && c.buffer == Framed(head).rest
    ensures NeverOverflows(c, chunks) <==> ReadsFit(ps, Lengths(chunks), |head|)
    decreases |chunks|
  {
    hide EncodeAll, Backlog, Behind, Framed, Receive, AllWithinLimits, Framing.Progresses, Framing.Stable;
    if chunks != [] {
      var next, later := head + chunks[0], Framing.Flatten(chunks[1..]);
      MoreReadsFit(ps, chunks, |head|);
      FlattenMore(chunks);
      hide ReadsFit, Framing.Flatten;
      FrontOfSum(head, chunks[0], later, EncodeAll(ps));
      FittingRead(c, ps, head, chunks[0]);
      if Backlog(c.buffer + chunks[0]) <= BUFFER_LIMIT {
        NeverOverflowsIff(Receive(c, chunks[0]), ps, next, chunks[1..]);
      }
    }
  }

  lemma FlattenMore(chunks: seq<seq<byte>>)
    requires chunks != []
    ensures Framing.Flatten(chunks) == chunks[0] + Framing.Flatten(chunks[1..])
  {
  }

  lemma MoreReadsFit(ps: seq<Packet>, chunks: seq<seq<byte>>, from: nat)
    requires chunks != []
    ensures var to := from + |chunks[0]|;
      ReadsFit(ps, Lengths(chunks), from) <==> Behind(ps, from, to) <= BUFFER_LIMIT && ReadsFit(ps, Lengths(chunks[1..]), to)
  {
    hide Behind;
    assert Lengths(chunks)[1..] == Lengths(chunks[1..]);
  }

  lemma FrontOfSum<T>(a: seq<T>, b: seq<T>, c: seq<T>, whole: seq<T>)
    requires a + (b + c) <= whole
    ensures a + b <= whole && (a + b) + c <= whole
  {
    Reassociate(a, b, c);
    PrefixOfPrefix(a + b, (a + b) + c, whole);
  }

  lemma FittingRead(c: Client, ps: seq<Packet>, head: seq<byte>, chunk: seq<byte>)
    requires AllWithinLimits(ps) && head + chunk <= EncodeAll(ps) && c.buffer == Framed(head).rest
    ensures var from, to := |head|, |head + chunk|;
      && Backlog(c.buffer + chunk) == Behind(ps, from, to)
      && (Behind(ps, from, to) <= BUFFER_LIMIT ==> Receive(c, chunk).buffer == Framed(head + chunk).rest)
  {
    hide EncodeAll, Backlog, Behind, Framed, Read;
    PartsOfSum(head, chunk);
    BacklogIsBehind(ps, head + chunk, |head|);
    FramedSplit(head, chunk);
    if Backlog(c.buffer + chunk) <= BUFFER_LIMIT {
      FinishedRead(ps, head, chunk);
    }
  }

  lemma PartsOfSum<T>(a: seq<T>, b: seq<T>)
    ensures (a + b)[..|a|] == a && (a + b)[|a|..] == b
  {
  }

  lemma PrefixOfPrefix<T>(a: seq<T>, b: seq<T>, c: seq<T>)
    requires a <= b && b <= c
    ensures a <= c
  {
  }

  /** The client has the packets complete in `s` behind what `before` says, and buffers the rest. */
  ghost predicate InStep(c: Client, before: seq<Segment>, s: seq<byte>) {
    c.history == before + DispatchAll(Framed(s).items) && c.buffer == Framed(s).rest
  }

  /** A client in step with the first `from` bytes of a stream, from any history, reads on. */
  lemma StreamRun(c: Client, before: seq<Segment>, ps: seq<Packet>, s: seq<byte>, from: nat, chunks: seq<seq<byte>>)
    requires AllWithinLimits(ps) && s <= EncodeAll(ps) && from <= |s|
    requires InStep(c, before, s[..from]) && s[from..] == Framing.Flatten(chunks)
    ensures ReadsFit(ps, Lengths(chunks), from) ==> InStep(ReceiveAll(c, chunks), before, s)
    ensures !ReadsFit(ps, Lengths(chunks), from) ==> Lost(ReceiveAll(c, chunks).history) > Lost(c.history)
  {
    hide EncodeAll, Behind, Framed;
    var head, later := s[..from], s[from..];
    assert head + later == s;
    NeverOverflowsIff(c, ps, head, chunks);
    var left := TailOnStream(ps, head, later);
    assert Waiting(c, left, chunks);
    if NeverOverflows(c, chunks) {
      RunIsFeed(c, left, chunks);
      FeedIsFramed(c.buffer, chunks);
      FramedSplit(head, later);
      DispatchAppend(Framed(head).items, Framed(c.buffer + later).items);
      Reassociate(before, DispatchAll(Framed(head).items), DispatchAll(Framed(c.buffer + later).items));
    } else {
      OverflowLosesInRun(c, left, chunks);
    }
  }

  lemma FeedIsFramed(buffer: seq<byte>, chunks: seq<seq<byte>>)
    requires NextPacket(buffer).Wait?
    ensures Framing.Progresses(NextPacket)
    ensures Framing.Feed(NextPacket, buffer, chunks) == Framed(buffer + Framing.Flatten(chunks))
  {
    NextPacketFrames();
    Framing.FeedIsDrain(NextPacket, buffer, chunks);
  }

  lemma FinishedRead(ps: seq<Packet>, head: seq<byte>, tail: seq<byte>)
    requires AllWithinLimits(ps) && head + tail <= EncodeAll(ps)
    requires Backlog(Framed(head).rest + tail) <= BUFFER_LIMIT
    ensures Read(Framed(head).rest + tail) == Faithful(Framed(head).rest + tail)
  {
    var left := TailOnStream(ps, head, tail);
    ReadExactIff(left, Framed(head).rest + tail);
  }

  lemma FramedSplit(head: seq<byte>, tail: seq<byte>)
    ensures Framed(head + tail).items == Framed(head).items + Framed(Framed(head).rest + tail).items
    ensures Framed(head + tail).rest == Framed(Framed(head).rest + tail).rest
  {
    NextPacketFrames();
    Framing.DrainSplit(NextPacket, head, tail);
  }

  /**
   The transport law. Cut any stream of acceptable packets into reads anywhere, also inside
   headers and cookies: the client ends with exactly the complete packets dispatched and
   exactly the unfinished tail buffered if and only if no read leaves more than 10 MiB behind.
   */
  lemma ChunkedStreamExactIff(ps: seq<Packet>, chunks: seq<seq<byte>>)
    requires AllWithinLimits(ps) && Framing.Flatten(chunks) <= EncodeAll(ps)
    ensures var c := ReceiveAll(FRESH, chunks);
      IsExact(ps, Framing.Flatten(chunks), Packets(c.history), c.buffer) <==> ReadsFit(ps, Lengths(chunks), 0)
  {
    hide EncodeAll, Behind, Framed;
    var sent := Framing.Flatten(chunks);
    NothingYet(sent);
    StreamRun(FRESH, [], ps, sent, 0, chunks);
    if ReadsFit(ps, Lengths(chunks), 0) {
      DrainOnStream(ps, sent);
      DispatchAllLog(Framed(sent).items);
      assert [] + DispatchAll(Framed(sent).items) == DispatchAll(Framed(sent).items);
      FramedIs(sent);
    } else {
      RunAccounts(FRESH, [], chunks);
      assert [] + sent == sent;
      FlatLength(ReceiveAll(FRESH, chunks).history);
    }
  }

  /**
   The client on a whole connection: each chunk raises one `readyRead`. Its listeners are told of
   exactly the packets dispatched; if the chunks are a whole stream of acceptable packets and no read
   leaves more than 10 MiB behind, these are the packets sent.
   */
  method ReadConnection(client: NetworkClient, chunks: seq<seq<byte>>, ghost ps: seq<Packet>)
    requires client.Valid() && client.history == [] && client.buffer == [] && client.received == []
    requires AllWithinLimits(ps) && Framing.Flatten(chunks) <= EncodeAll(ps)
    modifies client
    ensures client.Valid() && client.received == Framing.Flatten(chunks)
    ensures Client(client.history, client.buffer) == ReceiveAll(FRESH, chunks)
    ensures IsExact(ps, Framing.Flatten(chunks), Packets(client.history), client.buffer) <==> ReadsFit(ps, Lengths(chunks), 0)
    ensures Framing.Flatten(chunks) == EncodeAll(ps) && ReadsFit(ps, Lengths(chunks), 0) ==>
      client.buffer == [] && Tells(client.calls, ps)
  {
    hide Read, EncodeAll, ReadsFit, IsExact, Tells, Calls, Accounts;
    for i := 0 to |chunks|
      invariant client.Valid() && client.received == Framing.Flatten(chunks[..i])
      invariant Client(client.history, client.buffer) == ReceiveAll(FRESH, chunks[..i])
    {
      assert chunks[..i + 1] == chunks[..i] + [chunks[i]];
      ReceiveOneMore(FRESH, chunks[..i], chunks[i]);
      client.ReadData(chunks[i]);
    }
    assert chunks[..|chunks|] == chunks;
    ChunkedStreamExactIff(ps, chunks);
    CallsTell(client.history);
    if Framing.Flatten(chunks) == EncodeAll(ps) && ReadsFit(ps, Lengths(chunks), 0) {
      WholeIsExact(ps, Packets(client.history), client.buffer);
    }
  }

  lemma WholeIsExact(ps: seq<Packet>, items: seq<Packet>, rest: seq<byte>)
    requires IsExact(ps, EncodeAll(ps), items, rest)
    ensures items == ps && rest == []
  {
    assert EncodeAll(ps) + [] == EncodeAll(ps) && ps[|ps|..] == [];
    ExactIsUnique(ps, EncodeAll(ps), items, rest, ps, []);
  }

  lemma {:induction false} ReceiveOneMore(c: Client, chunks: seq<seq<byte>>, chunk: seq<byte>)
    ensures ReceiveAll(c, chunks + [chunk]) == Receive(ReceiveAll(c, chunks), chunk)
    ensures Framing.Flatten(chunks + [chunk]) == Framing.Flatten(chunks) + chunk
    decreases |chunks|
  {
    hide Receive;
    if chunks == [] {
      assert [] + [chunk] == [chunk] && [chunk][1..] == [];
      assert ReceiveAll(Receive(c, chunk), []) == Receive(c, chunk);
    } else {
      assert (chunks + [chunk])[1..] == chunks[1..] + [chunk];
      ReceiveOneMore(Receive(c, chunks[0]), chunks[1..], chunk);
    }
  }

  lemma NothingYet(s: seq<byte>)
    ensures InStep(FRESH, [], s[..0]) && s[0..] == s
  {
    assert s[..0] == [];
    assert Framed([]).items == [] && Framed([]).rest == [];
  }

  lemma FramedIs(s: seq<byte>)
    ensures Framing.Progresses(NextPacket) && Framed(s) == Framing.Drain(NextPacket, s)
  {
  }

  lemma {:induction false} BehindIsSmall(ps: seq<Packet>, from: nat, to: nat, largest: nat)
    requires from <= to <= |EncodeAll(ps)|
    requires forall p :: p in ps ==> |Encode(p)| <= largest
    ensures Behind(ps, from, to) <= to - from + largest
    decreases |ps|
  {
    hide Encode;
    if ps != [] {
      assert ps[0] in ps;
      if |Encode(ps[0])| <= from {
        BehindIsSmall(ps[1..], from - |Encode(ps[0])|, to - |Encode(ps[0])|, largest);
      }
    }
  }

  /** A caller's rule: reads no larger than 10 MiB less the largest packet always fit. */
  lemma {:induction false} SmallReadsFit(ps: seq<Packet>, lengths: seq<nat>, from: nat, largest: nat)
    requires from + Total(lengths) <= |EncodeAll(ps)|
    requires forall p :: p in ps ==> |Encode(p)| <= largest
    requires forall n :: n in lengths ==> n + largest <= BUFFER_LIMIT
    ensures ReadsFit(ps, lengths, from)
    decreases |lengths|
  {
    hide Encode, Behind;
    if lengths != [] {
      assert lengths[0] in lengths && forall n :: n in lengths[1..] ==> n in lengths;
      assert Total(lengths) == lengths[0] + Total(lengths[1..]);
      BehindIsSmall(ps, from, from + lengths[0], largest);
      SmallReadsFit(ps, lengths[1..], from + lengths[0], largest);
    }
  }

  /** Any packet above 10 MiB, read in two parts of which the first is above 10 MiB, is not delivered intact. */
  lemma LargePacketIsLost(p: Packet, n: nat)
    requires WithinLimits(p) && BUFFER_LIMIT < n < |Encode(p)|
    ensures var c := ReceiveAll(FRESH, [Encode(p)[..n], Encode(p)[n..]]); !(Packets(c.history) == [p] && c.buffer == [])
  {
    var ps, whole := [p], Encode(p);
    var chunks := [whole[..n], whole[n..]];
    TwoChunks(whole, n);
    OnePacket(p);
    assert Behind(ps, 0, n) == n;
    ChunkedStreamExactIff(ps, chunks);
    assert whole + [] == whole;
  }

  lemma TwoChunks(whole: seq<byte>, n: nat)
    requires n <= |whole|
    ensures Framing.Flatten([whole[..n], whole[n..]]) == whole
    ensures Lengths([whole[..n], whole[n..]]) == [n, |whole| - n]
  {
    assert [whole[..n], whole[n..]][1..] == [whole[n..]] && [whole[n..]][1..] == [];
    assert Framing.Flatten([whole[n..]]) == whole[n..];
    assert Lengths([whole[n..]]) == [|whole| - n];
  }

  lemma OnePacket(p: Packet)
    ensures EncodeAll([p]) == Encode(p)
  {
    assert Encode(p) + EncodeAll([]) == Encode(p);
  }

  /** Such packets are within the client's own limits. */
  lemma LargestPacketCanBeLost()
    ensures var p := Packet(1, seq(MAX_JSON, _ => 0), seq(MAX_IMAGE, _ => 0));
      var c := ReceiveAll(FRESH, [Encode(p)[..BUFFER_LIMIT + 1], Encode(p)[BUFFER_LIMIT + 1..]]);
      WithinLimits(p) && !(Packets(c.history) == [p] && c.buffer == [])
  {
    LargePacketIsLost(Packet(1, seq(MAX_JSON, _ => 0), seq(MAX_IMAGE, _ => 0)), BUFFER_LIMIT + 1);
  }
}
