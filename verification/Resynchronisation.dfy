/**
 `readData` on bytes that do not start at a packet: garbage in front of a stream, and what a
 connection that was lost has left in the buffer when the next one begins.
 */
module Resynchronisation {
  import opened Bytes
  import opened CameraPacket
  import Framing
  import opened PacketStream
  import opened Reassembly
  import opened Search
  import opened Sequences
  import opened Wrappers

  // ---- Single reads ----

  function Skip(bytes: seq<byte>): seq<Segment> {
    if bytes == [] then [] else [Skipped(bytes)]
  }

  /** A turn that drops bytes, and then the read of the others. */
  lemma ReadAfterDrop(buffer: seq<byte>)
    requires Decide(buffer).Drop?
    ensures var n := Decide(buffer).n; Read(buffer) == Prepend([Skipped(buffer[..n])], Read(buffer[n..]))
  {
    var n := Decide(buffer).n;
    var gone, o := [Skipped(buffer[..n])], Scan(buffer[n..]);
    assert Scan(buffer) == Prepend(gone, o);
    if |o.rest| > BUFFER_LIMIT {
      match Find(o.rest, COOKIE, 4)
      case Some(next) => Reassociate(gone, o.segments, [Skipped(o.rest[..next])]);
      case None => Reassociate(gone, o.segments, [Skipped(o.rest)]);
    }
  }

  /** Garbage is skipped as one stretch, and what follows is read as if it stood alone. */
  lemma ReadAfterGarbage(g: seq<byte>, piece: seq<byte>)
    requires Find(g + piece, COOKIE, 0) == Some(|g|)
    ensures Read(g + piece) == Prepend(Skip(g), Read(piece))
  {
    hide Read;
    if g == [] {
      assert g + piece == piece && [] + Read(piece).segments == Read(piece).segments;
    } else {
      assert Decide(g + piece) == Drop(|g|);
      assert (g + piece)[..|g|] == g && (g + piece)[|g|..] == piece;
      ReadAfterDrop(g + piece);
    }
  }

  /** A read with no cookie in it is dropped whole. */
  lemma CookielessRead(chunk: seq<byte>)
    requires 4 <= |chunk| && Find(chunk, COOKIE, 0).None?
    ensures Read(chunk) == Outcome([Skipped(chunk)], [])
  {
    assert chunk[..|chunk|] == chunk && chunk[|chunk|..] == [];
    ReadAfterDrop(chunk);
  }

  lemma ShortRead(chunk: seq<byte>)
    requires |chunk| < 4
    ensures Read(chunk) == Outcome([], chunk)
  {
  }

  lemma FindInPiece<T>(s: seq<T>, pattern: seq<T>, from: nat, to: nat)
    requires Find(s, pattern, 0).Some? && from <= Find(s, pattern, 0).value && from <= to <= |s|
    ensures var i := Find(s, pattern, 0).value;
      Find(s[from..to], pattern, 0) == if i + |pattern| <= to then Some(i - from) else None
  {
    FindAfterDrop(s, pattern, from);
    FindInCut(s[from..], pattern, to - from);
    assert s[from..][..to - from] == s[from..to];
  }

  lemma SkipLog(g: seq<byte>)
    ensures Lost(Skip(g)) == |g| && Packets(Skip(g)) == []
  {
  }

  // ---- Whole streams ----

  lemma WholeStream(ps: seq<Packet>)
    requires AllWithinLimits(ps)
    ensures Framed(EncodeAll(ps)).items == ps && Framed(EncodeAll(ps)).rest == []
  {
    var whole := EncodeAll(ps);
    DrainOnStream(ps, whole);
    assert EncodeAll(ps) + [] == whole;
    assert ps[|ps|..] == [];
    ExactIsUnique(ps, whole, ps, [], Framed(whole).items, Framed(whole).rest);
  }

  /** Everything new in the history is bytes skipped first, and then exactly the packets `ps`. */
  ghost predicate Intact(c: Client, d: Client, ps: seq<Packet>) {
    d.buffer == [] && exists gs: seq<Segment> :: SkipsThen(c, d, gs, ps)
  }

  ghost predicate SkipsThen(c: Client, d: Client, gs: seq<Segment>, ps: seq<Packet>) {
    (forall g :: g in gs ==> g.Skipped?) && d.history == c.history + gs + DispatchAll(ps)
  }

  lemma {:induction false} OnlySkipped(gs: seq<Segment>)
    requires forall g :: g in gs ==> g.Skipped?
    ensures Packets(gs) == []
  {
    if gs != [] {
      assert gs[0] in gs;
      OnlySkipped(gs[1..]);
    }
  }

  lemma IntactPackets(c: Client, d: Client, ps: seq<Packet>)
    requires Intact(c, d, ps)
    ensures Packets(d.history) == Packets(c.history) + ps && d.buffer == []
  {
    var gs: seq<Segment> :| SkipsThen(c, d, gs, ps);
    OnlySkipped(gs);
    LogAppend(c.history, gs);
    LogAppend(c.history + gs, DispatchAll(ps));
    DispatchAllLog(ps);
    assert Packets(c.history) + [] == Packets(c.history);
  }

  /** No byte is lost track of, from any state. */
  lemma {:induction false} LengthsAddUp(c: Client, chunks: seq<seq<byte>>)
    ensures var d := ReceiveAll(c, chunks);
      |Flat(d.history)| + |d.buffer| == |Flat(c.history)| + |c.buffer| + |Framing.Flatten(chunks)|
    decreases |chunks|
  {
    if chunks != [] {
      var buffer := c.buffer + chunks[0];
      ReadAccounts(buffer);
      FlatAppend(c.history, Read(buffer).segments);
      LengthsAddUp(Receive(c, chunks[0]), chunks[1..]);
    }
  }

  /** If all the packets sent came through, just the bytes that are not theirs were lost. */
  lemma LossOfDelivered(c: Client, chunks: seq<seq<byte>>, ps: seq<Packet>)
    requires var d := ReceiveAll(c, chunks); Packets(d.history) == Packets(c.history) + ps && d.buffer == []
    ensures var d := ReceiveAll(c, chunks);
      Lost(d.history) + |EncodeAll(ps)| == Lost(c.history) + |c.buffer| + |Framing.Flatten(chunks)|
  {
    var d := ReceiveAll(c, chunks);
    LengthsAddUp(c, chunks);
    FlatLength(c.history);
    FlatLength(d.history);
    EncodeAllAppend(Packets(c.history), ps);
  }

  /** From the read that shows the first cookie of a stream on, the stream is read as if it stood alone. */
  lemma FoundRun(c: Client, g: seq<byte>, ps: seq<Packet>, to: nat, chunks: seq<seq<byte>>)
    requires AllWithinLimits(ps) && 4 <= to <= |EncodeAll(ps)| && chunks != []
    requires c.buffer + chunks[0] == g + EncodeAll(ps)[..to] && Find(g + EncodeAll(ps)[..to], COOKIE, 0) == Some(|g|)
    requires EncodeAll(ps)[to..] == Framing.Flatten(chunks[1..])
    ensures var d := ReceiveAll(c, chunks);
      if Behind(ps, 0, to) <= BUFFER_LIMIT && ReadsFit(ps, Lengths(chunks[1..]), to)
      then d == Client(c.history + Skip(g) + DispatchAll(ps), [])
      else Lost(d.history) > Lost(c.history) + |g|
  {
    hide EncodeAll, Behind, Framed, Read, Find, Skip;
    var whole := EncodeAll(ps);
    var piece, before, d := whole[..to], c.history + Skip(g), Receive(c, chunks[0]);
    ReadAfterGarbage(g, piece);
    Reassociate(c.history, Skip(g), Read(piece).segments);
    LogAppend(c.history, Skip(g));
    LogAppend(before, Read(piece).segments);
    SkipLog(g);
    BacklogOfFirst(ps, piece);
    ReadExactIff(ps, piece);
    if Behind(ps, 0, to) <= BUFFER_LIMIT {
      assert InStep(d, before, piece);
      StreamRun(d, before, ps, whole, to, chunks[1..]);
      WholeStream(ps);
    } else {
      OverflowLoses(ps, piece);
      LostOnlyGrows(d, chunks[1..]);
    }
  }

  lemma BacklogOfFirst(ps: seq<Packet>, piece: seq<byte>)
    requires AllWithinLimits(ps) && piece <= EncodeAll(ps)
    ensures Backlog(piece) == Behind(ps, 0, |piece|)
  {
    hide EncodeAll, Behind, Backlog;
    BacklogIsBehind(ps, piece, 0);
    NothingYet(piece);
    assert [] + piece == piece;
  }

  // ---- Garbage in front of a stream ----

  /** The first cookie in sight is that of the first packet. */
  ghost predicate GarbageThenStream(g: seq<byte>, ps: seq<Packet>) {
    AllWithinLimits(ps) && ps != [] && Find(g + EncodeAll(ps), COOKIE, 0) == Some(|g|)
  }

  /**
   Whether a stream behind `garbage` bytes gets through, from lengths alone: `dropped` bytes have
   been dropped and `received` received. A read that brings less than four bytes waits; one that
   reaches into the first cookie, but not to its end, drops a part of the cookie.
   */
  predicate GarbagePasses(garbage: nat, ps: seq<Packet>, lengths: seq<nat>, dropped: nat, received: nat)
    requires dropped <= received
    decreases |lengths|
  {
    lengths != [] &&
    var next := received + lengths[0];
    if next < dropped + 4 then GarbagePasses(garbage, ps, lengths[1..], dropped, next)
    else if garbage + 4 <= next then Behind(ps, 0, next - garbage) <= BUFFER_LIMIT && ReadsFit(ps, lengths[1..], next - garbage)
    else next <= garbage && GarbagePasses(garbage, ps, lengths[1..], next, next)
  }

  /** A client that has dropped the first bytes of `s` and holds fewer than four of the following. */
  ghost predicate Searching(c: Client, s: seq<byte>, dropped: nat, received: nat, chunks: seq<seq<byte>>) {
    && dropped <= received <= |s| && received < dropped + 4
    && c.buffer == s[dropped..received] && s[received..] == Framing.Flatten(chunks)
  }

  lemma NextPiece(s: seq<byte>, from: nat, received: nat, chunks: seq<seq<byte>>)
    requires from <= received <= |s| && s[received..] == Framing.Flatten(chunks) && chunks != []
    ensures var next := received + |chunks[0]|;
      next <= |s| && s[from..received] + chunks[0] == s[from..next] && s[next..] == Framing.Flatten(chunks[1..])
  {
    assert s == s[..received] + (chunks[0] + Framing.Flatten(chunks[1..]));
  }

  lemma StreamIsLong(ps: seq<Packet>)
    requires ps != []
    ensures |EncodeAll(ps)| >= HEADER_SIZE
  {
  }

  lemma {:induction false} GarbageRun(c: Client, g: seq<byte>, ps: seq<Packet>, dropped: nat, received: nat, chunks: seq<seq<byte>>)
    requires GarbageThenStream(g, ps) && dropped <= |g| && Searching(c, g + EncodeAll(ps), dropped, received, chunks)
    ensures var d := ReceiveAll(c, chunks);
      if GarbagePasses(|g|, ps, Lengths(chunks), dropped, received) then Intact(c, d, ps)
      else Lost(d.history) > Lost(c.history) + |g| - dropped
    decreases |chunks|
  {
    hide Read, Find, Behind, ReadsFit, Framed, Intact, EncodeAll;
    var s := g + EncodeAll(ps);
    StreamIsLong(ps);
    if chunks == [] {
      assert false;
    } else {
      var next, d := received + |chunks[0]|, Receive(c, chunks[0]);
      NextPiece(s, dropped, received, chunks);
      var piece := s[dropped..next];
      if next < dropped + 4 {
        ShortRead(piece);
        assert d == Client(c.history + [], piece) && c.history + [] == c.history;
        GarbageRun(d, g, ps, dropped, next, chunks[1..]);
        IntactSame(c, d, ReceiveAll(c, chunks), ps);
      } else if |g| + 4 <= next {
        GarbageFound(c, g, ps, dropped, next, chunks);
      } else {
        FindInPiece(s, COOKIE, dropped, next);
        CookielessRead(piece);
        OneMoreSkipped(c.history, piece);
        if |g| < next {
          LostOnlyGrows(d, chunks[1..]);
        } else {
          assert s[next..next] == [];
          GarbageRun(d, g, ps, next, next, chunks[1..]);
          if Intact(d, ReceiveAll(c, chunks), ps) {
            IntactAfterSkip(c, piece, d, ReceiveAll(c, chunks), ps);
          }
        }
      }
    }
  }

  lemma IntactSame(c: Client, d: Client, e: Client, ps: seq<Packet>)
    requires c.history == d.history
    ensures Intact(d, e, ps) == Intact(c, e, ps)
  {
    forall gs: seq<Segment>
      ensures SkipsThen(d, e, gs, ps) == SkipsThen(c, e, gs, ps)
    {
    }
  }

  lemma IntactAfterSkip(c: Client, bytes: seq<byte>, d: Client, e: Client, ps: seq<Packet>)
    requires d.history == c.history + [Skipped(bytes)] && Intact(d, e, ps)
    ensures Intact(c, e, ps)
  {
    var gs: seq<Segment> :| SkipsThen(d, e, gs, ps);
    Reassociate(c.history, [Skipped(bytes)], gs);
    assert SkipsThen(c, e, [Skipped(bytes)] + gs, ps);
  }

  lemma GarbageFound(c: Client, g: seq<byte>, ps: seq<Packet>, dropped: nat, next: nat, chunks: seq<seq<byte>>)
    requires GarbageThenStream(g, ps) && dropped <= |g| && |g| + 4 <= next <= |g + EncodeAll(ps)| && chunks != []
    requires c.buffer + chunks[0] == (g + EncodeAll(ps))[dropped..next]
    requires (g + EncodeAll(ps))[next..] == Framing.Flatten(chunks[1..])
    ensures var d, to := ReceiveAll(c, chunks), next - |g|;
      if Behind(ps, 0, to) <= BUFFER_LIMIT && ReadsFit(ps, Lengths(chunks[1..]), to) then Intact(c, d, ps)
      else Lost(d.history) > Lost(c.history) + |g| - dropped
  {
    hide EncodeAll, Find, Behind, Receive;
    var whole, left, to := EncodeAll(ps), g[dropped..], next - |g|;
    FindInPiece(g + whole, COOKIE, dropped, next);
    assert (g + whole)[dropped..next] == left + whole[..to] && (g + whole)[next..] == whole[to..];
    FoundRun(c, left, ps, to, chunks);
    assert ReceiveAll(c, chunks) == Client(c.history + Skip(left) + DispatchAll(ps), []) ==>
      SkipsThen(c, ReceiveAll(c, chunks), Skip(left), ps);
  }

  /**
   Garbage in front of a stream, read in any chunks: all packets are delivered, and nothing stays
   buffered, if and only if no read that drops garbage ends inside the first cookie and no later
   read leaves more than 10 MiB behind.
   */
  lemma GarbageThenStreamIff(g: seq<byte>, ps: seq<Packet>, chunks: seq<seq<byte>>)
    requires GarbageThenStream(g, ps) && Framing.Flatten(chunks) == g + EncodeAll(ps)
    ensures var c := ReceiveAll(FRESH, chunks);
      (Packets(c.history) == ps && c.buffer == []) <==> GarbagePasses(|g|, ps, Lengths(chunks), 0, 0)
  {
    hide EncodeAll, Find, GarbagePasses, Intact;
    var s, c := g + EncodeAll(ps), ReceiveAll(FRESH, chunks);
    assert s[0..] == s && s[0..0] == [];
    GarbageRun(FRESH, g, ps, 0, 0, chunks);
    assert [] + ps == ps;
    if GarbagePasses(|g|, ps, Lengths(chunks), 0, 0) {
      IntactPackets(FRESH, c, ps);
    } else if Packets(c.history) == ps && c.buffer == [] {
      LossOfDelivered(FRESH, chunks, ps);
    }
  }

  /** In two reads of no more than 10 MiB in all: only a cut through the first cookie does harm. */
  lemma GarbageCutIff(g: seq<byte>, ps: seq<Packet>, t: nat)
    requires GarbageThenStream(g, ps) && t <= |g + EncodeAll(ps)| <= BUFFER_LIMIT
    ensures var s := g + EncodeAll(ps);
      var c := ReceiveAll(FRESH, [s[..t], s[t..]]);
      (Packets(c.history) == ps && c.buffer == []) <==> (t < 4 || t <= |g| || |g| + 4 <= t)
  {
    hide EncodeAll, Find, GarbagePasses, ReceiveAll, Lengths, TotalSize;
    var s := g + EncodeAll(ps);
    TwoChunks(s, t);
    GarbageThenStreamIff(g, ps, [s[..t], s[t..]]);
    StreamIsLong(ps);
    TwoReadsPass(|g|, ps, |s|, t);
  }

  lemma TwoReadsPass(garbage: nat, ps: seq<Packet>, total: nat, t: nat)
    requires garbage + HEADER_SIZE <= total <= BUFFER_LIMIT && t <= total
    ensures GarbagePasses(garbage, ps, [t, total - t], 0, 0) <==> (t < 4 || t <= garbage || garbage + 4 <= t)
  {
    hide Behind, ReadsFit;
    assert [t, total - t][1..] == [total - t] && [total - t][1..] == [];
    BehindIsInside(ps, 0, total - garbage);
    LastReadFits(ps, total - garbage);
    if garbage + 4 <= t {
      BehindIsInside(ps, 0, t - garbage);
      BehindIsInside(ps, t - garbage, total - garbage);
      OneReadFits(ps, t - garbage, total - t);
    } else if t < 4 || t <= garbage {
      assert GarbagePasses(garbage, ps, [total - t], if t < 4 then 0 else t, t);
    }
  }

  lemma LastReadFits(ps: seq<Packet>, from: nat)
    ensures ReadsFit(ps, [], from)
  {
  }

  lemma OneReadFits(ps: seq<Packet>, from: nat, n: nat)
    requires Behind(ps, from, from + n) <= BUFFER_LIMIT
    ensures ReadsFit(ps, [n], from)
  {
    assert [n][1..] == [];
  }

  lemma {:induction false} BehindIsInside(ps: seq<Packet>, from: nat, to: nat)
    requires from <= to
    ensures Behind(ps, from, to) <= to
  {
    if ps != [] && |Encode(ps[0])| <= from {
      BehindIsInside(ps[1..], from - |Encode(ps[0])|, to - |Encode(ps[0])|);
    }
  }

  /** One garbage byte and one packet, cut after four bytes: the packet is lost. */
  lemma GarbageCutLoses(b: byte, p: Packet)
    requires b != 0xDE && WithinLimits(p) && |Encode(p)| < BUFFER_LIMIT
    ensures var s := [b] + Encode(p);
      var c := ReceiveAll(FRESH, [s[..4], s[4..]]);
      !(Packets(c.history) == [p] && c.buffer == [])
  {
    var s := [b] + Encode(p);
    OnePacket(p);
    FirstCookie([b], p, []);
    GarbageCutIff([b], [p], 4);
  }

  /** A packet starts with a cookie, and one byte other than its first cannot make an earlier one. */
  lemma FirstCookie(g: seq<byte>, p: Packet, later: seq<byte>)
    requires |g| <= 1 && 0xDE !in g
    ensures Find(g + (Encode(p) + later), COOKIE, 0) == Some(|g|)
  {
    var s := g + (Encode(p) + later);
    StartsLike(p, later, Encode(p) + later);
    CookieBehind(g, Encode(p) + later);
    if g != [] {
      assert s[0] == g[0] != COOKIE[0];
      assert !MatchAt(s, COOKIE, 0) by { assert s[0..4][0] == s[0]; }
    }
    FindIs(s, COOKIE, 0, |g|);
  }

  lemma CookieBehind(g: seq<byte>, s: seq<byte>)
    requires MatchAt(s, COOKIE, 0)
    ensures MatchAt(g + s, COOKIE, |g|)
  {
    assert (g + s)[|g|..|g| + 4] == s[0..4];
  }

  // ---- A second connection behind the leftover of the first ----

  /**
   Whether the packets of a second connection get through behind `held` bytes left over from a
   packet of the first, at least its cookie, from lengths and the header alone; `header` is the one
   the client reads, which takes its last bytes from the new stream if the leftover is too short.
   The leftover goes away only if that header is abnormal, or if the buffer overflows before the
   old packet seems complete.
   */
  predicate LeftoverPasses(held: nat, header: Header, ps: seq<Packet>, lengths: seq<nat>, received: nat)
    decreases |lengths|
  {
    lengths != [] &&
    var next := received + lengths[0];
    if held + next < HEADER_SIZE then LeftoverPasses(held, header, ps, lengths[1..], next)
    else if Abnormal(header) then 4 <= next && Behind(ps, 0, next) <= BUFFER_LIMIT && ReadsFit(ps, lengths[1..], next)
    else if TotalSize(header) <= held + next then false
    else if held + next <= BUFFER_LIMIT then LeftoverPasses(held, header, ps, lengths[1..], next)
    else FitsAfterOverflow(ps, lengths, next)
  }

  /**
   The guard has cleared a leftover behind which there were `next` bytes of the new stream: either
   none, or a whole cookie, and then only the next read looks at them.
   */
  predicate FitsAfterOverflow(ps: seq<Packet>, lengths: seq<nat>, next: nat)
    requires lengths != []
  {
    if next == 0 then ReadsFit(ps, lengths[1..], 0) else 4 <= next && |lengths| > 1 && FitsFromStart(ps, lengths[1..], next)
  }

  /** The first read shows the client all of the new stream that there is so far. */
  predicate FitsFromStart(ps: seq<Packet>, lengths: seq<nat>, received: nat)
    requires lengths != []
  {
    Behind(ps, 0, received + lengths[0]) <= BUFFER_LIMIT && ReadsFit(ps, lengths[1..], received + lengths[0])
  }

  /** The leftover `u` starts with a cookie. */
  ghost predicate LeftoverThenStream(u: seq<byte>, ps: seq<Packet>) {
    AllWithinLimits(ps) && ps != [] && 4 <= |u| && COOKIE <= u
  }

  /** The next cookie in sight is that of the new stream. */
  ghost predicate NoOtherCookie(u: seq<byte>, ps: seq<Packet>)
    requires 4 <= |u|
  {
    Find((u + EncodeAll(ps))[4..], COOKIE, 0) == Some(|u| - 4)
  }

  /** Bytes of the leftover will be searched for a cookie: it is abnormal, or larger than the buffer may be. */
  predicate Searched(header: Header) {
    Abnormal(header) || TotalSize(header) > BUFFER_LIMIT
  }

  function MixedHeader(u: seq<byte>, s: seq<byte>): Header
    requires HEADER_SIZE <= |u + s|
  {
    ReadHeader(u + s)
  }

  /** What a turn of the loop does with the leftover and the first `next` bytes of the new stream. */
  lemma DecideOnLeftover(u: seq<byte>, s: seq<byte>, next: nat)
    requires 4 <= |u| && COOKIE <= u && HEADER_SIZE <= |s| && next <= |s|
    ensures Decide(u + s[..next]) ==
      if |u| + next < HEADER_SIZE then Stop
      else if Abnormal(MixedHeader(u, s)) then Drop(4)
      else if |u| + next < TotalSize(MixedHeader(u, s)) then Stop
      else Deliver(FrontPacket(u + s[..next]), TotalSize(MixedHeader(u, s)))
  {
    var buffer := u + s[..next];
    assert buffer[0..4] == u[..4] == COOKIE;
    FindIs(buffer, COOKIE, 0, 0);
    if HEADER_SIZE <= |buffer| {
      assert buffer <= u + s;
      SameFront(buffer, u + s);
    }
  }

  /** Searching from a later place is searching the rest. */
  lemma FindFrom<T>(s: seq<T>, pattern: seq<T>, n: nat)
    requires n <= |s|
    ensures Find(s, pattern, n) == match Find(s[n..], pattern, 0) case Some(i) => Some(n + i) case None => None
  {
    forall j: nat | n <= j
      ensures MatchAt(s, pattern, j) == MatchAt(s[n..], pattern, j - n)
    {
      if j + |pattern| <= |s| {
        assert s[n..][j - n..j - n + |pattern|] == s[j..j + |pattern|];
      }
    }
    if Find(s[n..], pattern, 0).Some? {
      FindIs(s, pattern, n, n + Find(s[n..], pattern, 0).value);
    }
  }

  /** What lies behind the leftover's own cookie is garbage in front of the new stream. */
  lemma SecondCookie(u: seq<byte>, ps: seq<Packet>, next: nat)
    requires LeftoverThenStream(u, ps) && NoOtherCookie(u, ps) && next <= |EncodeAll(ps)|
    ensures var piece := EncodeAll(ps)[..next];
      && Find(u[4..] + piece, COOKIE, 0) == (if 4 <= next then Some(|u| - 4) else None)
      && Find(u + piece, COOKIE, 4) == (if 4 <= next then Some(|u|) else None)
  {
    hide Find, EncodeAll;
    var s := EncodeAll(ps);
    BehindCookie(u, s, next);
    FindInCut((u + s)[4..], COOKIE, |u| - 4 + next);
    FindFrom(u + s[..next], COOKIE, 4);
  }

  lemma BehindCookie<T>(u: seq<T>, s: seq<T>, next: nat)
    requires 4 <= |u| && next <= |s|
    ensures |u| - 4 + next <= |(u + s)[4..]| && (u + s)[4..][..|u| - 4 + next] == u[4..] + s[..next]
    ensures (u + s[..next])[4..] == u[4..] + s[..next]
  {
  }

  lemma {:induction false} HistoryGrows(c: Client, chunks: seq<seq<byte>>)
    ensures c.history <= ReceiveAll(c, chunks).history
    decreases |chunks|
  {
    hide Read;
    if chunks != [] {
      HistoryGrows(Receive(c, chunks[0]), chunks[1..]);
    }
  }

  lemma FirstNew(c: Client, d: Client, gs: seq<Segment>, ps: seq<Packet>)
    requires SkipsThen(c, d, gs, ps)
    ensures gs != [] ==> |c.history| < |d.history| && d.history[|c.history|].Skipped?
  {
    if gs != [] {
      assert gs[0] in gs && (c.history + gs + DispatchAll(ps))[|c.history|] == gs[0];
    }
  }

  /** The client still has to receive, or already holds, `extra` bytes more than the packets `ps`. */
  ghost predicate Owes(c: Client, chunks: seq<seq<byte>>, ps: seq<Packet>, extra: nat) {
    |c.buffer| + |Framing.Flatten(chunks)| == extra + |EncodeAll(ps)|
  }

  /** A client that dispatches something before it has lost what was left over cannot be intact. */
  lemma BogusPacket(c: Client, x: Packet, chunks: seq<seq<byte>>, ps: seq<Packet>, extra: nat)
    requires Owes(c, chunks, ps, extra) && extra > 0
    requires c.history + [Dispatched(x)] <= ReceiveAll(c, chunks).history
    ensures !Intact(c, ReceiveAll(c, chunks), ps)
  {
    var d := ReceiveAll(c, chunks);
    if Intact(c, d, ps) {
      var gs: seq<Segment> :| SkipsThen(c, d, gs, ps);
      IntactPackets(c, d, ps);
      LossOfDelivered(c, chunks, ps);
      FirstNew(c, d, gs, ps);
      assert d.history[|c.history|] == Dispatched(x);
      LogAppend(c.history, gs + DispatchAll(ps));
      LogAppend(gs, DispatchAll(ps));
      DispatchAllLog(ps);
      Reassociate(c.history, gs, DispatchAll(ps));
    }
  }

  /** Losing more than was left over means losing a byte of the new stream. */
  lemma TooMuchLost(c: Client, chunks: seq<seq<byte>>, ps: seq<Packet>, extra: nat)
    requires Owes(c, chunks, ps, extra)
    requires Lost(ReceiveAll(c, chunks).history) > Lost(c.history) + extra
    ensures !Intact(c, ReceiveAll(c, chunks), ps)
  {
    if Intact(c, ReceiveAll(c, chunks), ps) {
      IntactPackets(c, ReceiveAll(c, chunks), ps);
      LossOfDelivered(c, chunks, ps);
    }
  }

  lemma SkippedIsIntact(c: Client, gs: seq<Segment>, ps: seq<Packet>)
    requires forall g :: g in gs ==> g.Skipped?
    ensures Intact(c, Client(c.history + gs + DispatchAll(ps), []), ps)
  {
    assert SkipsThen(c, Client(c.history + gs + DispatchAll(ps), []), gs, ps);
  }

  /** Leftover `u`, all of it and `received` bytes of the new stream still buffered. */
  ghost predicate Holding(c: Client, u: seq<byte>, ps: seq<Packet>, received: nat, chunks: seq<seq<byte>>) {
    && LeftoverThenStream(u, ps) && received <= |EncodeAll(ps)| && Owes(c, chunks, ps, |u|)
    && c.buffer == u + EncodeAll(ps)[..received] && EncodeAll(ps)[received..] == Framing.Flatten(chunks)
  }

  lemma HoldMore(c: Client, u: seq<byte>, ps: seq<Packet>, received: nat, chunks: seq<seq<byte>>)
    requires Holding(c, u, ps, received, chunks) && chunks != []
    ensures var next, s := received + |chunks[0]|, EncodeAll(ps);
      && next <= |s| && s[..received] + chunks[0] == s[..next] && s[next..] == Framing.Flatten(chunks[1..])
      && c.buffer + chunks[0] == u + s[..next] && Holding(Client(c.history, u + s[..next]), u, ps, next, chunks[1..])
  {
    var s := EncodeAll(ps);
    ReadOn(s, received, chunks);
    Reassociate(u, s[..received], chunks[0]);
  }

  lemma ReadOn(s: seq<byte>, received: nat, chunks: seq<seq<byte>>)
    requires received <= |s| && s[received..] == Framing.Flatten(chunks) && chunks != []
    ensures var next := received + |chunks[0]|;
      next <= |s| && s[..received] + chunks[0] == s[..next] && s[next..] == Framing.Flatten(chunks[1..])
  {
    NextPiece(s, 0, received, chunks);
    assert s[0..received] == s[..received] && s[0..received + |chunks[0]|] == s[..received + |chunks[0]|];
  }

  lemma HeldRead(buffer: seq<byte>)
    requires Decide(buffer) == Stop && |buffer| <= BUFFER_LIMIT
    ensures Read(buffer) == Outcome([], buffer)
  {
  }

  /** A leftover whose header turns out abnormal is skipped like garbage. */
  lemma AbnormalLeftover(c: Client, u: seq<byte>, ps: seq<Packet>, received: nat, chunks: seq<seq<byte>>)
    requires Holding(c, u, ps, received, chunks) && chunks != [] && HEADER_SIZE <= |EncodeAll(ps)|
    requires NoOtherCookie(u, ps) && Abnormal(MixedHeader(u, EncodeAll(ps))) && |u| < HEADER_SIZE <= |u| + received + |chunks[0]|
    ensures var next := received + |chunks[0]|; Intact(c, ReceiveAll(c, chunks), ps) <==>
      4 <= next && Behind(ps, 0, next) <= BUFFER_LIMIT && ReadsFit(ps, Lengths(chunks[1..]), next)
  {
    hide Read, Find, Decide, EncodeAll, Behind, Intact, ReadsFit, Abnormal;
    var s, next := EncodeAll(ps), received + |chunks[0]|;
    HoldMore(c, u, ps, received, chunks);
    DecideOnLeftover(u, s, next);
    SecondCookie(u, ps, next);
    DroppedCookie(u, s[..next]);
    if 4 <= next {
      SkippedCookieRun(c, u, ps, received, chunks);
    } else {
      var left := u[4..] + s[..next];
      CookielessRead(left);
      assert Read(u + s[..next]).segments == [Skipped(u[..4])] + [Skipped(left)];
      TwoSkipped(c.history, u[..4], left);
      LostOnlyGrows(Receive(c, chunks[0]), chunks[1..]);
    }
    if Lost(ReceiveAll(c, chunks).history) > Lost(c.history) + |u| {
      TooMuchLost(c, chunks, ps, |u|);
    }
  }

  lemma DroppedCookie(u: seq<byte>, piece: seq<byte>)
    requires 4 <= |u| && Decide(u + piece) == Drop(4)
    ensures Read(u + piece) == Prepend([Skipped(u[..4])], Read(u[4..] + piece))
  {
    hide Read, Decide;
    assert (u + piece)[..4] == u[..4] && (u + piece)[4..] == u[4..] + piece;
    ReadAfterDrop(u + piece);
  }

  lemma TwoSkipped(gs: seq<Segment>, a: seq<byte>, b: seq<byte>)
    ensures Lost(gs + ([Skipped(a)] + [Skipped(b)])) == Lost(gs) + |a| + |b|
  {
    LogAppend(gs, [Skipped(a)] + [Skipped(b)]);
    LogAppend([Skipped(a)], [Skipped(b)]);
    assert Lost([Skipped(a)]) == |a| && Lost([Skipped(b)]) == |b|;
  }

  /** The cookie is dropped and the rest of the leftover is garbage in front of the new stream. */
  lemma SkippedCookieRun(c: Client, u: seq<byte>, ps: seq<Packet>, received: nat, chunks: seq<seq<byte>>)
    requires Holding(c, u, ps, received, chunks) && chunks != [] && 4 <= received + |chunks[0]| <= |EncodeAll(ps)|
    requires var piece := EncodeAll(ps)[..received + |chunks[0]|];
      Read(u + piece) == Prepend([Skipped(u[..4])], Read(u[4..] + piece)) && Find(u[4..] + piece, COOKIE, 0) == Some(|u| - 4)
    ensures var next, d := received + |chunks[0]|, ReceiveAll(c, chunks);
      if Behind(ps, 0, next) <= BUFFER_LIMIT && ReadsFit(ps, Lengths(chunks[1..]), next) then Intact(c, d, ps)
      else Lost(d.history) > Lost(c.history) + |u|
  {
    hide Read, Find, Decide, EncodeAll, Behind, Intact, ReadsFit;
    var s, next, gone := EncodeAll(ps), received + |chunks[0]|, [Skipped(u[..4])];
    HoldMore(c, u, ps, received, chunks);
    var e := Client(c.history + gone, u[4..] + s[..received]);
    Reassociate(u[4..], s[..received], chunks[0]);
    Reassociate(c.history, gone, Read(u[4..] + s[..next]).segments);
    assert Receive(e, chunks[0]) == Receive(c, chunks[0]);
    OneMoreSkipped(c.history, u[..4]);
    FoundRun(e, u[4..], ps, next, chunks);
    Reassociate(c.history, gone, Skip(u[4..]));
    SkippedIsIntact(c, gone + Skip(u[4..]), ps);
  }

  /** A leftover that takes bytes of the new stream for its own spoils the new stream. */
  lemma SwallowingLeftover(c: Client, u: seq<byte>, ps: seq<Packet>, received: nat, chunks: seq<seq<byte>>)
    requires Holding(c, u, ps, received, chunks) && chunks != []
    requires Decide(c.buffer + chunks[0]).Deliver?
    ensures !Intact(c, ReceiveAll(c, chunks), ps)
  {
    hide Find, EncodeAll, Behind, Intact;
    var buffer, x := c.buffer + chunks[0], Decide(c.buffer + chunks[0]).packet;
    DeliversFirst(buffer);
    HistoryGrows(Receive(c, chunks[0]), chunks[1..]);
    var segments := Read(buffer).segments;
    assert segments == [Dispatched(x)] + segments[1..];
    Reassociate(c.history, [Dispatched(x)], segments[1..]);
    BogusPacket(c, x, chunks, ps, |u|);
  }

  lemma DeliversFirst(buffer: seq<byte>)
    requires Decide(buffer).Deliver?
    ensures Read(buffer).segments != [] && Read(buffer).segments[0] == Dispatched(Decide(buffer).packet)
  {
  }

  /** A leftover so large that the overflow guard fires before it is complete. */
  lemma OverflowingLeftover(c: Client, u: seq<byte>, ps: seq<Packet>, received: nat, chunks: seq<seq<byte>>)
    requires Holding(c, u, ps, received, chunks) && chunks != [] && NoOtherCookie(u, ps)
    requires Decide(c.buffer + chunks[0]) == Stop && |c.buffer + chunks[0]| > BUFFER_LIMIT
    ensures Intact(c, ReceiveAll(c, chunks), ps) <==> FitsAfterOverflow(ps, Lengths(chunks), received + |chunks[0]|)
  {
    hide Read, Find, Decide, EncodeAll, Intact, ReadsFit, FitsFromStart;
    var s, next, d := EncodeAll(ps), received + |chunks[0]|, Receive(c, chunks[0]);
    HoldMore(c, u, ps, received, chunks);
    OverflowRead(u, ps, next);
    assert Lengths(chunks)[1..] == Lengths(chunks[1..]);
    if 4 <= next {
      AfterOverflow(c, d, u, ps, next, chunks[1..]);
    } else if next == 0 {
      assert u + s[..0] == u;
      ClearedLeftover(c, d, u, ps, chunks[1..]);
    } else {
      OneMoreSkipped(c.history, u + s[..next]);
      LostOnlyGrows(d, chunks[1..]);
    }
    if Lost(ReceiveAll(c, chunks).history) > Lost(c.history) + |u| {
      TooMuchLost(c, chunks, ps, |u|);
    } else if ReceiveAll(c, chunks).buffer != [] {
      BufferedIsNotIntact(c, ReceiveAll(c, chunks), ps);
    }
  }

  lemma OverflowRead(u: seq<byte>, ps: seq<Packet>, next: nat)
    requires LeftoverThenStream(u, ps) && NoOtherCookie(u, ps) && next <= |EncodeAll(ps)|
    requires Decide(u + EncodeAll(ps)[..next]) == Stop && |u| + next > BUFFER_LIMIT
    ensures var piece := EncodeAll(ps)[..next];
      Read(u + piece) == if 4 <= next then Outcome([Skipped(u)], piece) else Outcome([Skipped(u + piece)], [])
  {
    hide Find, Decide, EncodeAll;
    SecondCookie(u, ps, next);
    var piece := EncodeAll(ps)[..next];
    assert Read(u + piece) == Guard(Outcome([], u + piece));
    assert (u + piece)[..|u|] == u && (u + piece)[|u|..] == piece;
  }

  lemma BufferedIsNotIntact(c: Client, d: Client, ps: seq<Packet>)
    requires d.buffer != []
    ensures !Intact(c, d, ps)
  {
  }

  /** The guard has dropped the leftover and kept what the new stream has brought so far. */
  lemma AfterOverflow(c: Client, d: Client, u: seq<byte>, ps: seq<Packet>, next: nat, chunks: seq<seq<byte>>)
    requires LeftoverThenStream(u, ps) && 4 <= next <= |EncodeAll(ps)| && EncodeAll(ps)[next..] == Framing.Flatten(chunks)
    requires d == Client(c.history + [Skipped(u)], EncodeAll(ps)[..next])
    ensures var e := ReceiveAll(d, chunks);
      if chunks != [] && FitsFromStart(ps, Lengths(chunks), next) then Intact(c, e, ps)
      else e.buffer != [] || Lost(e.history) > Lost(c.history) + |u|
  {
    hide Find, EncodeAll, FitsFromStart, Intact, ReceiveAll, Lengths;
    if chunks == [] {
      EmptyRun(d);
    } else {
      FoundAtFront(d, ps, next, chunks);
      OneMoreSkipped(c.history, u);
      SkippedIsIntact(c, [Skipped(u)], ps);
    }
  }

  lemma EmptyRun(c: Client)
    ensures ReceiveAll(c, []) == c
  {
  }

  lemma OneMoreSkipped(gs: seq<Segment>, bytes: seq<byte>)
    ensures Lost(gs + [Skipped(bytes)]) == Lost(gs) + |bytes|
  {
    LogAppend(gs, [Skipped(bytes)]);
    assert Lost([Skipped(bytes)]) == |bytes|;
  }

  /** A client that holds the first bytes of a stream, unread so far. */
  lemma FoundAtFront(c: Client, ps: seq<Packet>, next: nat, chunks: seq<seq<byte>>)
    requires AllWithinLimits(ps) && ps != [] && 4 <= next <= |EncodeAll(ps)| && chunks != []
    requires EncodeAll(ps)[next..] == Framing.Flatten(chunks) && c.buffer == EncodeAll(ps)[..next]
    ensures Lengths(chunks) != []
    ensures var d := ReceiveAll(c, chunks);
      if FitsFromStart(ps, Lengths(chunks), next) then d == Client(c.history + DispatchAll(ps), [])
      else Lost(d.history) > Lost(c.history)
  {
    hide Find, EncodeAll, Behind, ReadsFit, Receive;
    var s, to := EncodeAll(ps), next + |chunks[0]|;
    ReadOn(s, next, chunks);
    assert [] + s[..to] == s[..to] && c.history + Skip([]) == c.history;
    StreamStartsAtCookie(ps, to);
    FoundRun(c, [], ps, to, chunks);
    assert Lengths(chunks)[1..] == Lengths(chunks[1..]);
  }

  lemma StreamStartsAtCookie(ps: seq<Packet>, to: nat)
    requires ps != [] && 4 <= to <= |EncodeAll(ps)|
    ensures Find(EncodeAll(ps)[..to], COOKIE, 0) == Some(0)
  {
    var piece := EncodeAll(ps)[..to];
    StartsLike(ps[0], EncodeAll(ps[1..]), piece);
    FindIs(piece, COOKIE, 0, 0);
  }

  /** The guard has dropped the leftover before anything of the new stream arrived. */
  lemma ClearedLeftover(c: Client, d: Client, u: seq<byte>, ps: seq<Packet>, chunks: seq<seq<byte>>)
    requires LeftoverThenStream(u, ps) && EncodeAll(ps)[0..] == Framing.Flatten(chunks)
    requires d == Client(c.history + [Skipped(u)], [])
    ensures var e := ReceiveAll(d, chunks);
      if ReadsFit(ps, Lengths(chunks), 0) then Intact(c, e, ps) else Lost(e.history) > Lost(c.history) + |u|
  {
    hide Find, Decide, EncodeAll, Behind, ReadsFit, Intact, Framed;
    var s := EncodeAll(ps);
    NothingYet(s);
    assert DispatchAll([]) == [] && d.history + [] == d.history;
    assert Framed(s[..0]).items == [];
    OneMoreSkipped(c.history, u);
    StreamRun(d, d.history, ps, s, 0, chunks);
    WholeStream(ps);
    if ReadsFit(ps, Lengths(chunks), 0) {
      SkippedIsIntact(c, [Skipped(u)], ps);
    }
  }

  lemma {:induction false} LeftoverRun(c: Client, u: seq<byte>, ps: seq<Packet>, received: nat, chunks: seq<seq<byte>>)
    requires Holding(c, u, ps, received, chunks) && HEADER_SIZE <= |EncodeAll(ps)|
    requires var header := MixedHeader(u, EncodeAll(ps)); if Abnormal(header) then |u| < HEADER_SIZE else |u| < TotalSize(header)
    requires Searched(MixedHeader(u, EncodeAll(ps))) ==> NoOtherCookie(u, ps)
    ensures Intact(c, ReceiveAll(c, chunks), ps) <==>
      LeftoverPasses(|u|, MixedHeader(u, EncodeAll(ps)), ps, Lengths(chunks), received)
    decreases |chunks|
  {
    hide Find, Decide, EncodeAll, Behind, ReadsFit, Intact, Framed, Read, Abnormal, TotalSize, MixedHeader;
    if chunks == [] {
      BufferedIsNotIntact(c, c, ps);
    } else {
      var s, next, header := EncodeAll(ps), received + |chunks[0]|, MixedHeader(u, EncodeAll(ps));
      HoldMore(c, u, ps, received, chunks);
      DecideOnLeftover(u, s, next);
      var buffer := u + s[..next];
      assert Lengths(chunks)[1..] == Lengths(chunks[1..]);
      if Decide(buffer).Drop? {
        AbnormalLeftover(c, u, ps, received, chunks);
      } else if Decide(buffer).Deliver? {
        SwallowingLeftover(c, u, ps, received, chunks);
      } else if |buffer| <= BUFFER_LIMIT {
        HeldRead(buffer);
        var d := Receive(c, chunks[0]);
        assert c.history + [] == c.history;
        assert d == Client(c.history, buffer);
        LeftoverRun(d, u, ps, next, chunks[1..]);
        IntactSame(c, d, ReceiveAll(c, chunks), ps);
      } else {
        OverflowingLeftover(c, u, ps, received, chunks);
      }
    }
  }

  /** What a connection that broke off within packet `p` has left behind, and the packets of the next one. */
  ghost predicate Reconnects(c: Client, p: Packet, held: nat, ps: seq<Packet>, chunks: seq<seq<byte>>) {
    && WithinLimits(p) && held < |Encode(p)| && c.buffer == Encode(p)[..held]
    && AllWithinLimits(ps) && ps != [] && Framing.Flatten(chunks) == EncodeAll(ps)
    && var u := Encode(p)[..held];
       held >= 4 && HEADER_SIZE <= |u + EncodeAll(ps)| && Searched(MixedHeader(u, EncodeAll(ps))) ==> NoOtherCookie(u, ps)
  }

  /**
   The buffer outlives the connection. When a new connection brings its packets behind `held` bytes
   of an unfinished packet, they all get through, behind nothing but skipped bytes, exactly under
   these conditions; up to three bytes of a cookie are like any garbage.
   */
  lemma ReconnectedIff(c: Client, p: Packet, held: nat, ps: seq<Packet>, chunks: seq<seq<byte>>)
    requires Reconnects(c, p, held, ps, chunks)
    ensures HEADER_SIZE <= |EncodeAll(ps)|
    ensures Intact(c, ReceiveAll(c, chunks), ps) <==>
      if held < 4 then GarbagePasses(held, ps, Lengths(chunks), 0, held)
      else LeftoverPasses(held, MixedHeader(Encode(p)[..held], EncodeAll(ps)), ps, Lengths(chunks), 0)
  {
    hide Find, EncodeAll, GarbagePasses, LeftoverPasses, Intact, MixedHeader, Encode;
    var u, s := Encode(p)[..held], EncodeAll(ps);
    StreamIsLong(ps);
    assert (u + s)[held..] == s && (u + s)[0..held] == u;
    if held < 4 {
      ShortLeftover(p, held, ps);
      GarbageRun(c, u, ps, 0, held, chunks);
      if !GarbagePasses(held, ps, Lengths(chunks), 0, held) {
        TooMuchLost(c, chunks, ps, held);
      }
    } else {
      LongLeftover(p, held, s);
      assert s[0..] == s && u + s[..0] == u;
      LeftoverRun(c, u, ps, 0, chunks);
    }
  }

  lemma ShortLeftover(p: Packet, held: nat, ps: seq<Packet>)
    requires held < 4 && held <= |Encode(p)| && AllWithinLimits(ps) && ps != []
    ensures GarbageThenStream(Encode(p)[..held], ps)
  {
    hide Find, Encode;
    var u, s := Encode(p)[..held], EncodeAll(ps);
    StartsLike(p, [], Encode(p)) by { assert Encode(p) + [] == Encode(p); }
    StartsLike(ps[0], EncodeAll(ps[1..]), s);
    assert Encode(p)[0..4] == COOKIE && u == COOKIE[..held];
    CookieBehind(u, s);
    forall j: nat | j < held
      ensures !MatchAt(u + s, COOKIE, j)
    {
      MatchedByte(s, 0, 0);
      MatchedByte(u + s, j, held - j);
      assert (u + s)[held] == s[0];
    }
    FindIs(u + s, COOKIE, 0, held);
  }

  lemma MatchedByte(s: seq<byte>, j: nat, k: nat)
    requires k < 4 && j + k < |s|
    ensures MatchAt(s, COOKIE, j) ==> s[j + k] == COOKIE[k]
  {
    if MatchAt(s, COOKIE, j) {
      assert s[j..j + 4][k] == s[j + k];
    }
  }

  lemma LongLeftover(p: Packet, held: nat, s: seq<byte>)
    requires WithinLimits(p) && 4 <= held < |Encode(p)| && HEADER_SIZE <= |s|
    ensures COOKIE <= Encode(p)[..held]
    ensures var u := Encode(p)[..held]; var header := MixedHeader(u, s);
      if Abnormal(header) then held < HEADER_SIZE else held < TotalSize(header)
  {
    var u := Encode(p)[..held];
    assert Encode(p) + [] == Encode(p);
    StartsLike(p, [], u);
    assert u[0..4] == u[..4];
    if HEADER_SIZE <= held {
      assert (u + s)[..HEADER_SIZE] == u[..HEADER_SIZE];
      HeaderOfPrefix(p, u + s);
      SmallUint32(|p.json|);
      SmallUint32(|p.image|);
    }
  }

  /** A leftover with a whole header of a packet of up to 10 MiB always costs the new connection a packet. */
  lemma {:induction false} WholeHeaderNeverPasses(held: nat, header: Header, ps: seq<Packet>, lengths: seq<nat>, received: nat)
    requires HEADER_SIZE <= held && !Abnormal(header) && TotalSize(header) <= BUFFER_LIMIT
    ensures !LeftoverPasses(held, header, ps, lengths, received)
    decreases |lengths|
  {
    if lengths != [] {
      WholeHeaderNeverPasses(held, header, ps, lengths[1..], received + lengths[0]);
    }
  }
}
