/**
 Broadcast audio: the client cuts captured samples into numbered 1920-byte frames, the Pi
 receives them over TCP and forwards the payloads to the STM32.
 */
module AudioStream {
  import opened Bytes
  import opened Sequences
  import opened Wrappers

  const FRAME_BYTES := 1920
  const HEADER_BYTES := 8
  const SYNC := 0xAA55

  datatype Frame = Frame(number: uint32, payload: seq<byte>)

  function Little16(n: int): (bytes: seq<byte>)
    requires 0 <= n < 0x1_0000
    ensures |bytes| == 2
  {
    [n % 256, n / 256]
  }

  function Little32(n: uint32): (bytes: seq<byte>)
    ensures |bytes| == 4
  {
    [n % 256, n / 256 % 256, n / 0x1_0000 % 256, n / 0x100_0000]
  }

  function From16(s: seq<byte>, at: nat): int
    requires at + 2 <= |s|
  {
    var lo: int, hi: int := s[at], s[at + 1];
    lo + hi * 256
  }

  function From32(s: seq<byte>, at: nat): uint32
    requires at + 4 <= |s|
  {
    var b0: int, b1: int, b2: int, b3: int := s[at], s[at + 1], s[at + 2], s[at + 3];
    b0 + b1 * 256 + b2 * 0x1_0000 + b3 * 0x100_0000
  }

  lemma From32Inverts(n: uint32)
    ensures From32(Little32(n), 0) == n
  {
    assert n / 0x1_0000 == n / 256 / 256 && n / 0x100_0000 == n / 0x1_0000 / 256;
  }

  function Header(number: uint32): (bytes: seq<byte>)
    ensures |bytes| == HEADER_BYTES
  {
    Little16(SYNC) + Little16(FRAME_BYTES) + Little32(number)
  }

  function Encode(f: Frame): (bytes: seq<byte>)
    ensures |bytes| == HEADER_BYTES + |f.payload|
  {
    Header(f.number) + f.payload
  }

  function EncodeAll(fs: seq<Frame>): seq<byte> {
    if fs == [] then [] else EncodeAll(fs[..|fs| - 1]) + Encode(fs[|fs| - 1])
  }

  /** The header of a frame byte by byte, as it goes over the wire. */
  lemma WireExample(payload: seq<byte>)
    ensures Encode(Frame(0x01020304, payload)) == [0x55, 0xAA, 0x80, 0x07, 4, 3, 2, 1] + payload
  {
    assert Header(0x01020304) == [0x55, 0xAA, 0x80, 0x07, 4, 3, 2, 1];
  }

  // ---- The sender ----

  /** Frame number `i` of a capture, numbered modulo 2^32. */
  function CapturedFrame(captured: seq<byte>, i: nat): Frame
    requires (i + 1) * FRAME_BYTES <= |captured|
  {
    Frame(i % 0x1_0000_0000, captured[i * FRAME_BYTES..(i + 1) * FRAME_BYTES])
  }

  /** The frames that reached the socket; `writes[i]` says whether the write of frame i succeeded. */
  function Sent(captured: seq<byte>, writes: seq<bool>): seq<Frame>
    requires |writes| * FRAME_BYTES <= |captured|
    decreases |writes|
  {
    if writes == [] then []
    else
      var n := |writes| - 1;
      Sent(captured, writes[..n]) + (if writes[n] then [CapturedFrame(captured, n)] else [])
  }

  lemma {:induction false} SentIgnoresLaterCapture(captured: seq<byte>, more: seq<byte>, writes: seq<bool>)
    requires |writes| * FRAME_BYTES <= |captured|
    ensures Sent(captured + more, writes) == Sent(captured, writes)
    decreases |writes|
  {
    if writes != [] {
      var n := |writes| - 1;
      SentIgnoresLaterCapture(captured, more, writes[..n]);
      assert (captured + more)[n * FRAME_BYTES..(n + 1) * FRAME_BYTES] == captured[n * FRAME_BYTES..(n + 1) * FRAME_BYTES];
    }
  }

  /** One more write attempt adds its frame to the stream, or nothing. */
  lemma SentOneMore(captured: seq<byte>, writes: seq<bool>, ok: bool)
    requires (|writes| + 1) * FRAME_BYTES <= |captured|
    ensures EncodeAll(Sent(captured, writes + [ok])) ==
      EncodeAll(Sent(captured, writes)) + (if ok then Encode(CapturedFrame(captured, |writes|)) else [])
  {
    hide Encode, CapturedFrame;
    assert (writes + [ok])[..|writes|] == writes;
    var before, f := Sent(captured, writes), CapturedFrame(captured, |writes|);
    assert (before + [f])[..|before|] == before;
    assert before + [] == before;
  }

  class Socket {
    var bytes: seq<byte>           // written so far
    ghost var writes: seq<bool>    // which writes succeeded

    constructor ()
      ensures bytes == [] && writes == []
    {
      bytes, writes := [], [];
    }

    method Write(packet: seq<byte>) returns (written: int)
      modifies this
      ensures bytes == old(bytes) + (if written >= 0 then packet else [])
      ensures writes == old(writes) + [written >= 0]
    {
      written := *;
      if written >= 0 {
        bytes := bytes + packet;
      }
      writes := writes + [written >= 0];
    }
  }

  class MicStreamer {
    const socket: Socket
    var captureBuffer: seq<byte>
    var nextNumber: uint32
    ghost var captured: seq<byte>

    /** Each write to the socket has taken one frame off the capture; those that succeeded are on the wire. */
    ghost predicate Valid()
      reads this, socket
    {
      && |socket.writes| * FRAME_BYTES <= |captured|
      && captureBuffer == captured[|socket.writes| * FRAME_BYTES..]
      && nextNumber == |socket.writes| % 0x1_0000_0000
      && socket.bytes == EncodeAll(Sent(captured, socket.writes))
    }

    constructor (socket: Socket)
      requires socket.bytes == [] && socket.writes == []
      ensures Valid() && this.socket == socket && captured == []
    {
      this.socket := socket;
      captureBuffer, nextNumber, captured := [], 0, [];
    }

    /** Called when the device has `data`; an unconnected socket leaves the data in the device. */
    method OnAudioReadyRead(connected: bool, data: seq<byte>)
      requires Valid()
      modifies this, socket
      ensures Valid()
      ensures captured == old(captured) + (if connected then data else [])
      ensures old(socket.writes) <= socket.writes
      ensures !connected || data == [] ==> socket.writes == old(socket.writes)
      ensures connected && data != [] && (forall i :: |old(socket.writes)| <= i < |socket.writes| ==> socket.writes[i]) ==>
        |captureBuffer| < FRAME_BYTES
      ensures forall i :: |old(socket.writes)| <= i < |socket.writes| - 1 ==> socket.writes[i]
    {
      hide EncodeAll;
      if !connected || data == [] { return; }
      SentIgnoresLaterCapture(captured, data, socket.writes);
      captureBuffer := captureBuffer + data;
      captured := captured + data;
      var written := 0;
      while |captureBuffer| >= FRAME_BYTES && written >= 0
        invariant Valid() && captured == old(captured) + data && old(socket.writes) <= socket.writes
        invariant written >= 0 ==> forall i :: |old(socket.writes)| <= i < |socket.writes| ==> socket.writes[i]
        invariant written < 0 ==> |socket.writes| > |old(socket.writes)| && !socket.writes[|socket.writes| - 1]
        invariant forall i :: |old(socket.writes)| <= i < |socket.writes| - 1 ==> socket.writes[i]
        decreases |captureBuffer|
      {
        written := SendFrame();
      }
    }

    /** Takes one frame off the buffer and writes it; the frame is gone even if the write fails. */
    method SendFrame() returns (written: int)
      requires Valid() && |captureBuffer| >= FRAME_BYTES
      modifies this, socket
      ensures Valid() && captured == old(captured)
      ensures socket.writes == old(socket.writes) + [written >= 0]
      ensures |captureBuffer| == |old(captureBuffer)| - FRAME_BYTES
    {
      hide EncodeAll, Sent, Little32;
      var frame := captureBuffer[..FRAME_BYTES];
      captureBuffer := captureBuffer[FRAME_BYTES..];
      var number := nextNumber;
      nextNumber := (nextNumber + 1) % 0x1_0000_0000;
      var packet := Little16(SYNC) + Little16(|frame|) + Little32(number);
      packet := packet + frame;
      ghost var writes := socket.writes;
      written := socket.Write(packet);
      ghost var n := |writes|;
      assert frame == captured[n * FRAME_BYTES..(n + 1) * FRAME_BYTES];
      SentOneMore(captured, writes, written >= 0);
    }
  }

  // ---- The receiver ----

  class Connection {
    var incoming: seq<byte>    // what the peer sends before closing
    ghost var failed: bool     // a receive has reported an error

    constructor (incoming: seq<byte>)
      ensures this.incoming == incoming && !failed
    {
      this.incoming, failed := incoming, false;
    }

    /** recv: any positive number of waiting bytes up to `want`, 0 at the end, negative on error. */
    method Recv(want: nat) returns (n: int, bytes: seq<byte>)
      requires want > 0
      modifies this
      ensures n == |bytes| || (n < 0 && bytes == [])
      ensures |bytes| <= want && bytes + incoming == old(incoming)
      ensures n == 0 ==> incoming == []
      ensures failed <==> old(failed) || n < 0
    {
      var broken: bool := *;
      if broken {
        failed := true;
        return -1, [];
      }
      if incoming == [] { return 0, []; }
      n :| 0 < n <= want && n <= |incoming|;
      bytes := incoming[..n];
      incoming := incoming[n..];
    }

    /** Gives up only if a receive fails; otherwise only the end of the stream can cut the read short. */
    method RecvExact(size: nat) returns (result: int, buffer: seq<byte>)
      requires size > 0 && !failed
      modifies this
      ensures result == -1 <==> failed
      ensures !failed ==> result == if |old(incoming)| >= size then size else 0
      ensures result == size ==> |buffer| == size && buffer + incoming == old(incoming)
      ensures result == 0 ==> incoming == []
    {
      buffer := [];
      while |buffer| < size
        invariant |buffer| <= size && buffer + incoming == old(incoming) && !failed
        decreases size - |buffer|
      {
        var n, bytes := Recv(size - |buffer|);
        if n == 0 {
          assert |buffer| == |old(incoming)|;
          return 0, buffer;
        }
        if n < 0 { return -1, buffer; }
        buffer := buffer + bytes;
      }
      assert |buffer| <= |old(incoming)|;
      result := size;
    }
  }

  /** The SPI link to the STM32. */
  class SpiLink {
    var sent: seq<Frame>
    ghost var failed: bool

    constructor ()
      ensures sent == [] && !failed
    {
      sent, failed := [], false;
    }

    method Send(frame: Frame) returns (ok: bool)
      modifies this
      ensures sent == old(sent) + (if ok then [frame] else [])
      ensures failed <==> old(failed) || !ok
    {
      ok := *;
      if ok {
        sent := sent + [frame];
      } else {
        failed := true;
      }
    }
  }

  /** The file that captures the stream, if there is one. */
  class PcmFile {
    var contents: seq<byte>
    ghost var failed: bool

    constructor ()
      ensures contents == [] && !failed
    {
      contents, failed := [], false;
    }

    method Write(bytes: seq<byte>) returns (good: bool)
      modifies this
      ensures good ==> contents == old(contents) + bytes
      ensures old(contents) <= contents
      ensures failed <==> old(failed) || !good
    {
      good := *;
      if good {
        contents := contents + bytes;
      } else {
        failed := true;
      }
    }
  }

  predicate GoodHeader(s: seq<byte>)
    requires HEADER_BYTES <= |s|
  {
    From16(s, 0) == SYNC && From16(s, 2) == FRAME_BYTES
  }

  /** The frames a receiver finds at the front of a stream before it must give up. */
  function Frames(s: seq<byte>): seq<Frame> {
    if |s| < HEADER_BYTES + FRAME_BYTES || !GoodHeader(s) then []
    else [Frame(From32(s, 4), s[HEADER_BYTES..HEADER_BYTES + FRAME_BYTES])] + Frames(s[HEADER_BYTES + FRAME_BYTES..])
  }

  /** In bytes: a frame is found exactly if it is complete and its header shows sync word and size; then it is read off them. */
  lemma FirstFrameIff(s: seq<byte>)
    ensures Frames(s) != [] <==> |s| >= 1928 && s[0] == 0x55 && s[1] == 0xAA && s[2] == 0x80 && s[3] == 0x07
    ensures Frames(s) != [] ==>
      && Frames(s)[0].number as int == s[4] as int + s[5] as int * 0x100 + s[6] as int * 0x1_0000 + s[7] as int * 0x100_0000
      && Frames(s)[0].payload == s[8..1928] && Frames(s)[1..] == Frames(s[1928..])
  {
    if |s| >= 1928 {
      TwoBytes(s[0], s[1], 0x55, 0xAA);
      TwoBytes(s[2], s[3], 0x80, 0x07);
    }
  }

  lemma TwoBytes(lo: int, hi: int, a: int, b: int)
    requires 0 <= lo < 256 && 0 <= a < 256
    ensures lo + hi * 256 == a + b * 256 <==> lo == a && hi == b
  {
  }

  function Payloads(fs: seq<Frame>): seq<byte> {
    if fs == [] then [] else Payloads(fs[..|fs| - 1]) + fs[|fs| - 1].payload
  }

  /**
   Serves one client. However the receives are split, unless a receive, the file or the SPI transfer
   fails, all frames at the front of the stream are forwarded, and the file holds their payloads.
   */
  method HandleAudioStreamClient(conn: Connection, spi: SpiLink, pcm: PcmFile?)
    requires !conn.failed && !spi.failed && (pcm != null ==> !pcm.failed)
    modifies conn, spi, if pcm != null then {pcm} else {}
    ensures old(spi.sent) <= spi.sent && spi.sent[|old(spi.sent)|..] <= Frames(old(conn.incoming))
    ensures !conn.failed && !spi.failed && (pcm != null ==> !pcm.failed) ==>
      spi.sent == old(spi.sent) + Frames(old(conn.incoming))
    ensures pcm != null ==> old(pcm.contents) + Payloads(spi.sent[|old(spi.sent)|..]) <= pcm.contents
    ensures pcm != null && !conn.failed && !spi.failed && !pcm.failed ==>
      pcm.contents == old(pcm.contents) + Payloads(Frames(old(conn.incoming)))
  {
    hide Frames, Payloads;
    ghost var forwarded: seq<Frame> := [];
    PayloadsMore(forwarded);
    assert forwarded + Frames(conn.incoming) == Frames(conn.incoming);
    while true
      invariant Frames(old(conn.incoming)) == forwarded + Frames(conn.incoming)
      invariant spi.sent == old(spi.sent) + forwarded
      invariant pcm != null ==> pcm.contents == old(pcm.contents) + Payloads(forwarded)
      invariant !conn.failed && !spi.failed && (pcm != null ==> !pcm.failed)
      decreases |conn.incoming|
    {
      DropFront(old(spi.sent), forwarded);
      var frame := ReceiveFrame(conn);
      if frame.None? {
        assert !conn.failed ==> forwarded + [] == forwarded;
        return;
      }
      Reassociate(forwarded, [frame.value], Frames(conn.incoming));
      PayloadsMore(forwarded + [frame.value]);
      assert (forwarded + [frame.value])[..|forwarded|] == forwarded;
      if pcm != null {
        var good := pcm.Write(frame.value.payload);
        if !good { return; }
      }
      var ok := spi.Send(frame.value);
      if !ok {
        assert spi.sent == old(spi.sent) + forwarded;
        assert pcm != null ==> old(pcm.contents) + Payloads(forwarded) <= pcm.contents;
        return;
      }
      forwarded := forwarded + [frame.value];
    }
  }

  lemma DropFront<T>(a: seq<T>, b: seq<T>)
    ensures a <= a + b && (a + b)[|a|..] == b
  {
  }

  lemma PayloadsMore(fs: seq<Frame>)
    ensures Payloads(fs) == if fs == [] then [] else Payloads(fs[..|fs| - 1]) + fs[|fs| - 1].payload
  {
  }

  /** Header and payload of one packet, or the reasons to stop: end, error, wrong sync or size. */
  method ReceiveFrame(conn: Connection) returns (frame: Option<Frame>)
    requires !conn.failed
    modifies conn
    ensures frame.Some? ==> !conn.failed && |conn.incoming| < |old(conn.incoming)|
    ensures frame.Some? ==> Frames(old(conn.incoming)) == [frame.value] + Frames(conn.incoming)
    ensures frame.None? && !conn.failed ==> Frames(old(conn.incoming)) == []
  {
    frame := None;
    ghost var s := conn.incoming;
    var got, header := conn.RecvExact(HEADER_BYTES);
    if got <= 0 { return; }
    assert header == s[..HEADER_BYTES];
    HeaderInside(s);
    if From16(header, 0) != SYNC { return; }
    var payloadSize := From16(header, 2);
    if payloadSize != FRAME_BYTES { return; }
    var got', payload := conn.RecvExact(payloadSize);
    if got' <= 0 { return; }
    assert header + (payload + conn.incoming) == s;
    FrameInside(s, header, payload, conn.incoming);
    frame := Some(Frame(From32(header, 4), payload));
  }

  lemma HeaderInside(s: seq<byte>)
    requires HEADER_BYTES <= |s|
    ensures var h := s[..HEADER_BYTES];
      From16(h, 0) == From16(s, 0) && From16(h, 2) == From16(s, 2) && From32(h, 4) == From32(s, 4)
  {
  }

  lemma FrameInside(s: seq<byte>, header: seq<byte>, payload: seq<byte>, rest: seq<byte>)
    requires |header| == HEADER_BYTES && |payload| == FRAME_BYTES && s == header + (payload + rest)
    ensures s[HEADER_BYTES..HEADER_BYTES + FRAME_BYTES] == payload && s[HEADER_BYTES + FRAME_BYTES..] == rest
  {
  }

  // ---- Sender and receiver together ----

  predicate FullFrames(fs: seq<Frame>) {
    forall f :: f in fs ==> |f.payload| == FRAME_BYTES
  }

  /** An encoded frame in front of a stream is the first frame the receiver finds. */
  lemma FirstFrame(f: Frame, rest: seq<byte>)
    requires |f.payload| == FRAME_BYTES
    ensures Frames(Encode(f) + rest) == [f] + Frames(rest)
  {
    var s := Encode(f) + rest;
    HeaderWords(f, rest);
    assert s[HEADER_BYTES..HEADER_BYTES + FRAME_BYTES] == f.payload;
    assert s[HEADER_BYTES + FRAME_BYTES..] == rest;
  }

  lemma HeaderWords(f: Frame, rest: seq<byte>)
    ensures var s := Encode(f) + rest; From16(s, 0) == SYNC && From16(s, 2) == FRAME_BYTES && From32(s, 4) == f.number
  {
    From32Inverts(f.number);
    var s, h := Encode(f) + rest, Header(f.number);
    assert forall i :: 0 <= i < HEADER_BYTES ==> s[i] == h[i];
    assert h[4] == Little32(f.number)[0] && h[5] == Little32(f.number)[1]
      && h[6] == Little32(f.number)[2] && h[7] == Little32(f.number)[3];
  }

  lemma {:induction false} FramesAppend(fs: seq<Frame>, rest: seq<byte>)
    requires FullFrames(fs)
    ensures Frames(EncodeAll(fs) + rest) == fs + Frames(rest)
    decreases |fs|
  {
    hide Encode, Frames;
    if fs == [] {
      assert EncodeAll(fs) + rest == rest && fs + Frames(rest) == Frames(rest);
    } else {
      var before, last := fs[..|fs| - 1], fs[|fs| - 1];
      Reassociate(EncodeAll(before), Encode(last), rest);
      FramesAppend(before, Encode(last) + rest);
      FirstFrame(last, rest);
      Reassociate(before, [last], Frames(rest));
      assert before + [last] == fs;
    }
  }

  lemma {:induction false} EncodedLength(fs: seq<Frame>)
    requires FullFrames(fs)
    ensures |EncodeAll(fs)| == |fs| * (HEADER_BYTES + FRAME_BYTES)
  {
    if fs != [] {
      EncodedLength(fs[..|fs| - 1]);
    }
  }

  lemma {:induction false} EncodeAllSplit(fs: seq<Frame>, k: nat)
    requires k <= |fs|
    ensures EncodeAll(fs[..k]) <= EncodeAll(fs)
    decreases |fs|
  {
    if k < |fs| {
      EncodeAllSplit(fs[..|fs| - 1], k);
      assert fs[..|fs| - 1][..k] == fs[..k];
    } else {
      assert fs[..k] == fs;
    }
  }

  /** A connection that ends after any number of bytes delivers exactly the frames that arrived whole. */
  lemma CutConnection(fs: seq<Frame>, m: nat)
    requires FullFrames(fs) && m <= |EncodeAll(fs)|
    ensures m / (HEADER_BYTES + FRAME_BYTES) <= |fs|
    ensures Frames(EncodeAll(fs)[..m]) == fs[..m / (HEADER_BYTES + FRAME_BYTES)]
  {
    hide EncodeAll;
    EncodedLength(fs);
    var k := m / (HEADER_BYTES + FRAME_BYTES);
    EncodedLength(fs[..k]);
    EncodeAllSplit(fs, k);
    FramesOfCut(fs[..k], EncodeAll(fs), m);
  }

  lemma FramesOfCut(fs: seq<Frame>, wire: seq<byte>, m: nat)
    requires FullFrames(fs) && EncodeAll(fs) <= wire
    requires |EncodeAll(fs)| <= m <= |wire| && m < |EncodeAll(fs)| + HEADER_BYTES + FRAME_BYTES
    ensures Frames(wire[..m]) == fs
  {
    hide EncodeAll;
    var tail := wire[|EncodeAll(fs)|..m];
    assert wire[..m] == EncodeAll(fs) + tail;
    FramesAppend(fs, tail);
    assert fs + [] == fs;
  }

  lemma {:induction false} SentAreFull(captured: seq<byte>, writes: seq<bool>)
    requires |writes| * FRAME_BYTES <= |captured|
    ensures FullFrames(Sent(captured, writes))
    ensures forall f :: f in Sent(captured, writes) ==>
      exists i :: 0 <= i < |writes| && writes[i] && f == CapturedFrame(captured, i)
    decreases |writes|
  {
    if writes != [] {
      var n := |writes| - 1;
      SentAreFull(captured, writes[..n]);
      forall f | f in Sent(captured, writes[..n])
        ensures exists i :: 0 <= i < |writes| && writes[i] && f == CapturedFrame(captured, i)
      {
        var i :| 0 <= i < n && writes[..n][i] && f == CapturedFrame(captured, i);
        assert writes[i];
      }
    }
  }

  lemma {:induction false} AllSent(captured: seq<byte>, writes: seq<bool>)
    requires |writes| * FRAME_BYTES <= |captured| && forall i :: 0 <= i < |writes| ==> writes[i]
    ensures |Sent(captured, writes)| == |writes|
    ensures forall i :: 0 <= i < |writes| ==> Sent(captured, writes)[i] == CapturedFrame(captured, i)
    ensures Payloads(Sent(captured, writes)) == captured[..|writes| * FRAME_BYTES]
    decreases |writes|
  {
    if writes != [] {
      var n := |writes| - 1;
      AllSent(captured, writes[..n]);
      var before := Sent(captured, writes[..n]);
      var f := CapturedFrame(captured, n);
      assert (before + [f])[..n] == before;
      NextSlice(captured, n * FRAME_BYTES, (n + 1) * FRAME_BYTES);
    }
  }

  lemma NextSlice<T>(s: seq<T>, i: nat, j: nat)
    requires i <= j <= |s|
    ensures s[..i] + s[i..j] == s[..j]
  {
  }

  /**
   End to end, for any device reads, any write failures, and a connection cut anywhere: the
   receiver finds exactly the successfully written frames that arrived whole, in order, each
   the captured frame its number names.
   */
  lemma AudioEndToEnd(captured: seq<byte>, writes: seq<bool>, m: nat)
    requires |writes| * FRAME_BYTES <= |captured| && m <= |EncodeAll(Sent(captured, writes))|
    ensures var k := m / (HEADER_BYTES + FRAME_BYTES);
      && k <= |Sent(captured, writes)|
      && Frames(EncodeAll(Sent(captured, writes))[..m]) == Sent(captured, writes)[..k]
      && forall f :: f in Sent(captured, writes)[..k] ==>
        exists i :: 0 <= i < |writes| && writes[i] && f == CapturedFrame(captured, i)
  {
    hide Sent, EncodeAll, Frames;
    var fs, k := Sent(captured, writes), m / (HEADER_BYTES + FRAME_BYTES);
    SentAreFull(captured, writes);
    CutConnection(fs, m);
    forall f | f in fs[..k]
      ensures f in fs
    {
      var j :| 0 <= j < k && fs[..k][j] == f;
      assert fs[j] == f;
    }
  }

  /**
   Without write failures and with everything received, the forwarded payloads are the longest
   multiple-of-1920 prefix of the captured bytes, and frame i carries number i modulo 2^32.
   */
  lemma CleanAudioEndToEnd(captured: seq<byte>, writes: seq<bool>)
    requires |writes| * FRAME_BYTES <= |captured| < (|writes| + 1) * FRAME_BYTES
    requires forall i :: 0 <= i < |writes| ==> writes[i]
    ensures var fs := Frames(EncodeAll(Sent(captured, writes)));
      && |fs| == |captured| / FRAME_BYTES
      && Payloads(fs) == captured[..|captured| / FRAME_BYTES * FRAME_BYTES]
      && forall i :: 0 <= i < |fs| ==> fs[i].number == i % 0x1_0000_0000
  {
    var fs := Sent(captured, writes);
    SentAreFull(captured, writes);
    AllSent(captured, writes);
    FramesAppend(fs, []);
    assert EncodeAll(fs) + [] == EncodeAll(fs) && fs + Frames([]) == fs;
    assert |captured| / FRAME_BYTES == |writes|;
    var found := Frames(EncodeAll(fs));
    assert found == fs;
    forall i | 0 <= i < |found|
      ensures found[i].number == i % 0x1_0000_0000
    {
      assert fs[i] == CapturedFrame(captured, i);
    }
  }
}
