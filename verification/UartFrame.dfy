/** The UART link to the STM32: [STX][CMD][LEN][DATA...][CRC][ETX]. */
module UartFrame {
  import opened Bytes
  import opened Wrappers

  const STX: octet := 0xAA
  const ETX: octet := 0x55
  const CMD_SET_LED: octet := 0x10
  const CMD_DISPLAY_CTRL: octet := 0x11
  const CMD_PLAY_WAV: octet := 0x20

  function XorOf(data: seq<octet>): octet {
    if data == [] then 0 else Xor(XorOf(data[..|data| - 1]), data[|data| - 1])
  }

  /** Checksum of command, length byte and data. */
  function Crc(cmd: octet, len: octet, data: seq<octet>): octet {
    cmd ^ len ^ XorOf(data) ^ ETX
  }

  function Assemble(cmd: octet, len: octet, data: seq<octet>, crc: octet): (frame: seq<octet>)
    ensures |frame| == |data| + 5
  {
    [STX, cmd, len] + data + [crc, ETX]
  }

  function Encode(cmd: octet, data: seq<octet>): (frame: seq<octet>)
    requires |data| < 256
    ensures |frame| == |data| + 5
  {
    Assemble(cmd, |data| as octet, data, Crc(cmd, |data| as octet, data))
  }

  method CalcCrc(cmd: octet, len: octet, data: seq<octet>) returns (crc: octet)
    ensures crc == Crc(cmd, len, data)
  {
    crc := XorAll(cmd ^ len, data);
    XorOntoIsXor(cmd ^ len, data);
    crc := crc ^ ETX;
  }

  /** The loop of `calc_crc`. */
  method XorAll(start: octet, data: seq<octet>) returns (crc: octet)
    ensures crc == XorOnto(start, data)
  {
    crc := start;
    for i := 0 to |data|
      invariant crc == XorOnto(start, data[..i])
    {
      assert data[..i + 1][..i] == data[..i];
      crc := crc ^ data[i];
    }
    assert data[..|data|] == data;
  }

  function XorOnto(start: octet, data: seq<octet>): octet {
    if data == [] then start else XorOnto(start, data[..|data| - 1]) ^ data[|data| - 1]
  }

  lemma {:induction false} XorOntoIsXor(start: octet, data: seq<octet>)
    ensures XorOnto(start, data) == start ^ XorOf(data)
  {
    if data == [] {
      assert start ^ 0 == start;
    } else {
      XorOntoIsXor(start, data[..|data| - 1]);
      XorAssociates(start, XorOf(data[..|data| - 1]), data[|data| - 1]);
    }
  }

  lemma {:induction false} XorOfAppend(a: seq<octet>, b: seq<octet>)
    ensures XorOf(a + b) == Xor(XorOf(a), XorOf(b))
    decreases |b|
  {
    hide Xor;
    if b == [] {
      assert a + b == a;
      XorZero(XorOf(a));
    } else {
      var n := |b| - 1;
      XorOfAppend(a, b[..n]);
      assert (a + b)[..|a| + n] == a + b[..n];
      XorAssociates(XorOf(a), XorOf(b[..n]), b[n]);
    }
  }

  lemma XorZero(a: octet)
    ensures Xor(a, 0) == a
  {
  }

  lemma XorOfOne(b: octet)
    ensures XorOf([b]) == b
  {
    assert [b][..0] == [] && 0 ^ b == b;
  }

  lemma XorCancels(cmd: octet, len: octet, x: octet)
    ensures Xor(Xor(Xor(Xor(cmd, len), x), cmd ^ len ^ x ^ ETX), ETX) == 0
  {
  }

  /** Every frame in its fields; and the bytes behind the STX, ETX included, cancel each other out. */
  lemma FrameLayout(cmd: octet, data: seq<octet>)
    requires |data| < 256
    ensures var frame, n := Encode(cmd, data), |data|;
      && frame[0] == 0xAA && frame[1] == cmd && frame[2] as int == n && frame[3..3 + n] == data && frame[n + 4] == 0x55
      && XorOf(frame[1..]) == 0
  {
    hide XorOf, Crc;
    LengthByte(|data|);
    var len := |data| as octet;
    BehindStx(cmd, len, data, Crc(cmd, len, data));
    FrameCancels(cmd, len, data);
  }

  lemma BehindStx(cmd: octet, len: octet, data: seq<octet>, crc: octet)
    ensures Assemble(cmd, len, data, crc)[1..] == [cmd] + [len] + data + [crc] + [ETX]
  {
  }

  lemma FrameCancels(cmd: octet, len: octet, data: seq<octet>)
    ensures XorOf([cmd] + [len] + data + [Crc(cmd, len, data)] + [ETX]) == 0
  {
    hide XorOf;
    var crc := Crc(cmd, len, data);
    XorOfAppend([cmd], [len]);
    XorOfAppend([cmd] + [len], data);
    XorOfAppend([cmd] + [len] + data, [crc]);
    XorOfAppend([cmd] + [len] + data + [crc], [ETX]);
    XorOfOne(cmd);
    XorOfOne(len);
    XorOfOne(crc);
    XorOfOne(ETX);
    XorCancels(cmd, len, XorOf(data));
  }

  /** A frame byte by byte. */
  lemma FrameExample()
    ensures Encode(CMD_PLAY_WAV, [0x01, 0x02]) == [0xAA, 0x20, 0x02, 0x01, 0x02, 0x74, 0x55]
  {
    var data: seq<octet> := [0x01, 0x02];
    assert data[..1][..0] == [] && data[..1] == [0x01];
    XorOfOne(0x01);
    assert XorOf(data) == XorOf(data[..1]) ^ 0x02 == 0x03;
  }

  // ---- Reading ----

  /** A serial port; `incoming` is what arrives before the deadline of the current read. */
  class Port {
    var incoming: seq<octet>

    constructor (incoming: seq<octet>)
      ensures this.incoming == incoming
    {
      this.incoming := incoming;
    }

    method ReadByte() returns (b: Option<octet>)
      modifies this
      ensures old(incoming) == [] ==> b == None && incoming == []
      ensures old(incoming) != [] ==> b == Some(old(incoming)[0]) && incoming == old(incoming)[1..]
    {
      if incoming == [] {
        b := None;
      } else {
        b := Some(incoming[0]);
        incoming := incoming[1..];
      }
    }
  }

  datatype Received = Received(frame: Option<seq<octet>>, rest: seq<octet>)

  /** What one read makes of the incoming bytes. */
  function Parse(s: seq<octet>): Received {
    if s == [] then Received(None, [])
    else if s[0] != STX then Parse(s[1..])
    else ParseBody(s[1..])
  }

  /** After the STX: command, length, data, checksum and ETX, or everything is consumed. */
  function ParseBody(s: seq<octet>): Received {
    if |s| < 2 then Received(None, []) else ParseData(s[0], s[1], s[2..])
  }

  function ParseData(cmd: octet, len: octet, s: seq<octet>): Received {
    var n := len as int;
    if |s| < n + 2 then Received(None, []) else Received(Judge(cmd, len, s[..n], s[n], s[n + 1]), s[n + 2..])
  }

  /** A frame counts if its ETX is in place and its checksum is right. */
  function Judge(cmd: octet, len: octet, data: seq<octet>, crc: octet, etx: octet): Option<seq<octet>> {
    if etx == ETX && crc == Crc(cmd, len, data) then Some(Assemble(cmd, len, data, crc)) else None
  }

  method ReadPacket(port: Port) returns (out: Option<seq<octet>>)
    modifies port
    ensures Received(out, port.incoming) == Parse(old(port.incoming))
  {
    out := None;
    var b := port.ReadByte();
    while b.Some? && b.value != STX
      invariant b.None? ==> Parse(old(port.incoming)) == Received(None, port.incoming)
      invariant b.Some? ==> Parse(old(port.incoming)) == Parse([b.value] + port.incoming)
      decreases |port.incoming| + (if b.Some? then 1 else 0)
    {
      ghost var left := port.incoming;
      assert ([b.value] + left)[1..] == left;
      b := port.ReadByte();
      if b.Some? { assert [b.value] + port.incoming == left; }
    }
    if b.None? { return; }
    assert ([STX] + port.incoming)[1..] == port.incoming;
    out := ReadBody(port);
  }

  method ReadBody(port: Port) returns (out: Option<seq<octet>>)
    modifies port
    ensures Received(out, port.incoming) == ParseBody(old(port.incoming))
  {
    hide ParseData;
    out := None;
    var cmd := port.ReadByte();
    if cmd.None? { return; }
    var len := port.ReadByte();
    if len.None? { return; }
    assert old(port.incoming)[1..][1..] == old(port.incoming)[2..];
    out := ReadRest(port, cmd.value, len.value);
  }

  method ReadRest(port: Port, cmd: octet, len: octet) returns (out: Option<seq<octet>>)
    modifies port
    ensures Received(out, port.incoming) == ParseData(cmd, len, old(port.incoming))
  {
    hide Crc;
    out := None;
    var n := len as int;
    var data := ReadData(port, n);
    if data.None? { return; }
    var crc := port.ReadByte();
    if crc.None? { return; }
    var etx := port.ReadByte();
    if etx.None? { return; }
    DropTwice(old(port.incoming), n);
    if etx.value != ETX { return; }
    var expected := CalcCrc(cmd, len, data.value);
    if crc.value != expected { return; }
    out := Some([STX, cmd, len] + data.value + [crc.value, ETX]);
  }

  lemma DropTwice(s: seq<octet>, n: nat)
    requires n + 2 <= |s|
    ensures s[n..][1..][1..] == s[n + 2..] && s[n..][1..][0] == s[n + 1]
  {
  }

  /** The loop that reads the payload. */
  method ReadData(port: Port, n: nat) returns (data: Option<seq<octet>>)
    modifies port
    ensures n <= |old(port.incoming)| ==> data == Some(old(port.incoming)[..n]) && port.incoming == old(port.incoming)[n..]
    ensures n > |old(port.incoming)| ==> data == None && port.incoming == []
  {
    var read: seq<octet> := [];
    while |read| < n
      invariant |read| <= n && read + port.incoming == old(port.incoming)
    {
      var b := port.ReadByte();
      if b.None? { return None; }
      read := read + [b.value];
    }
    data := Some(read);
  }

  // ---- Writing ----

  /** The byte-by-byte frame builder shared by the send functions. */
  method PushFrame(cmd: octet, payload: seq<octet>) returns (pkt: seq<octet>)
    requires |payload| < 256
    ensures pkt == Encode(cmd, payload)
  {
    hide Crc, Encode;
    LengthByte(|payload|);
    EncodeIs(cmd, |payload| as octet, payload);
    var len := |payload| as octet;
    pkt := [STX, cmd, len];
    for i := 0 to |payload|
      invariant pkt == [STX, cmd, len] + payload[..i]
    {
      pkt := pkt + [payload[i]];
    }
    assert payload[..|payload|] == payload;
    var crc := CalcCrc(cmd, len, payload);
    pkt := pkt + [crc];
    pkt := pkt + [ETX];
  }

  /** send_to_stm32_play_wav: what is written to the port, if anything. */
  method PlayWav(filename: seq<octet>) returns (pkt: Option<seq<octet>>)
    ensures pkt == if |filename| > 255 then None else Some(Encode(CMD_PLAY_WAV, filename))
  {
    if |filename| > 255 { return None; }
    var frame := PushFrame(CMD_PLAY_WAV, filename);
    pkt := Some(frame);
  }

  /** send_to_stm32_display_control. */
  method DisplayControl(action: seq<octet>) returns (pkt: Option<seq<octet>>)
    ensures pkt == if action == [] || |action| > 255 then None else Some(Encode(CMD_DISPLAY_CTRL, action))
  {
    if action == [] || |action| > 255 { return None; }
    var frame := PushFrame(CMD_DISPLAY_CTRL, action);
    pkt := Some(frame);
  }

  function LowByte(n: int): octet {
    (n % 256) as octet
  }

  /** A level that fits a byte is sent as it is. */
  lemma LowByteKeeps(n: nat)
    requires n < 256
    ensures LowByte(n) as int == n
  {
    LengthByte(n);
  }

  /** send_to_stm32_bulk_congestion: each level truncated to a byte. */
  method BulkCongestion(levels: seq<int>) returns (pkt: Option<seq<octet>>)
    ensures levels == [] || |levels| > 8 ==> pkt == None
    ensures 1 <= |levels| <= 8 ==> pkt == Some(Encode(CMD_SET_LED, seq(|levels|, i requires 0 <= i < |levels| => LowByte(levels[i]))))
  {
    if levels == [] || |levels| > 8 { return None; }
    var payload: seq<octet> := [];
    for i := 0 to |levels|
      invariant |payload| == i && forall j :: 0 <= j < i ==> payload[j] == LowByte(levels[j])
    {
      payload := payload + [LowByte(levels[i])];
    }
    assert payload == seq(|levels|, i requires 0 <= i < |levels| => LowByte(levels[i]));
    var frame := PushFrame(CMD_SET_LED, payload);
    pkt := Some(frame);
  }

  // ---- What the reader accepts ----

  lemma {:induction false} SkipGarbage(g: seq<octet>, s: seq<octet>)
    requires STX !in g
    ensures Parse(g + s) == Parse(s)
  {
    if g == [] {
      assert g + s == s;
    } else {
      assert (g + s)[1..] == g[1..] + s;
      SkipGarbage(g[1..], s);
    }
  }

  lemma LengthByte(n: nat)
    requires n < 256
    ensures (n as octet) as int == n
  {
    LengthOfByte(ByteOf(n));
  }

  /** The byte with value `n`, counted up to. */
  ghost function ByteOf(n: nat): (b: octet)
    requires n < 256
    ensures b as int == n
  {
    if n == 0 then 0
    else
      NextByte(ByteOf(n - 1));
      ByteOf(n - 1) + 1
  }

  lemma NextByte(b: octet)
    requires (b as int) < 255
    ensures (b + 1) as int == b as int + 1
  {
  }

  /** Any five fields in frame form are taken as one frame, and judged by checksum and ETX alone. */
  lemma ParseAssembled(cmd: octet, len: octet, data: seq<octet>, crc: octet, etx: octet, rest: seq<octet>)
    requires |data| == len as int
    ensures Parse([STX, cmd, len] + data + [crc, etx] + rest) == Received(Judge(cmd, len, data, crc, etx), rest)
  {
    hide Judge;
    Leader([STX, cmd, len], data, [crc, etx], rest);
    Trailer(data, crc, etx, rest);
  }

  lemma Leader(a: seq<octet>, b: seq<octet>, c: seq<octet>, d: seq<octet>)
    requires |a| == 3
    ensures var s := a + b + c + d; s[0] == a[0] && s[1..][0] == a[1] && s[1..][1] == a[2] && s[1..][2..] == b + c + d
  {
  }

  lemma Trailer(data: seq<octet>, crc: octet, etx: octet, rest: seq<octet>)
    ensures var s, n := data + [crc, etx] + rest, |data|;
      s[..n] == data && s[n] == crc && s[n + 1] == etx && s[n + 2..] == rest
  {
  }

  /** Garbage without an STX, then an encoded frame: the read returns that frame and stops behind it. */
  lemma ReadsEncodedFrame(g: seq<octet>, cmd: octet, data: seq<octet>, rest: seq<octet>)
    requires STX !in g && |data| < 256
    ensures Parse(g + Encode(cmd, data) + rest) == Received(Some(Encode(cmd, data)), rest)
  {
    assert g + Encode(cmd, data) + rest == g + (Encode(cmd, data) + rest);
    SkipGarbage(g, Encode(cmd, data) + rest);
    LengthByte(|data|);
    ParseAssembled(cmd, |data| as octet, data, Crc(cmd, |data| as octet, data), ETX, rest);
  }

  /** Only canonical encodings are accepted, and only bytes free of STX are skipped in front of one. */
  lemma {:induction false} AcceptsOnlyEncodings(s: seq<octet>) returns (g: seq<octet>, cmd: octet, data: seq<octet>)
    requires Parse(s).frame.Some?
    ensures STX !in g && |data| < 256
    ensures Parse(s).frame.value == Encode(cmd, data)
    ensures s == g + Encode(cmd, data) + Parse(s).rest
    decreases |s|
  {
    if s[0] != STX {
      g, cmd, data := AcceptsOnlyEncodings(s[1..]);
      assert s == [s[0]] + s[1..];
      assert [s[0]] + (g + Encode(cmd, data) + Parse(s).rest) == [s[0]] + g + Encode(cmd, data) + Parse(s).rest;
      g := [s[0]] + g;
    } else {
      g := [];
      cmd, data := BodyIsEncoding(s[1..]);
      assert s == [STX] + s[1..];
    }
  }

  lemma BodyIsEncoding(body: seq<octet>) returns (cmd: octet, data: seq<octet>)
    requires ParseBody(body).frame.Some?
    ensures |data| < 256
    ensures ParseBody(body).frame.value == Encode(cmd, data) == [STX] + body[..4 + |data|]
    ensures |body| >= 4 + |data| && ParseBody(body).rest == body[4 + |data|..]
  {
    hide Encode, Crc;
    var len := body[1] as int;
    cmd, data := body[0], body[2..][..len];
    EncodeIs(cmd, body[1], data);
    BodyParts(body, len);
  }

  lemma EncodeIs(cmd: octet, len: octet, data: seq<octet>)
    requires |data| == len as int
    ensures Encode(cmd, data) == Assemble(cmd, len, data, Crc(cmd, len, data))
  {
    hide Crc;
    LengthOfByte(len);
  }

  lemma BodyParts(body: seq<octet>, n: nat)
    requires n + 4 <= |body|
    ensures var s := body[2..];
      && [STX] + body[..4 + n] == [STX, body[0], body[1]] + s[..n] + [s[n], s[n + 1]]
      && s[n + 2..] == body[4 + n..]
  {
  }

  lemma LengthOfByte(b: octet)
    ensures 0 <= b as int < 256 && (b as int) as octet == b
  {
  }

  // ---- Runs of reads ----

  datatype Message = Message(garbage: seq<octet>, cmd: octet, data: seq<octet>)

  type CleanMessage = m: Message | STX !in m.garbage && |m.data| < 256 witness Message([], 0, [])

  function StreamOf(ms: seq<CleanMessage>): seq<octet> {
    if ms == [] then [] else ms[0].garbage + Encode(ms[0].cmd, ms[0].data) + StreamOf(ms[1..])
  }

  /** The results of `n` reads in a row. */
  function ReadTimes(s: seq<octet>, n: nat): (seq<Option<seq<octet>>>, seq<octet>)
    decreases n
  {
    if n == 0 then ([], s)
    else
      var first := Parse(s);
      var (later, rest) := ReadTimes(first.rest, n - 1);
      ([first.frame] + later, rest)
  }

  /** A stream of frames with garbage between them is read back one frame per call. */
  lemma {:induction false} ReadsEveryFrame(ms: seq<CleanMessage>, rest: seq<octet>)
    ensures var (frames, left) := ReadTimes(StreamOf(ms) + rest, |ms|);
      && left == rest && |frames| == |ms|
      && forall i :: 0 <= i < |ms| ==> frames[i] == Some(Encode(ms[i].cmd, ms[i].data))
  {
    if ms == [] {
      assert StreamOf(ms) + rest == rest;
    } else {
      var m := ms[0];
      assert StreamOf(ms) + rest == m.garbage + Encode(m.cmd, m.data) + (StreamOf(ms[1..]) + rest);
      ReadsEncodedFrame(m.garbage, m.cmd, m.data, StreamOf(ms[1..]) + rest);
      ReadsEveryFrame(ms[1..], rest);
    }
  }

  // ---- Corruption ----

  lemma {:induction false} XorOneChange(data: seq<octet>, i: nat, b: octet)
    requires i < |data|
    ensures XorOf(data[i := b]) == Xor(Xor(XorOf(data), data[i]), b)
  {
    hide Xor;
    var n := |data| - 1;
    if i == n {
      assert data[i := b][..n] == data[..n];
      XorReplace(XorOf(data[..n]), data[n], b);
    } else {
      assert data[i := b][..n] == data[..n][i := b];
      XorOneChange(data[..n], i, b);
      XorSwap(XorOf(data[..n]), data[i], b, data[n]);
    }
  }

  lemma XorReplace(a: octet, x: octet, b: octet)
    ensures Xor(a, b) == Xor(Xor(Xor(a, x), x), b)
  {
  }

  lemma XorSwap(a: octet, x: octet, b: octet, y: octet)
    ensures Xor(Xor(Xor(a, x), b), y) == Xor(Xor(Xor(a, y), x), b)
  {
  }

  lemma XorDiffers(a: octet, x: octet, b: octet)
    requires x != b
    ensures Xor(Xor(a, x), b) != a
  {
  }

  lemma CrcSeesCommand(cmd: octet, other: octet, len: octet, data: seq<octet>)
    requires cmd != other
    ensures Crc(other, len, data) != Crc(cmd, len, data)
  {
    CrcTerm(cmd, other, len, XorOf(data));
  }

  lemma CrcTerm(cmd: octet, other: octet, len: octet, x: octet)
    requires cmd != other
    ensures other ^ len ^ x ^ ETX != cmd ^ len ^ x ^ ETX
  {
  }

  lemma CrcSeesData(cmd: octet, len: octet, data: seq<octet>, i: nat, b: octet)
    requires i < |data| && data[i] != b
    ensures Crc(cmd, len, data[i := b]) != Crc(cmd, len, data)
  {
    hide Xor, XorOf;
    XorOneChange(data, i, b);
    XorDiffers(XorOf(data), data[i], b);
    CrcDataTerm(cmd, len, XorOf(data), XorOf(data[i := b]));
  }

  lemma CrcDataTerm(cmd: octet, len: octet, x: octet, y: octet)
    requires x != y
    ensures cmd ^ len ^ x ^ ETX != cmd ^ len ^ y ^ ETX
  {
  }

  /** Changing any one byte of a frame other than STX and LEN makes its read fail. */
  lemma OneByteCorruptionIsRejected(g: seq<octet>, cmd: octet, data: seq<octet>, rest: seq<octet>, i: nat, b: octet)
    requires STX !in g && |data| < 256 && i < |data| + 5
    requires i != 0 && i != 2 && Encode(cmd, data)[i] != b
    ensures Parse(g + Encode(cmd, data)[i := b] + rest) == Received(None, rest)
  {
    var len := |data| as octet;
    var bad := Encode(cmd, data)[i := b];
    assert g + bad + rest == g + (bad + rest);
    SkipGarbage(g, bad + rest);
    LengthByte(|data|);
    if i < 3 + |data| {
      PayloadCorruption(cmd, len, data, rest, i, b);
    } else {
      TrailerCorruption(cmd, len, data, rest, i, b);
    }
  }

  lemma PayloadCorruption(cmd: octet, len: octet, data: seq<octet>, rest: seq<octet>, i: nat, b: octet)
    requires |data| == len as int && (i == 1 || 3 <= i < 3 + |data|)
    requires Assemble(cmd, len, data, Crc(cmd, len, data))[i] != b
    ensures Parse(Assemble(cmd, len, data, Crc(cmd, len, data))[i := b] + rest) == Received(None, rest)
  {
    var crc := Crc(cmd, len, data);
    var bad := Assemble(cmd, len, data, crc)[i := b];
    if i == 1 {
      assert bad == [STX, b, len] + data + [crc, ETX];
      CrcSeesCommand(cmd, b, len, data);
      ParseAssembled(b, len, data, crc, ETX, rest);
    } else {
      assert bad == [STX, cmd, len] + data[i - 3 := b] + [crc, ETX];
      CrcSeesData(cmd, len, data, i - 3, b);
      ParseAssembled(cmd, len, data[i - 3 := b], crc, ETX, rest);
    }
  }

  lemma TrailerCorruption(cmd: octet, len: octet, data: seq<octet>, rest: seq<octet>, i: nat, b: octet)
    requires |data| == len as int && 3 + |data| <= i < 5 + |data|
    requires Assemble(cmd, len, data, Crc(cmd, len, data))[i] != b
    ensures Parse(Assemble(cmd, len, data, Crc(cmd, len, data))[i := b] + rest) == Received(None, rest)
  {
    var crc := Crc(cmd, len, data);
    var bad := Assemble(cmd, len, data, crc)[i := b];
    if i == 3 + |data| {
      assert bad == [STX, cmd, len] + data + [b, ETX];
      ParseAssembled(cmd, len, data, b, ETX, rest);
    } else {
      assert bad == [STX, cmd, len] + data + [crc, b];
      ParseAssembled(cmd, len, data, crc, b, rest);
    }
  }

  /**
   A changed length byte is noticed unless a checksum and an ETX happen to stand where the new
   length puts them: exactly then a frame is returned, and it is not the one that was sent.
   */
  lemma LengthCorruptionPassesIff(g: seq<octet>, cmd: octet, data: seq<octet>, rest: seq<octet>, len: octet)
    requires STX !in g && |data| < 256
    ensures var tail, n := data + [Crc(cmd, |data| as octet, data), ETX] + rest, len as int;
      var r := Parse(g + Encode(cmd, data)[2 := len] + rest);
      && (r.frame.Some? <==> n + 2 <= |tail| && tail[n + 1] == ETX && tail[n] == Crc(cmd, len, tail[..n]))
      && (r.frame.Some? ==> r == Received(Some(Encode(cmd, tail[..n])), tail[n + 2..]))
  {
    hide Crc, Parse, ParseData;
    var crc := Crc(cmd, |data| as octet, data);
    var tail, n := data + [crc, ETX] + rest, len as int;
    AssembleWithLength(g, cmd, |data| as octet, data, crc, rest, len);
    SkipGarbage(g, [STX, cmd, len] + tail);
    ParseHeaded(cmd, len, tail);
    JudgeTail(cmd, len, tail);
  }

  lemma AssembleWithLength(g: seq<octet>, cmd: octet, sent: octet, data: seq<octet>, crc: octet, rest: seq<octet>, len: octet)
    ensures g + Assemble(cmd, sent, data, crc)[2 := len] + rest == g + ([STX, cmd, len] + (data + [crc, ETX] + rest))
  {
  }

  lemma ParseHeaded(cmd: octet, len: octet, tail: seq<octet>)
    ensures Parse([STX, cmd, len] + tail) == ParseData(cmd, len, tail)
  {
    hide ParseData;
    var s := [STX, cmd, len] + tail;
    assert s[1..] == [cmd, len] + tail && s[1..][2..] == tail;
  }

  lemma JudgeTail(cmd: octet, len: octet, tail: seq<octet>)
    ensures var r, n := ParseData(cmd, len, tail), len as int;
      && (r.frame.Some? <==> n + 2 <= |tail| && tail[n + 1] == ETX && tail[n] == Crc(cmd, len, tail[..n]))
      && (r.frame.Some? ==> r == Received(Some(Encode(cmd, tail[..n])), tail[n + 2..]))
  {
    hide Crc;
    if len as int + 2 <= |tail| {
      EncodeIs(cmd, len, tail[..len as int]);
    }
  }

  /**
   Where the new length ends inside the payload, the sender can tell from the payload alone: the
   shorter frame passes exactly if the payload holds its checksum and an ETX at its end.
   */
  lemma ShorterLengthPassesIff(g: seq<octet>, cmd: octet, data: seq<octet>, rest: seq<octet>, len: octet)
    requires STX !in g && |data| < 256 && len as int < |data|
    ensures var n, crc := len as int, Crc(cmd, |data| as octet, data);
      Parse(g + Encode(cmd, data)[2 := len] + rest).frame.Some? <==>
        data[n] == Crc(cmd, len, data[..n]) && (if n + 1 < |data| then data[n + 1] else crc) == ETX
  {
    hide Crc, Encode, Parse;
    var n, crc := len as int, Crc(cmd, |data| as octet, data);
    var tail := data + [crc, ETX] + rest;
    LengthCorruptionPassesIff(g, cmd, data, rest, len);
    assert tail[..n] == data[..n];
  }

  /** A frame that stays acceptable when its length byte shrinks. */
  lemma LengthCorruptionCanPass()
    ensures var frame := Encode(0x01, [0x00, 0x55, 0x55]);
      var bad := frame[2 := 1];
      bad != frame && Parse(bad) == Received(Some(Encode(0x01, [0x00])), [frame[6], ETX])
  {
    var data: seq<octet> := [0x00, 0x55, 0x55];
    var crc := Crc(0x01, 3, data);
    XorOfOne(0x00);
    assert data[..1] == [0x00];
    var tail := data + [crc, ETX] + [];
    LengthCorruptionPassesIff([], 0x01, data, [], 1);
    assert [] + Encode(0x01, data)[2 := 1] + [] == Encode(0x01, data)[2 := 1];
    assert tail[..1] == data[..1] == [0x00] && tail[3..] == [crc, ETX];
  }

  /**
   With its STX changed a frame is skipped like garbage, up to the first STX inside it if there is
   one, and the read goes on from there; without one the next frame is read in its place.
   */
  lemma StxCorruptionSkipsFrame(g: seq<octet>, cmd: octet, data: seq<octet>, rest: seq<octet>, b: octet, i: nat)
    requires STX !in g && |data| < 256 && b != STX
    requires 1 <= i <= |data| + 5 && STX !in Encode(cmd, data)[1..i]
    requires i < |data| + 5 ==> Encode(cmd, data)[i] == STX
    ensures var frame := Encode(cmd, data);
      Parse(g + frame[0 := b] + rest) == if i < |frame| then ParseBody(frame[i + 1..] + rest) else Parse(rest)
  {
    hide Crc, Encode, ParseBody;
    var frame := Encode(cmd, data);
    var skipped, left := g + [b] + frame[1..i], frame[i..] + rest;
    assert g + frame[0 := b] + rest == skipped + left;
    SkipGarbage(skipped, left);
    if i < |frame| {
      assert left[1..] == frame[i + 1..] + rest;
    } else {
      assert left == rest;
    }
  }
}
