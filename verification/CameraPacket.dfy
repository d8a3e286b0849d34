/** The packet format shared by server and client: 16-byte big-endian header, JSON, JPEG. */
module CameraPacket {
  import opened Bytes

  const MAGIC_COOKIE: uint32 := 0xDEADBEEF
  const COOKIE: seq<byte> := [0xDE, 0xAD, 0xBE, 0xEF]
  const HEADER_SIZE := 16

  /** The size limits the client enforces. */
  const MAX_JSON := 1000000
  const MAX_IMAGE := 10000000

  datatype Packet = Packet(camera: uint32, json: seq<byte>, image: seq<byte>)
  datatype Header = Header(magic: uint32, camera: uint32, jsonSize: uint32, imageSize: uint32)

  datatype Kind = JSON | CAMERA
  datatype SendPacket = SendPacket(kind: Kind, data: seq<byte>)

  /** C's conversion to an unsigned 32-bit integer. */
  function ToUint32(n: int): uint32 {
    n % 0x1_0000_0000
  }

  /** htonl. */
  function BigEndian(n: uint32): (bytes: seq<byte>)
    ensures |bytes| == 4
  {
    [n / 0x100_0000, n / 0x1_0000 % 256, n / 256 % 256, n % 256]
  }

  /** qFromBigEndian on four bytes of a buffer. */
  function FromBigEndian(s: seq<byte>, at: nat): uint32
    requires at + 4 <= |s|
  {
    var b0: int, b1: int, b2: int, b3: int := s[at], s[at + 1], s[at + 2], s[at + 3];
    b0 * 0x100_0000 + b1 * 0x1_0000 + b2 * 256 + b3
  }

  lemma Digits(b0: int, b1: int, b2: int, b3: int, n: int)
    requires 0 <= b0 < 256 && 0 <= b1 < 256 && 0 <= b2 < 256 && 0 <= b3 < 256
    requires n == b0 * 0x100_0000 + b1 * 0x1_0000 + b2 * 256 + b3
    ensures b0 == n / 0x100_0000 && b1 == n / 0x1_0000 % 256 && b2 == n / 256 % 256 && b3 == n % 256
  {
    assert n / 256 == b0 * 0x1_0000 + b1 * 256 + b2;
    assert n / 0x1_0000 == b0 * 256 + b1;
  }

  lemma FromDigits(n: int)
    requires 0 <= n < 0x1_0000_0000
    ensures n == n / 0x100_0000 * 0x100_0000 + n / 0x1_0000 % 256 * 0x1_0000 + n / 256 % 256 * 256 + n % 256
  {
    assert n / 0x1_0000 == n / 256 / 256 && n / 0x100_0000 == n / 0x1_0000 / 256;
  }

  /** The two conversions are inverse to each other. */
  lemma BigEndianInverse(s: seq<byte>, at: nat, n: uint32)
    requires at + 4 <= |s|
    ensures s[at..at + 4] == BigEndian(n) <==> FromBigEndian(s, at) == n
  {
    var b := s[at..at + 4];
    assert b == [s[at], s[at + 1], s[at + 2], s[at + 3]];
    Digits(s[at], s[at + 1], s[at + 2], s[at + 3], FromBigEndian(s, at));
    FromDigits(n);
    if b == BigEndian(n) {
      assert b[0] == BigEndian(n)[0] && b[1] == BigEndian(n)[1] && b[2] == BigEndian(n)[2] && b[3] == BigEndian(n)[3];
    }
  }

  function HeaderBytes(p: Packet): (bytes: seq<byte>)
    ensures |bytes| == HEADER_SIZE
  {
    BigEndian(MAGIC_COOKIE) + BigEndian(p.camera) + BigEndian(ToUint32(|p.json|)) + BigEndian(ToUint32(|p.image|))
  }

  function Encode(p: Packet): (bytes: seq<byte>)
    ensures |bytes| == HEADER_SIZE + |p.json| + |p.image|
  {
    HeaderBytes(p) + p.json + p.image
  }

  function EncodeAll(ps: seq<Packet>): seq<byte> {
    if ps == [] then [] else Encode(ps[0]) + EncodeAll(ps[1..])
  }

  predicate WithinLimits(p: Packet) {
    |p.json| <= MAX_JSON && |p.image| <= MAX_IMAGE
  }

  predicate AllWithinLimits(ps: seq<Packet>) {
    forall p :: p in ps ==> WithinLimits(p)
  }

  /** The packet the server queues for `p`. */
  function Prepared(p: Packet): SendPacket {
    SendPacket(if p.camera == 0 then JSON else CAMERA, Encode(p))
  }

  /** The four header words as the client reads them. */
  function ReadHeader(s: seq<byte>): Header
    requires HEADER_SIZE <= |s|
  {
    Header(FromBigEndian(s, 0), FromBigEndian(s, 4), FromBigEndian(s, 8), FromBigEndian(s, 12))
  }

  /** The packet whose header stands at the front of `s`. */
  function FrontPacket(s: seq<byte>): Packet
    requires HEADER_SIZE <= |s|
    requires HEADER_SIZE + ReadHeader(s).jsonSize + ReadHeader(s).imageSize <= |s|
  {
    var h := ReadHeader(s);
    Packet(h.camera, s[HEADER_SIZE..HEADER_SIZE + h.jsonSize],
      s[HEADER_SIZE + h.jsonSize..HEADER_SIZE + h.jsonSize + h.imageSize])
  }

  lemma CookieIsMagic(s: seq<byte>)
    requires 4 <= |s|
    ensures COOKIE <= s <==> FromBigEndian(s, 0) == MAGIC_COOKIE
  {
    hide FromBigEndian;
    assert COOKIE == BigEndian(MAGIC_COOKIE);
    BigEndianInverse(s, 0, MAGIC_COOKIE);
    assert s[0..4] == s[..4];
  }

  lemma SubSlice<T>(s: seq<T>, n: nat, i: nat, j: nat)
    requires i <= j <= n <= |s|
    ensures s[..n][i..j] == s[i..j]
  {
  }

  lemma ThreeParts<T>(s: seq<T>, i: nat, j: nat, k: nat)
    requires i <= j <= k <= |s|
    ensures s[..k] == s[..i] + s[i..j] + s[j..k]
  {
  }

  /** Any buffer that starts like an encoded packet shows that packet's header words. */
  lemma HeaderOfPrefix(p: Packet, s: seq<byte>)
    requires HEADER_SIZE <= |s| && s[..HEADER_SIZE] == HeaderBytes(p)
    ensures ReadHeader(s) == Header(MAGIC_COOKIE, p.camera, ToUint32(|p.json|), ToUint32(|p.image|))
  {
    SubSlice(s, HEADER_SIZE, 0, 4);
    SubSlice(s, HEADER_SIZE, 4, 8);
    SubSlice(s, HEADER_SIZE, 8, 12);
    SubSlice(s, HEADER_SIZE, 12, 16);
    assert HeaderBytes(p)[0..4] == BigEndian(MAGIC_COOKIE);
    assert HeaderBytes(p)[4..8] == BigEndian(p.camera);
    assert HeaderBytes(p)[8..12] == BigEndian(ToUint32(|p.json|));
    assert HeaderBytes(p)[12..16] == BigEndian(ToUint32(|p.image|));
    BigEndianInverse(s, 0, MAGIC_COOKIE);
    BigEndianInverse(s, 4, p.camera);
    BigEndianInverse(s, 8, ToUint32(|p.json|));
    BigEndianInverse(s, 12, ToUint32(|p.image|));
  }

  /** Decoding undoes encoding, whatever follows. */
  lemma DecodeEncode(p: Packet, rest: seq<byte>)
    requires |p.json| < 0x1_0000_0000 && |p.image| < 0x1_0000_0000
    ensures ReadHeader(Encode(p) + rest) == Header(MAGIC_COOKIE, p.camera, |p.json|, |p.image|)
    ensures FrontPacket(Encode(p) + rest) == p
  {
    var s := Encode(p) + rest;
    Segments(HeaderBytes(p), p.json, p.image, rest);
    HeaderOfPrefix(p, s);
    SmallUint32(|p.json|);
    SmallUint32(|p.image|);
  }

  lemma SmallUint32(n: nat)
    requires n < 0x1_0000_0000
    ensures ToUint32(n) == n
  {
  }

  lemma Segments<T>(a: seq<T>, b: seq<T>, c: seq<T>, rest: seq<T>)
    ensures (a + b + c + rest)[..|a|] == a
    ensures (a + b + c + rest)[|a|..|a| + |b|] == b
    ensures (a + b + c + rest)[|a| + |b|..|a| + |b| + |c|] == c
    ensures (a + b + c + rest)[|a| + |b| + |c|..] == rest
  {
  }

  /** Encoding undoes decoding: a header with the magic word fixes every byte of its packet. */
  lemma EncodeDecode(s: seq<byte>)
    requires HEADER_SIZE <= |s| && COOKIE <= s
    requires HEADER_SIZE + ReadHeader(s).jsonSize + ReadHeader(s).imageSize <= |s|
    ensures Encode(FrontPacket(s)) == s[..HEADER_SIZE + ReadHeader(s).jsonSize + ReadHeader(s).imageSize]
  {
    var h, p := ReadHeader(s), FrontPacket(s);
    assert HeaderBytes(p) == s[..HEADER_SIZE] by {
      SmallUint32(h.jsonSize);
      SmallUint32(h.imageSize);
      HeaderDecode(s);
    }
    ThreeParts(s, HEADER_SIZE, HEADER_SIZE + h.jsonSize, HEADER_SIZE + h.jsonSize + h.imageSize);
  }

  lemma HeaderDecode(s: seq<byte>)
    requires HEADER_SIZE <= |s| && COOKIE <= s
    ensures s[..HEADER_SIZE] == BigEndian(MAGIC_COOKIE) + BigEndian(ReadHeader(s).camera)
      + BigEndian(ReadHeader(s).jsonSize) + BigEndian(ReadHeader(s).imageSize)
  {
    var h := ReadHeader(s);
    CookieIsMagic(s);
    BigEndianInverse(s, 0, MAGIC_COOKIE);
    BigEndianInverse(s, 4, h.camera);
    BigEndianInverse(s, 8, h.jsonSize);
    BigEndianInverse(s, 12, h.imageSize);
    ThreeParts(s, 4, 8, 12);
    ThreeParts(s, 12, 12, 16);
    assert s[..4] == s[0..4];
  }

  lemma {:induction false} EncodeAllAppend(a: seq<Packet>, b: seq<Packet>)
    ensures EncodeAll(a + b) == EncodeAll(a) + EncodeAll(b)
  {
    if a == [] {
      assert a + b == b;
    } else {
      assert (a + b)[1..] == a[1..] + b;
      EncodeAllAppend(a[1..], b);
    }
  }

  /** A packet byte by byte, as it goes over the wire. */
  lemma WireExample()
    ensures Encode(Packet(0x01020304, [0x7B, 0x7D], [0xFF, 0xD8, 0xFF])) ==
      [0xDE, 0xAD, 0xBE, 0xEF, 1, 2, 3, 4, 0, 0, 0, 2, 0, 0, 0, 3, 0x7B, 0x7D, 0xFF, 0xD8, 0xFF]
  {
    var p := Packet(0x01020304, [0x7B, 0x7D], [0xFF, 0xD8, 0xFF]);
    assert HeaderBytes(p) == [0xDE, 0xAD, 0xBE, 0xEF, 1, 2, 3, 4, 0, 0, 0, 2, 0, 0, 0, 3];
  }

  /** memcpy of `src` to `dst + at`. */
  method CopyTo(dst: array<byte>, at: nat, src: seq<byte>)
    requires at + |src| <= dst.Length
    modifies dst
    ensures dst[..] == old(dst[..at]) + src + old(dst[at + |src|..])
  {
    for i := 0 to |src|
      invariant dst[..at] == old(dst[..at])
      invariant dst[at..at + i] == src[..i]
      invariant dst[at + i..] == old(dst[at + i..])
    {
      dst[at + i] := src[i];
    }
    assert dst[..] == dst[..at] + dst[at..at + |src|] + dst[at + |src|..];
  }

  method MakePacket(camera: uint32, json: seq<byte>, image: seq<byte>) returns (pkt: SendPacket)
    ensures pkt == Prepared(Packet(camera, json, image))
    ensures pkt.data == Encode(Packet(camera, json, image)) && (pkt.kind == JSON <==> camera == 0)
  {
    var header := BigEndian(MAGIC_COOKIE) + BigEndian(camera) + BigEndian(ToUint32(|json|)) + BigEndian(ToUint32(|image|));
    var data := new byte[HEADER_SIZE + |json| + |image|](_ => 0);
    CopyTo(data, 0, header);
    assert data[..HEADER_SIZE] == header;
    CopyTo(data, HEADER_SIZE, json);
    assert data[..HEADER_SIZE + |json|] == header + json;
    if image != [] {
      CopyTo(data, HEADER_SIZE + |json|, image);
    }
    assert data[..] == header + json + image;
    pkt := SendPacket(if camera == 0 then JSON else CAMERA, data[..]);
  }
}
