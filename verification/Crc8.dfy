/** The CRC-8 of the SHT20 driver (polynomial 0x31, initial value 0). */
module Crc8 {
  import opened Bytes

  predicate High(crc: octet) {
    crc & 0x80 != 0
  }

  /** One step of the bit loop. */
  function Shift(crc: octet): octet {
    if High(crc) then Xor(crc << 1, 0x31) else crc << 1
  }

  function ShiftTimes(crc: octet, n: nat): octet {
    if n == 0 then crc else Shift(ShiftTimes(crc, n - 1))
  }

  /** The CRC of a message, one byte at a time. */
  function Crc(data: seq<octet>): octet {
    if data == [] then 0 else ShiftTimes(Xor(Crc(data[..|data| - 1]), data[|data| - 1]), 8)
  }

  method Sht20Crc8(data: array<octet>, len: nat) returns (crc: octet)
    requires len <= data.Length
    ensures crc == Crc(data[..len])
  {
    crc := 0x00;
    for i := 0 to len
      invariant crc == Crc(data[..i])
    {
      crc := crc ^ data[i];
      ghost var mixed := crc;
      for j := 0 to 8
        invariant crc == ShiftTimes(mixed, j)
      {
        if crc & 0x80 != 0 {
          crc := (crc << 1) ^ 0x31;
        } else {
          crc := crc << 1;
        }
      }
      assert data[..i + 1][..i] == data[..i];
    }
  }

  datatype ReadResult = Raw(value: bv16) | Error

  /** The check and conversion of one 3-byte sensor reading. */
  method ReadSht20Data(buf: array<octet>) returns (r: ReadResult)
    requires buf.Length == 3
    ensures Crc(buf[..2]) == buf[2] ==> r == Raw(((buf[0] as bv16) << 8) | ((buf[1] & 0xFC) as bv16))
    ensures Crc(buf[..2]) != buf[2] ==> r == Error
  {
    var crc := Sht20Crc8(buf, 2);
    if crc != buf[2] { return Error; }
    r := Raw(((buf[0] as bv16) << 8) | ((buf[1] & 0xFC) as bv16));
  }

  // ---- Linearity ----

  lemma XorCommutes(a: octet, b: octet)
    ensures Xor(a, b) == Xor(b, a)
  {
  }

  lemma XorNothing(a: octet)
    ensures Xor(a, 0) == a
  {
  }

  lemma XorSelf(a: octet)
    ensures Xor(a, a) == 0
  {
  }

  lemma XorPairs(a: octet, b: octet, x: octet, y: octet)
    ensures Xor(Xor(a, b), Xor(x, y)) == Xor(Xor(a, x), Xor(b, y))
  {
    hide Xor;
    XorAssociates(a, b, Xor(x, y));
    XorAssociates(b, x, y);
    XorCommutes(b, x);
    XorAssociates(x, b, y);
    XorAssociates(a, x, Xor(b, y));
  }

  lemma ShiftLeftLinear(a: octet, b: octet)
    ensures Xor(a, b) << 1 == Xor(a << 1, b << 1)
  {
  }

  lemma HighOfXor(a: octet, b: octet)
    ensures High(Xor(a, b)) <==> High(a) != High(b)
  {
  }

  lemma ShiftLinear(a: octet, b: octet)
    ensures Shift(Xor(a, b)) == Xor(Shift(a), Shift(b))
  {
    hide Xor, High;
    ShiftLeftLinear(a, b);
    HighOfXor(a, b);
    var x, y, poly: octet := a << 1, b << 1, 0x31;
    if High(a) && High(b) {
      XorPairs(x, poly, y, poly);
      XorSelf(poly);
      XorNothing(Xor(x, y));
    } else if High(a) {
      XorAssociates(x, poly, y);
      XorCommutes(poly, y);
      XorAssociates(x, y, poly);
    } else if High(b) {
      XorAssociates(x, y, poly);
    }
  }

  lemma ShiftKeepsNonzero(a: octet)
    ensures Shift(a) == 0 <==> a == 0
  {
  }

  lemma {:induction false} ShiftTimesLinear(a: octet, b: octet, n: nat)
    ensures ShiftTimes(Xor(a, b), n) == Xor(ShiftTimes(a, n), ShiftTimes(b, n))
  {
    hide Shift, Xor;
    if n > 0 {
      ShiftTimesLinear(a, b, n - 1);
      ShiftLinear(ShiftTimes(a, n - 1), ShiftTimes(b, n - 1));
    }
  }

  lemma {:induction false} ShiftTimesKeepsNonzero(a: octet, n: nat)
    ensures ShiftTimes(a, n) == 0 <==> a == 0
  {
    hide Shift;
    if n > 0 {
      ShiftTimesKeepsNonzero(a, n - 1);
      ShiftKeepsNonzero(ShiftTimes(a, n - 1));
    }
  }

  function XorEach(a: seq<octet>, b: seq<octet>): (c: seq<octet>)
    requires |a| == |b|
    ensures |c| == |a|
  {
    seq(|a|, i requires 0 <= i < |a| => Xor(a[i], b[i]))
  }

  /** The CRC of the XOR of two messages of one length is the XOR of their CRCs. */
  lemma {:induction false} CrcIsLinear(a: seq<octet>, b: seq<octet>)
    requires |a| == |b|
    ensures Crc(XorEach(a, b)) == Xor(Crc(a), Crc(b))
    decreases |a|
  {
    hide ShiftTimes, Xor;
    if a == [] {
      NoXor();
    } else {
      var n := |a| - 1;
      CrcIsLinear(a[..n], b[..n]);
      assert XorEach(a, b)[..n] == XorEach(a[..n], b[..n]);
      XorPairs(Crc(a[..n]), Crc(b[..n]), a[n], b[n]);
      ShiftTimesLinear(Xor(Crc(a[..n]), a[n]), Xor(Crc(b[..n]), b[n]), 8);
    }
  }

  lemma NoXor()
    ensures Xor(0, 0) == 0
  {
  }

  // ---- Known checksums ----

  /** The bit loop, eight steps spelled out. */
  lemma EightShifts(a: octet, b: octet, c: octet, d: octet, e: octet, f: octet, g: octet, h: octet, i: octet)
    requires b == Shift(a) && c == Shift(b) && d == Shift(c) && e == Shift(d)
    requires f == Shift(e) && g == Shift(f) && h == Shift(g) && i == Shift(h)
    ensures ShiftTimes(a, 8) == i
  {
    hide Shift;
    assert ShiftTimes(a, 1) == b && ShiftTimes(a, 2) == c && ShiftTimes(a, 3) == d && ShiftTimes(a, 4) == e;
    assert ShiftTimes(a, 5) == f && ShiftTimes(a, 6) == g && ShiftTimes(a, 7) == h;
  }

  lemma OneMoreByte(data: seq<octet>, b: octet)
    ensures Crc(data + [b]) == ShiftTimes(Xor(Crc(data), b), 8)
  {
    assert (data + [b])[..|data|] == data;
  }

  /** The checksum is that of the generator x^8 + x^5 + x^4 + 1: examples from the sensor's data sheet. */
  lemma KnownChecksums()
    ensures Crc([0x01]) == 0x31 && Crc([0xDC]) == 0x79 && Crc([0x68, 0x3A]) == 0x7C
  {
    hide ShiftTimes, Crc;
    assert [] + [0x01 as octet] == [0x01] && [] + [0xDC as octet] == [0xDC] && [] + [0x68 as octet] == [0x68];
    assert [0x68 as octet] + [0x3A as octet] == [0x68, 0x3A];
    OneMoreByte([], 0x01);
    OneMoreByte([], 0xDC);
    OneMoreByte([], 0x68);
    OneMoreByte([0x68], 0x3A);
    EmptyCrc();
    EightShifts(0x01, 0x02, 0x04, 0x08, 0x10, 0x20, 0x40, 0x80, 0x31);
    EightShifts(0xDC, 0x89, 0x23, 0x46, 0x8C, 0x29, 0x52, 0xA4, 0x79);
    EightShifts(0x68, 0xD0, 0x91, 0x13, 0x26, 0x4C, 0x98, 0x01, 0x02);
    EightShifts(0x38, 0x70, 0xE0, 0xF1, 0xD3, 0x97, 0x1F, 0x3E, 0x7C);
  }

  lemma EmptyCrc()
    ensures Crc([]) == 0
  {
  }

  // ---- Error detection ----

  lemma XorZero(a: octet, b: octet)
    ensures Xor(a, b) == 0 <==> a == b
  {
  }

  /** A message has CRC 0 exactly if it ends in the CRC of what precedes. */
  lemma ZeroMeansCodeword(data: seq<octet>, crc: octet)
    ensures Crc(data + [crc]) == 0 <==> crc == Crc(data)
  {
    hide ShiftTimes, Xor;
    assert (data + [crc])[..|data|] == data;
    XorZero(Crc(data), crc);
    ShiftTimesKeepsNonzero(Xor(Crc(data), crc), 8);
  }

  /** An error pattern of zero bytes with one nonzero byte has a nonzero CRC. */
  lemma {:induction false} OneByteErrorShows(e: seq<octet>, i: nat)
    requires i < |e| && e[i] != 0
    requires forall j :: 0 <= j < |e| && j != i ==> e[j] == 0
    ensures Crc(e) != 0
    decreases |e|
  {
    hide ShiftTimes, Xor;
    var n := |e| - 1;
    if i == n {
      AllZero(e[..n]);
      XorZero(0, e[n]);
    } else {
      OneByteErrorShows(e[..n], i);
      XorZero(Crc(e[..n]), e[n]);
    }
    ShiftTimesKeepsNonzero(Xor(Crc(e[..n]), e[n]), 8);
  }

  lemma {:induction false} AllZero(e: seq<octet>)
    requires forall j :: 0 <= j < |e| ==> e[j] == 0
    ensures Crc(e) == 0
    decreases |e|
  {
    hide ShiftTimes, Xor;
    if e != [] {
      AllZero(e[..|e| - 1]);
      NoXor();
      ShiftTimesKeepsNonzero(0, 8);
    }
  }

  ghost predicate DifferInOneByte(a: seq<octet>, b: seq<octet>, i: nat) {
    |a| == |b| && i < |a| && a[i] != b[i] && forall j :: 0 <= j < |a| && j != i ==> a[j] == b[j]
  }

  /** Messages of any length that differ in exactly one byte have different CRCs. */
  lemma OneByteChangeShows(a: seq<octet>, b: seq<octet>, i: nat)
    requires DifferInOneByte(a, b, i)
    ensures Crc(a) != Crc(b)
  {
    hide Crc, Xor;
    var e := XorEach(a, b);
    forall j | 0 <= j < |e|
      ensures e[j] == 0 <==> a[j] == b[j]
    {
      XorZero(a[j], b[j]);
    }
    OneByteErrorShows(e, i);
    CrcIsLinear(a, b);
    XorZero(Crc(a), Crc(b));
  }

  predicate ValidReading(r: seq<octet>) {
    |r| == 3 && Crc(r[..2]) == r[2]
  }

  /** A valid reading with any one of its three bytes corrupted, checksum included, is rejected. */
  lemma CorruptedReadingIsRejected(r: seq<octet>, bad: seq<octet>, i: nat)
    requires ValidReading(r) && DifferInOneByte(r, bad, i)
    ensures !ValidReading(bad)
  {
    hide Crc;
    assert r == r[..2] + [r[2]] && bad == bad[..2] + [bad[2]];
    ZeroMeansCodeword(r[..2], r[2]);
    ZeroMeansCodeword(bad[..2], bad[2]);
    OneByteChangeShows(r, bad, i);
  }
}
