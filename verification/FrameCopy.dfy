/** Packing a decoded YUV 4:2:0 picture with padded lines into one contiguous buffer. */
module FrameCopy {
  import opened Bytes

  /** A plane of a decoded picture: samples with `lineSize` bytes from one row to the next. */
  datatype Plane = Plane(data: seq<byte>, lineSize: nat)

  /** The plane holds `rows` rows of `width` samples. */
  predicate Holds(p: Plane, rows: nat, width: nat) {
    width <= p.lineSize && (rows == 0 || (rows - 1) * p.lineSize + width <= |p.data|)
  }

  function Row(p: Plane, i: nat, width: nat): (row: seq<byte>)
    requires i * p.lineSize + width <= |p.data|
    ensures |row| == width
  {
    p.data[i * p.lineSize..i * p.lineSize + width]
  }

  lemma RowFits(p: Plane, rows: nat, width: nat, i: nat)
    requires Holds(p, rows, width) && i < rows
    ensures i * p.lineSize + width <= |p.data|
  {
    assert i * p.lineSize <= (rows - 1) * p.lineSize;
  }

  lemma FewerRows(p: Plane, rows: nat, width: nat, n: nat)
    requires Holds(p, rows, width) && n <= rows
    ensures Holds(p, n, width)
  {
    if n > 0 {
      RowFits(p, rows, width, n - 1);
    }
  }

  /** The rows of a plane, one after the other, without padding. */
  function Packed(p: Plane, rows: nat, width: nat): (s: seq<byte>)
    requires Holds(p, rows, width)
    ensures |s| == rows * width
    decreases rows
  {
    if rows == 0 then []
    else
      FewerRows(p, rows, width, rows - 1);
      Packed(p, rows - 1, width) + Row(p, rows - 1, width)
  }

  /** Sample (i, j) of the plane is at position i * width + j of the packed form. */
  lemma {:induction false} PackedAt(p: Plane, rows: nat, width: nat, i: nat, j: nat)
    requires Holds(p, rows, width) && i < rows && j < width
    ensures i * width + j < rows * width && i * p.lineSize + j < |p.data|
    ensures Packed(p, rows, width)[i * width + j] == p.data[i * p.lineSize + j]
    decreases rows
  {
    hide Holds, Packed;
    PackedMore(p, rows, width, rows - 1);
    RowFits(p, rows, width, i);
    Below(i, rows, width, j);
    if i < rows - 1 {
      PackedAt(p, rows - 1, width, i, j);
    } else {
      InLastRow(Packed(p, rows - 1, width), Row(p, i, width), i * width, j);
    }
  }

  lemma InLastRow(done: seq<byte>, row: seq<byte>, at: nat, j: nat)
    requires |done| == at && j < |row|
    ensures (done + row)[at + j] == row[j]
  {
  }

  lemma Below(i: nat, rows: nat, width: nat, j: nat)
    requires i < rows && j < width
    ensures i * width + j < rows * width
    ensures i < rows - 1 ==> i * width + j < (rows - 1) * width
  {
    assert (i + 1) * width <= rows * width;
    if i < rows - 1 {
      assert (i + 1) * width <= (rows - 1) * width;
    }
  }

  /** Every position of the packed form is that of a sample within the picture. */
  lemma PackedPosition(rows: nat, width: nat, k: nat)
    requires k < rows * width
    ensures width > 0 && k / width < rows && k == k / width * width + k % width
  {
    var i := k / width;
    assert k == i * width + k % width;
    RowOfPosition(rows, width, i, k);
  }

  /** No two samples share a position. */
  lemma PositionIsUnique(width: nat, i: nat, j: nat, k: nat, l: nat)
    requires j < width && l < width && i * width + j == k * width + l
    ensures i == k && j == l
  {
    if i < k {
      MoreRows(i + 1, k, width);
    } else if k < i {
      MoreRows(k + 1, i, width);
    }
  }

  lemma RowOfPosition(rows: nat, width: nat, i: nat, k: nat)
    requires i * width <= k < rows * width
    ensures i < rows
  {
    if rows <= i {
      MoreRows(rows, i, width);
    }
  }

  lemma MoreRows(m: nat, n: nat, width: nat)
    requires m <= n
    ensures m * width <= n * width
  {
  }

  lemma {:induction false} PackedUnpadded(p: Plane, rows: nat, width: nat)
    requires Holds(p, rows, width) && p.lineSize == width
    ensures rows * width <= |p.data| && Packed(p, rows, width) == p.data[..rows * width]
    decreases rows
  {
    if rows > 0 {
      FewerRows(p, rows, width, rows - 1);
      PackedUnpadded(p, rows - 1, width);
      var a, b := (rows - 1) * width, rows * width;
      assert b == a + width;
      assert p.data[..a] + p.data[a..b] == p.data[..b];
    }
  }

  /** memcpy of `n` bytes. */
  method CopyRow(dst: array<byte>, at: nat, src: seq<byte>, from: nat, n: nat)
    requires at + n <= dst.Length && from + n <= |src|
    modifies dst
    ensures dst[..] == old(dst[..at]) + src[from..from + n] + old(dst[at + n..])
  {
    for k := 0 to n
      invariant dst[..at] == old(dst[..at])
      invariant dst[at..at + k] == src[from..from + k]
      invariant dst[at + k..] == old(dst[at + k..])
    {
      dst[at + k] := src[from + k];
    }
    assert dst[..] == dst[..at] + dst[at..at + n] + dst[at + n..];
  }

  /** One of the row loops: the plane, packed, lands at `base`; nothing else is written. */
  method CopyPlane(dst: array<byte>, base: nat, p: Plane, rows: nat, width: nat)
    requires Holds(p, rows, width) && base + rows * width <= dst.Length
    modifies dst
    ensures dst[..] == old(dst[..base]) + Packed(p, rows, width) + old(dst[base + rows * width..])
  {
    hide Packed, Holds, Row;
    PackedNone(p, rows, width);
    ghost var start, done := dst[..], Packed(p, 0, width);
    assert start[..base] + [] + start[base..] == start;
    for i := 0 to rows
      invariant Holds(p, i, width) && done == Packed(p, i, width) && |done| == i * width
      invariant base + |done| <= dst.Length
      invariant dst[..] == start[..base] + done + start[base + |done|..]
    {
      RowFits(p, rows, width, i);
      RowOffsets(base, rows, width, i, dst.Length);
      PackedMore(p, rows, width, i);
      CopyNextRow(dst, base, p, width, i, start, done);
      done := done + Row(p, i, width);
    }
  }

  /** One turn of a row loop. */
  method CopyNextRow(dst: array<byte>, base: nat, p: Plane, width: nat, i: nat, ghost start: seq<byte>, ghost done: seq<byte>)
    requires i * p.lineSize + width <= |p.data| && |done| == i * width
    requires base + |done| + width <= dst.Length == |start|
    requires dst[..] == start[..base] + done + start[base + |done|..]
    modifies dst
    ensures dst[..] == start[..base] + (done + Row(p, i, width)) + start[base + |done| + width..]
  {
    CopyRow(dst, base + i * width, p.data, i * p.lineSize, width);
    NextRow(start, base, done, Row(p, i, width), dst[..]);
  }

  lemma PackedNone(p: Plane, rows: nat, width: nat)
    requires Holds(p, rows, width)
    ensures Holds(p, 0, width) && Packed(p, 0, width) == []
  {
  }

  lemma PackedMore(p: Plane, rows: nat, width: nat, i: nat)
    requires Holds(p, rows, width) && i < rows
    ensures Holds(p, i, width) && Holds(p, i + 1, width) && i * p.lineSize + width <= |p.data|
    ensures Packed(p, i + 1, width) == Packed(p, i, width) + Row(p, i, width)
  {
    RowFits(p, rows, width, i);
    FewerRows(p, rows, width, i + 1);
    FewerRows(p, rows, width, i);
  }

  lemma RowOffsets(base: nat, rows: nat, width: nat, i: nat, length: nat)
    requires i < rows && base + rows * width <= length
    ensures (i + 1) * width == i * width + width && base + (i + 1) * width <= length
  {
    assert (i + 1) * width <= rows * width;
  }

  lemma NextRow(start: seq<byte>, base: nat, done: seq<byte>, row: seq<byte>, now: seq<byte>)
    requires base + |done| + |row| <= |start|
    requires var mid := start[..base] + done + start[base + |done|..];
      now == mid[..base + |done|] + row + mid[base + |done| + |row|..]
    ensures now == start[..base] + (done + row) + start[base + |done| + |row|..]
  {
    var mid := start[..base] + done + start[base + |done|..];
    assert mid[..base + |done|] == start[..base] + done;
    assert mid[base + |done| + |row|..] == start[base + |done| + |row|..];
  }

  /** A decoded picture of any size; odd sizes lose the last chroma column or row. */
  predicate ValidFrame(w: nat, h: nat, y: Plane, u: Plane, v: Plane) {
    Holds(y, h, w) && Holds(u, h / 2, w / 2) && Holds(v, h / 2, w / 2)
  }

  function YSize(w: nat, h: nat): nat { h * w }

  function UvSize(w: nat, h: nat): nat { h / 2 * (w / 2) }

  /** The three loops of the Pi node: every byte of the new buffer is the right plane sample. */
  method PackFrame(w: nat, h: nat, y: Plane, u: Plane, v: Plane) returns (buffer: array<byte>)
    requires ValidFrame(w, h, y, u, v)
    ensures fresh(buffer)
    ensures buffer[..] == Packed(y, h, w) + Packed(u, h / 2, w / 2) + Packed(v, h / 2, w / 2)
  {
    var ySize, uvSize := YSize(w, h), UvSize(w, h);
    buffer := new byte[ySize + uvSize * 2](_ => 0);
    CopyPlane(buffer, 0, y, h, w);
    assert buffer[..ySize] == Packed(y, h, w);
    CopyPlane(buffer, ySize, u, h / 2, w / 2);
    assert buffer[..ySize + uvSize] == Packed(y, h, w) + Packed(u, h / 2, w / 2);
    CopyPlane(buffer, ySize + uvSize, v, h / 2, w / 2);
    assert buffer[ySize + uvSize + uvSize..] == [];
  }

  /** The three flat copies of the Hanwha node. */
  method FlatFrame(w: nat, h: nat, y: Plane, u: Plane, v: Plane) returns (buffer: array<byte>)
    requires YSize(w, h) <= |y.data| && UvSize(w, h) <= |u.data| && UvSize(w, h) <= |v.data|
    ensures fresh(buffer)
    ensures buffer[..] == y.data[..YSize(w, h)] + u.data[..UvSize(w, h)] + v.data[..UvSize(w, h)]
  {
    var ySize, uvSize := YSize(w, h), UvSize(w, h);
    buffer := new byte[ySize + uvSize * 2](_ => 0);
    CopyRow(buffer, 0, y.data, 0, ySize);
    assert buffer[..ySize] == y.data[..ySize];
    CopyRow(buffer, ySize, u.data, 0, uvSize);
    assert buffer[..ySize + uvSize] == y.data[..ySize] + u.data[..uvSize];
    CopyRow(buffer, ySize + uvSize, v.data, 0, uvSize);
    assert buffer[ySize + uvSize + uvSize..] == [];
  }

  /** With unpadded lines the row loops and the flat copies give the same buffer. */
  lemma UnpaddedFramesAgree(w: nat, h: nat, y: Plane, u: Plane, v: Plane)
    requires ValidFrame(w, h, y, u, v)
    requires y.lineSize == w && u.lineSize == w / 2 && v.lineSize == w / 2
    ensures YSize(w, h) <= |y.data| && UvSize(w, h) <= |u.data| && UvSize(w, h) <= |v.data|
    ensures Packed(y, h, w) + Packed(u, h / 2, w / 2) + Packed(v, h / 2, w / 2) ==
      y.data[..YSize(w, h)] + u.data[..UvSize(w, h)] + v.data[..UvSize(w, h)]
  {
    PackedUnpadded(y, h, w);
    PackedUnpadded(u, h / 2, w / 2);
    PackedUnpadded(v, h / 2, w / 2);
  }
}
