/**
 The I420 plane copies of codec/src/decoder.cpp (strided planes packed into one tight
 buffer) and codec/src/encoder.cpp (strided source planes into strided picture planes).
 */
module I420 {
  import opened Prelude

  /** C's `int` for a positive dimension. */
  type Dimension = n: int | 0 < n < 0x8000_0000 witness 1

  /** Row `row` of a strided plane starts at `row * stride`; the last row needs only its `cols` bytes. */
  predicate Holds(length: nat, stride: nat, rows: nat, cols: nat) {
    cols <= stride && (rows > 0 ==> (rows - 1) * stride + cols <= length)
  }

  lemma RowFits(length: nat, stride: nat, rows: nat, cols: nat, row: nat)
    requires Holds(length, stride, rows, cols) && row < rows
    ensures 0 <= row * stride && row * stride + cols <= length
    ensures Holds(length, stride, row, cols)
  {
    MulMono(row, rows - 1, stride);
    if row > 0 {
      MulMono(row - 1, rows - 1, stride);
    }
  }

  /** The rows of a strided plane one after the other. */
  function Tight(plane: seq<Byte>, stride: nat, rows: nat, cols: nat): seq<Byte>
    requires Holds(|plane|, stride, rows, cols)
    decreases rows
  {
    if rows == 0 then []
    else
      RowFits(|plane|, stride, rows, cols, rows - 1);
      Tight(plane, stride, rows - 1, cols) + plane[(rows - 1) * stride..(rows - 1) * stride + cols]
  }

  lemma {:induction false} TightLength(plane: seq<Byte>, stride: nat, rows: nat, cols: nat)
    requires Holds(|plane|, stride, rows, cols)
    ensures |Tight(plane, stride, rows, cols)| == rows * cols
  {
    if rows > 0 {
      RowFits(|plane|, stride, rows, cols, rows - 1);
      TightLength(plane, stride, rows - 1, cols);
      assert rows * cols == (rows - 1) * cols + cols;
    }
  }

  /** Pixel `(row, col)` of the plane is byte `row * cols + col` of its tight form. */
  lemma {:induction false} TightPixel(plane: seq<Byte>, stride: nat, rows: nat, cols: nat, row: nat, col: nat)
    requires Holds(|plane|, stride, rows, cols) && row < rows && col < cols
    ensures 0 <= row * cols + col < |Tight(plane, stride, rows, cols)|
    ensures 0 <= row * stride + col < |plane|
    ensures Tight(plane, stride, rows, cols)[row * cols + col] == plane[row * stride + col]
    decreases rows
  {
    RowFits(|plane|, stride, rows, cols, rows - 1);
    RowFits(|plane|, stride, rows, cols, row);
    TightLength(plane, stride, rows - 1, cols);
    TightLength(plane, stride, rows, cols);
    assert rows * cols == (rows - 1) * cols + cols;
    if row < rows - 1 {
      TightPixel(plane, stride, rows - 1, cols, row, col);
    }
  }

  /** Planes that agree on the bytes the rows span have the same tight form. */
  lemma {:induction false} TightFrame(a: seq<Byte>, b: seq<Byte>, stride: nat, rows: nat, cols: nat, span: nat)
    requires Holds(|a|, stride, rows, cols) && Holds(|b|, stride, rows, cols)
    requires span <= |a| && span <= |b| && a[..span] == b[..span]
    requires rows > 0 ==> (rows - 1) * stride + cols <= span
    ensures Tight(a, stride, rows, cols) == Tight(b, stride, rows, cols)
    decreases rows
  {
    if rows > 0 {
      RowFits(|a|, stride, rows, cols, rows - 1);
      RowFits(|b|, stride, rows, cols, rows - 1);
      RowFits(span, stride, rows, cols, rows - 1);
      TightFrame(a, b, stride, rows - 1, cols, span);
      var from := (rows - 1) * stride;
      assert a[from..from + cols] == a[..span][from..from + cols];
      assert b[from..from + cols] == b[..span][from..from + cols];
    }
  }

  /** `memcpy` between two different arrays. */
  method MemCopy(dst: array<Byte>, to: nat, src: array<Byte>, from: nat, n: nat)
    requires dst != src && to + n <= dst.Length && from + n <= src.Length
    modifies dst
    ensures dst[..to] == old(dst[..to])
    ensures dst[to..to + n] == src[from..from + n]
    ensures dst[to + n..] == old(dst[to + n..])
  {
    for i := 0 to n
      invariant dst[..to] == old(dst[..to])
      invariant dst[to..to + i] == src[from..from + i]
      invariant dst[to + i..] == old(dst[to + i..])
    {
      ghost var done, rest := dst[to..to + i], dst[to + i..];
      dst[to + i] := src[from + i];
      assert dst[to..to + i + 1] == done + [src[from + i]];
      assert src[from..from + i + 1] == src[from..from + i] + [src[from + i]];
      assert dst[to + i + 1..] == rest[1..];
      assert old(dst[to + i..])[1..] == old(dst[to + i + 1..]);
    }
  }

  // ----- the decoder's packing -----

  /** `static_cast<size_t>(width) * height * 3 / 2`. */
  function BufferSize(width: Dimension, height: Dimension): nat { width * height * 3 / 2 }

  /** The product never overflows a 64-bit `size_t`. */
  lemma SizeFits(width: Dimension, height: Dimension)
    ensures width * height * 3 < TWO_64
  {
    MulMono(width, 0x7fff_ffff, height);
    MulMono(height, 0x7fff_ffff, 0x7fff_ffff);
  }

  /** The bytes the three loops write. */
  function PackedSize(width: Dimension, height: Dimension): nat {
    width * height + 2 * ((height / 2) * (width / 2))
  }

  /** They never overrun the buffer, and fill it exactly when both dimensions are even, or both are 1. */
  lemma PackedFits(width: Dimension, height: Dimension)
    ensures PackedSize(width, height) <= BufferSize(width, height)
    ensures PackedSize(width, height) == BufferSize(width, height) <==>
              (width % 2 == 0 && height % 2 == 0) || (width == 1 && height == 1)
  {
    var a, b, p, q := width / 2, height / 2, width % 2, height % 2;
    var ab := a * b;
    Expand(a, p, b, q);
    assert width == 2 * a + p && height == 2 * b + q;
    var area := width * height;
    assert b * a == ab;
    assert area == 4 * ab + (if q == 1 then 2 * a else 0) + (if p == 1 then 2 * b else 0)
                   + (if p == 1 && q == 1 then 1 else 0);
    assert PackedSize(width, height) == area + 2 * ab && BufferSize(width, height) == area * 3 / 2;
  }

  lemma Expand(a: nat, p: nat, b: nat, q: nat)
    ensures (2 * a + p) * (2 * b + q) == 4 * (a * b) + 2 * a * q + 2 * b * p + p * q
  {
    assert (2 * a + p) * (2 * b + q) == 2 * a * (2 * b + q) + p * (2 * b + q);
  }

  /** One packing loop: rows go down one after the other from `at`, through an advancing pointer. */
  method PackPlane(buf: array<Byte>, at: nat, plane: array<Byte>, stride: nat, rows: nat, cols: nat) returns (next: nat)
    requires buf != plane && Holds(plane.Length, stride, rows, cols) && at + rows * cols <= buf.Length
    modifies buf
    ensures next == at + rows * cols
    ensures buf[..at] == old(buf[..at])
    ensures buf[at..next] == Tight(plane[..], stride, rows, cols)
    ensures buf[next..] == old(buf[next..])
  {
    ghost var start, pixels := buf[..], plane[..];
    next := at;
    var row := 0;
    assert Packed(start, start, at, at, pixels, stride, 0, cols);
    hide Tight, Holds, Packed;
    while row < rows
      invariant 0 <= row <= rows && next == at + row * cols
      invariant Packed(buf[..], start, at, next, pixels, stride, row, cols)
    {
      RowFits(plane.Length, stride, rows, cols, row);
      StepFits(row, rows, cols);
      ghost var before, from := buf[..], row * stride;
      MemCopy(buf, next, plane, row * stride, cols);
      ghost var after := buf[..];
      assert after[..next] == before[..next] && after[next + cols..] == before[next + cols..];
      assert after[next..next + cols] == pixels[from..from + cols];
      RowPacked(start, before, after, at, next, pixels, stride, row, rows, cols);
      next := next + cols;
      row := row + 1;
    }
    assert Packed(buf[..], start, at, next, pixels, stride, rows, cols);
    PackedMeans(buf[..], start, at, next, pixels, stride, rows, cols);
    assert buf[..at] == buf[..][..at] && buf[at..next] == buf[..][at..next] && buf[next..] == buf[..][next..];
  }

  /** `[at, next)` of the buffer holds the first `rows` rows, and the rest is as it was. */
  ghost predicate Packed(buf: seq<Byte>, start: seq<Byte>, at: nat, next: nat,
                         plane: seq<Byte>, stride: nat, rows: nat, cols: nat) {
    && at <= next <= |start| == |buf| && Holds(|plane|, stride, rows, cols)
    && buf[..at] == start[..at] && buf[next..] == start[next..]
    && buf[at..next] == Tight(plane, stride, rows, cols)
  }

  lemma {:induction false} PackedMeans(buf: seq<Byte>, start: seq<Byte>, at: nat, next: nat,
                    plane: seq<Byte>, stride: nat, rows: nat, cols: nat)
    requires Packed(buf, start, at, next, plane, stride, rows, cols)
    ensures at <= next <= |start| == |buf| && Holds(|plane|, stride, rows, cols)
    ensures buf[..at] == start[..at] && buf[next..] == start[next..]
    ensures buf[at..next] == Tight(plane, stride, rows, cols)
  {}

  lemma RowPacked(start: seq<Byte>, before: seq<Byte>, after: seq<Byte>, at: nat, next: nat,
                  plane: seq<Byte>, stride: nat, row: nat, rows: nat, cols: nat)
    requires Packed(before, start, at, next, plane, stride, row, cols)
    requires Holds(|plane|, stride, rows, cols) && row < rows && |after| == |before|
    requires next + cols <= |after| && row * stride + cols <= |plane|
    requires after[..next] == before[..next] && after[next + cols..] == before[next + cols..]
    requires after[next..next + cols] == plane[row * stride..row * stride + cols]
    ensures Packed(after, start, at, next + cols, plane, stride, row + 1, cols)
  {
    PieceAppended(start, before, after, at, next, next + cols);
  }

  /** Writing `[next, end)` leaves what is before `at` and from `end` on, and appends to what follows `at`. */
  lemma PieceAppended(start: seq<Byte>, before: seq<Byte>, after: seq<Byte>, at: nat, next: nat, end: nat)
    requires at <= next <= end <= |start| == |before| == |after|
    requires before[..at] == start[..at] && before[next..] == start[next..]
    requires after[..next] == before[..next] && after[end..] == before[end..]
    ensures after[..at] == start[..at] && after[end..] == start[end..]
    ensures after[at..end] == before[at..next] + after[next..end]
  {
    assert after[..at] == after[..next][..at] && before[..at] == before[..next][..at];
    assert after[at..next] == after[..next][at..] && before[at..next] == before[..next][at..];
    assert before[end..] == before[next..][end - next..] && start[end..] == start[next..][end - next..];
  }

  lemma StepFits(row: nat, rows: nat, cols: nat)
    requires row < rows
    ensures row * cols + cols == (row + 1) * cols <= rows * cols
  {
    MulMono(row + 1, rows, cols);
  }

  /** Three planes as a source or picture lays them out: luma in full, chroma at half size. */
  ghost predicate Planes(width: Dimension, height: Dimension,
                         y: seq<Byte>, ys: nat, u: seq<Byte>, us: nat, v: seq<Byte>, vs: nat) {
    && Holds(|y|, ys, height, width)
    && Holds(|u|, us, height / 2, width / 2)
    && Holds(|v|, vs, height / 2, width / 2)
  }

  /** The pixels of the three planes, Y then U then V, each tightly packed. */
  ghost function Pixels(width: Dimension, height: Dimension,
                        y: seq<Byte>, ys: nat, u: seq<Byte>, us: nat, v: seq<Byte>, vs: nat): seq<Byte>
    requires Planes(width, height, y, ys, u, us, v, vs)
  {
    Tight(y, ys, height, width) + Tight(u, us, height / 2, width / 2) + Tight(v, vs, height / 2, width / 2)
  }

  /** The three packing loops, into a buffer that has room for what they write. */
  method PackPlanes(width: Dimension, height: Dimension, buf: array<Byte>,
                    y: array<Byte>, ys: nat, u: array<Byte>, us: nat, v: array<Byte>, vs: nat)
    requires buf !in {y, u, v} && PackedSize(width, height) <= buf.Length
    requires Planes(width, height, y[..], ys, u[..], us, v[..], vs)
    modifies buf
    ensures buf[..PackedSize(width, height)] == Pixels(width, height, y[..], ys, u[..], us, v[..], vs)
    ensures buf[PackedSize(width, height)..] == old(buf[PackedSize(width, height)..])
  {
    assert PackedSize(width, height) == height * width + 2 * ((height / 2) * (width / 2));
    hide PackedSize, Tight, Holds;
    ghost var b0 := buf[..];
    var toU := PackPlane(buf, 0, y, ys, height, width);
    ghost var b1 := buf[..];
    assert buf[0..toU] == b1[..toU] && buf[toU..] == b1[toU..];
    var toV := PackPlane(buf, toU, u, us, height / 2, width / 2);
    ghost var b2 := buf[..];
    assert buf[toU..toV] == b2[toU..toV] && buf[toV..] == b2[toV..];
    var end := PackPlane(buf, toV, v, vs, height / 2, width / 2);
    ghost var b3 := buf[..];
    assert buf[toV..end] == b3[toV..end] && buf[end..] == b3[end..];
    ThreePieces(b0, b1, b2, b3, toU, toV, end);
  }

  /** Three writes behind one another leave what they wrote, and the rest as it was. */
  lemma ThreePieces(b0: seq<Byte>, b1: seq<Byte>, b2: seq<Byte>, b3: seq<Byte>, i: nat, j: nat, k: nat)
    requires i <= j <= k <= |b0| == |b1| == |b2| == |b3|
    requires b1[i..] == b0[i..]
    requires b2[..i] == b1[..i] && b2[j..] == b1[j..]
    requires b3[..j] == b2[..j] && b3[k..] == b2[k..]
    ensures b3[..k] == b1[..i] + b2[i..j] + b3[j..k]
    ensures b3[k..] == b0[k..]
  {
    assert b3[..k] == b3[..j] + b3[j..k];
    assert b2[..j] == b2[..i] + b2[i..j];
    assert b2[k..] == b2[j..][k - j..] && b1[k..] == b1[j..][k - j..];
    assert b1[k..] == b1[i..][k - i..] && b0[k..] == b0[i..][k - i..];
  }

  /** The decoder's output: a buffer of the promised size that starts with exactly the pixels. */
  method Pack(width: Dimension, height: Dimension,
              y: array<Byte>, ys: nat, u: array<Byte>, us: nat, v: array<Byte>, vs: nat)
    returns (buf: array<Byte>)
    requires Planes(width, height, y[..], ys, u[..], us, v[..], vs)
    ensures fresh(buf) && buf.Length == BufferSize(width, height)
    ensures PackedSize(width, height) <= buf.Length
    ensures buf[..PackedSize(width, height)] == Pixels(width, height, y[..], ys, u[..], us, v[..], vs)
    ensures width % 2 == 0 && height % 2 == 0 ==> buf[..] == Pixels(width, height, y[..], ys, u[..], us, v[..], vs)
  {
    PackedFits(width, height);
    buf := new Byte[width * height * 3 / 2];
    assert buf.Length == BufferSize(width, height);
    hide BufferSize, PackedSize, Tight, Holds;
    PackPlanes(width, height, buf, y, ys, u, us, v, vs);
    assert buf[..buf.Length] == buf[..];
  }

  // ----- the encoder's copy -----

  /** The first `rows` rows of two planes show the same pixels. */
  ghost predicate SameRows(p: seq<Byte>, ps: nat, q: seq<Byte>, qs: nat, rows: nat, cols: nat) {
    && Holds(|p|, ps, rows, cols) && Holds(|q|, qs, rows, cols)
    && Tight(p, ps, rows, cols) == Tight(q, qs, rows, cols)
  }

  /** The bytes that belong to no row. */
  ghost predicate InNoRow(k: nat, stride: nat, rows: nat, cols: nat) {
    forall row: nat | row < rows :: !(row * stride <= k < row * stride + cols)
  }

  /** Two contents of one plane that differ at most in the bytes of its rows. */
  ghost predicate SamePadding(a: seq<Byte>, b: seq<Byte>, stride: nat, rows: nat, cols: nat) {
    && |a| == |b|
    && forall k | 0 <= k < |a| && InNoRow(k, stride, rows, cols) :: a[k] == b[k]
  }

  /** After row `row` of the picture plane became the source's, one more row agrees. */
  lemma RowCopied(before: seq<Byte>, after: seq<Byte>, ds: nat, src: seq<Byte>, ss: nat, rows: nat, cols: nat, row: nat)
    requires SameRows(before, ds, src, ss, row, cols) && row < rows && |after| == |before|
    requires Holds(|before|, ds, rows, cols) && Holds(|src|, ss, rows, cols)
    requires row * ds + cols <= |before| && row * ss + cols <= |src|
    requires after[..row * ds] == before[..row * ds]
    requires after[row * ds..row * ds + cols] == src[row * ss..row * ss + cols]
    ensures SameRows(after, ds, src, ss, row + 1, cols)
  {
    RowFits(|after|, ds, rows, cols, row);
    if row > 0 {
      assert row * ds == (row - 1) * ds + ds;
    }
    TightFrame(after, before, ds, row, cols, row * ds);
  }

  lemma PaddingKept(before: seq<Byte>, after: seq<Byte>, stride: nat, rows: nat, cols: nat, row: nat)
    requires row < rows && |after| == |before| && row * stride + cols <= |before|
    requires after[..row * stride] == before[..row * stride]
    requires after[row * stride + cols..] == before[row * stride + cols..]
    ensures SamePadding(after, before, stride, rows, cols)
  {
    var from, to := row * stride, row * stride + cols;
    forall k | 0 <= k < |after| && InNoRow(k, stride, rows, cols) ensures after[k] == before[k] {
      assert !(row * stride <= k < row * stride + cols);
      if k < from {
        assert after[..from][k] == before[..from][k];
      } else {
        assert after[to..][k - to] == before[to..][k - to];
      }
    }
  }

  lemma PaddingStaysKept(a: seq<Byte>, b: seq<Byte>, c: seq<Byte>, stride: nat, rows: nat, cols: nat)
    requires SamePadding(a, b, stride, rows, cols) && SamePadding(b, c, stride, rows, cols)
    ensures SamePadding(a, c, stride, rows, cols)
  {}

  /** One row of the encoder's copy, after which one more row of the picture plane is the source's. */
  method CopyRow(dst: array<Byte>, ds: nat, src: array<Byte>, ss: nat,
                 rows: nat, cols: nat, row: nat, ghost first: seq<Byte>)
    requires dst != src && row < rows
    requires Holds(dst.Length, ds, rows, cols) && Holds(src.Length, ss, rows, cols)
    requires SameRows(dst[..], ds, src[..], ss, row, cols)
    requires SamePadding(dst[..], first, ds, rows, cols)
    modifies dst
    ensures SameRows(dst[..], ds, src[..], ss, row + 1, cols)
    ensures SamePadding(dst[..], first, ds, rows, cols)
  {
    RowFits(dst.Length, ds, rows, cols, row);
    RowFits(src.Length, ss, rows, cols, row);
    hide SameRows, SamePadding, Holds;
    ghost var before := dst[..];
    MemCopy(dst, row * ds, src, row * ss, cols);
    ghost var after, to, from := dst[..], row * ds, row * ss;
    assert after[..to] == before[..to] && after[to + cols..] == before[to + cols..];
    assert after[to..to + cols] == src[..][from..from + cols];
    RowCopied(before, after, ds, src[..], ss, rows, cols, row);
    PaddingKept(before, after, ds, rows, cols, row);
    PaddingStaysKept(after, before, first, ds, rows, cols);
  }

  lemma NoRowsYet(p: seq<Byte>, ps: nat, q: seq<Byte>, qs: nat, rows: nat, cols: nat)
    requires Holds(|p|, ps, rows, cols) && Holds(|q|, qs, rows, cols)
    ensures SameRows(p, ps, q, qs, 0, cols) && SamePadding(p, p, ps, rows, cols)
  {}

  /**
   `nd_encoder_encode` up to the encoder call: afterwards the picture planes show the
   source's pixels, and the padding beside the rows is untouched.
   */
  method FillPicture(width: Dimension, height: Dimension,
                     py: array<Byte>, pys: nat, pu: array<Byte>, pus: nat, pv: array<Byte>, pvs: nat,
                     y: array<Byte>, ys: nat, u: array<Byte>, us: nat, v: array<Byte>, vs: nat)
    requires py != pu && pu != pv && py != pv
    requires {y, u, v} !! {py, pu, pv}
    requires Planes(width, height, py[..], pys, pu[..], pus, pv[..], pvs)
    requires Planes(width, height, y[..], ys, u[..], us, v[..], vs)
    modifies py, pu, pv
    ensures Pixels(width, height, py[..], pys, pu[..], pus, pv[..], pvs)
         == Pixels(width, height, y[..], ys, u[..], us, v[..], vs)
    ensures SamePadding(py[..], old(py[..]), pys, height, width)
    ensures SamePadding(pu[..], old(pu[..]), pus, height / 2, width / 2)
    ensures SamePadding(pv[..], old(pv[..]), pvs, height / 2, width / 2)
  {
    NoRowsYet(py[..], pys, y[..], ys, height, width);
    NoRowsYet(pu[..], pus, u[..], us, height / 2, width / 2);
    NoRowsYet(pv[..], pvs, v[..], vs, height / 2, width / 2);
    hide Holds, Tight, SameRows, SamePadding;
    var row := 0;
    while row < height
      invariant 0 <= row <= height
      invariant pu[..] == old(pu[..]) && pv[..] == old(pv[..])
      invariant SameRows(py[..], pys, y[..], ys, row, width)
      invariant SamePadding(py[..], old(py[..]), pys, height, width)
    {
      CopyRow(py, pys, y, ys, height, width, row, old(py[..]));
      row := row + 1;
    }
    ghost var luma := py[..];
    var half := 0;
    while half < height / 2
      invariant 0 <= half <= height / 2
      invariant py[..] == luma
      invariant SameRows(pu[..], pus, u[..], us, half, width / 2)
      invariant SameRows(pv[..], pvs, v[..], vs, half, width / 2)
      invariant SamePadding(pu[..], old(pu[..]), pus, height / 2, width / 2)
      invariant SamePadding(pv[..], old(pv[..]), pvs, height / 2, width / 2)
    {
      CopyRow(pu, pus, u, us, height / 2, width / 2, half, old(pu[..]));
      CopyRow(pv, pvs, v, vs, height / 2, width / 2, half, old(pv[..]));
      half := half + 1;
    }
    RowsAgree(py[..], pys, y[..], ys, height, width);
    RowsAgree(pu[..], pus, u[..], us, height / 2, width / 2);
    RowsAgree(pv[..], pvs, v[..], vs, height / 2, width / 2);
  }

  lemma {:induction false} RowsAgree(p: seq<Byte>, ps: nat, q: seq<Byte>, qs: nat, rows: nat, cols: nat)
    requires SameRows(p, ps, q, qs, rows, cols)
    ensures Holds(|p|, ps, rows, cols) && Holds(|q|, qs, rows, cols)
    ensures Tight(p, ps, rows, cols) == Tight(q, qs, rows, cols)
  {}

  /** Packing what the encoder's copy laid out gives the source's pixels, whatever the strides on either side. */
  method RepackSource(width: Dimension, height: Dimension,
                      py: array<Byte>, pys: nat, pu: array<Byte>, pus: nat, pv: array<Byte>, pvs: nat,
                      y: array<Byte>, ys: nat, u: array<Byte>, us: nat, v: array<Byte>, vs: nat)
    returns (buf: array<Byte>)
    requires py != pu && pu != pv && py != pv
    requires {y, u, v} !! {py, pu, pv}
    requires Planes(width, height, py[..], pys, pu[..], pus, pv[..], pvs)
    requires Planes(width, height, y[..], ys, u[..], us, v[..], vs)
    modifies py, pu, pv
    ensures PackedSize(width, height) <= buf.Length == BufferSize(width, height)
    ensures buf[..PackedSize(width, height)] == Pixels(width, height, y[..], ys, u[..], us, v[..], vs)
  {
    FillPicture(width, height, py, pys, pu, pus, pv, pvs, y, ys, u, us, v, vs);
    buf := Pack(width, height, py, pys, pu, pus, pv, pvs);
  }
}
