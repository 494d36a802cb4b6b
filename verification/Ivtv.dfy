/** The Hauppauge PVR 350 driver: linear YV12 frames are rewritten into the macroblock
    surface the decoder reads.  `& 15` and `>> 4` are written `% 16` and `/ 16`. */
module Ivtv {
  import opened Arith
  import opened Tiling

  const MAX_WIDTH: nat := 720
  const MAX_HEIGHT: nat := 576
  const LUMA_BYTES: nat := MAX_HEIGHT * MAX_WIDTH

  /** The single plane that de_macro_uv tiles: U and V samples alternating. */
  function Interleaved(us: seq<Byte>, vs: seq<Byte>): (s: seq<Byte>)
    requires |us| == |vs|
    ensures |s| == 2 * |us|
  {
    seq(2 * |us|, k requires 0 <= k < 2 * |us| => if k % 2 == 0 then us[k / 2] else vs[k / 2])
  }

  /** The interleaved plane read from two regions of one buffer, as long as both last. */
  function Chroma(s: seq<Byte>, u: nat, v: nat): seq<Byte>
    requires u <= |s| && v <= |s|
  {
    var n := if u < v then |s| - v else |s| - u;
    Interleaved(s[u..u + n], s[v..v + n])
  }

  lemma ChromaSlice(s: seq<Byte>, u: nat, v: nat, idx: nat, n: nat)
    requires u <= |s| && v <= |s| && 2 * (idx + n) <= |Chroma(s, u, v)|
    ensures u + idx + n <= |s| && v + idx + n <= |s|
    ensures Chroma(s, u, v)[2 * idx..2 * idx + 2 * n] == Interleaved(s[u + idx..u + idx + n], s[v + idx..v + idx + n])
  {
    var c, p := Chroma(s, u, v), Interleaved(s[u + idx..u + idx + n], s[v + idx..v + idx + n]);
    forall k: nat | k < 2 * n ensures c[2 * idx + k] == p[k] {
      Quotient(2 * idx + k, 2, idx + k / 2, k % 2);
      var i := idx + k / 2;
      assert c[2 * idx + k] == if k % 2 == 0 then s[u + i] else s[v + i];
      assert p[k] == if k % 2 == 0 then s[u + i] else s[v + i];
    }
  }

  method Memcpy(src: array<Byte>, from: nat, dst: array<Byte>, to: nat, n: nat)
    requires src != dst
    requires from + n <= src.Length && to + n <= dst.Length
    modifies dst
    ensures dst[..] == Overwrite(old(dst[..]), to, src[from..from + n])
  {
    var i := 0;
    while i < n
      invariant i <= n
      invariant forall k :: 0 <= k < dst.Length ==>
                  dst[k] == if to <= k < to + i then src[from + (k - to)] else old(dst[k])
    {
      dst[to + i] := src[from + i];
      i := i + 1;
    }
  }

  /** The tail sizes the driver takes from the low bits are what is left at the edge. */
  lemma Tail(extent: nat, at: nat)
    requires at % 16 == 0 && at < extent < at + 16
    ensures extent % 16 == extent - at
  {}

  lemma ClippedWidth(r: Rect, originX: nat, x: nat, w: nat)
    requires x % 16 == 0 && x < w && r.right == originX + w
    ensures BlockWidth(r, originX + x) == if x + 16 > w then w % 16 else 16
  {}

  /** The pointer arithmetic of the block loop lands on the address map. */
  lemma BlockPointer(originX: nat, originY: nat, x: nat, y: nat)
    requires originX % 16 == 0 && originY % 16 == 0 && x % 16 == 0 && y % 16 == 0
    ensures 720 * y + 720 * originY + 256 * (originX / 16) + x * 16 == Address(originX + x, originY + y)
  {
    Quotient(originY + y, 16, originY / 16 + y / 16, 0);
    Quotient(originX + x, 16, originX / 16 + x / 16, 0);
  }

  /** The source index of line `i` of a block. */
  function SourceIndex(from: nat, originX: nat, originY: nat, x: nat, y: nat, i: nat, width: nat): nat {
    from + originX + x + (y + i) * width + originY * width
  }

  lemma SourceLine(from: nat, originX: nat, originY: nat, x: nat, y: nat, i: nat, width: nat)
    ensures SourceIndex(from, originX, originY, x, y, i, width)
         == from + originX + x + RowStart(originY + y, width) + RowStart(i, width)
  {
    hide RowStart;
    RowStartIsProduct(originY + y, width);
    RowStartIsProduct(i, width);
  }

  /** The innermost loop of de_macro_y: one block, line by line. */
  method CopyBlockY(src: array<Byte>, from: nat, dst: array<Byte>, to: nat, srcX: nat, srcY: nat,
                    x: nat, y: nat, width: nat, wSize: nat, hSize: nat)
    requires src != dst && from <= src.Length
    requires LinesFit(dst.Length, to, src.Length - from, srcX + x + RowStart(srcY + y, width), width, wSize, hSize)
    modifies dst
    ensures dst[..] == CopyLines(old(dst[..]), to, src[from..],
                                 srcX + x + RowStart(srcY + y, width), width, wSize, hSize)
  {
    hide RowStart, SourceIndex, CopyLines, Overwrite, LinesFit;
    ghost var plane, first := src[from..], srcX + x + RowStart(srcY + y, width);
    LinesStart(dst[..], to, plane, first, width, wSize);
    var dst2 := to;
    var i := 0;
    while i < hSize
      invariant i <= hSize && src[from..] == plane
      invariant dst2 == to + 16 * i
      invariant dst[..] == CopyLines(old(dst[..]), to, plane, first, width, wSize, i)
    {
      SourceLine(from, srcX, srcY, x, y, i, width);
      var s := SourceIndex(from, srcX, srcY, x, y, i, width);
      ghost var p := first + RowStart(i, width);
      LinesStep(old(dst[..]), to, plane, first, width, wSize, hSize, i);
      assert src[s..s + wSize] == plane[p..p + wSize];
      Memcpy(src, s, dst, dst2, wSize);
      dst2 := dst2 + 16;
      i := i + 1;
    }
  }

  /** The block loop of de_macro_y: one strip, block by block. */
  method CopyStripY(src: array<Byte>, from: nat, dst: array<Byte>, base: nat, srcX: nat, srcY: nat,
                    y: nat, w: nat, width: nat, hSize: nat, ghost r: Rect)
    requires src != dst && from <= src.Length
    requires Readable(src.Length - from, width, r) && Room(dst.Length, base, r) && r.right <= SURFACE_WIDTH
    requires r.left == srcX && r.right == srcX + w && srcX % 16 == 0
    requires r.top == srcY && srcY % 16 == 0 && y % 16 == 0 && srcY + y < r.bottom && hSize == BlockHeight(r, srcY + y)
    modifies dst
    ensures dst[..] == CopyBlocks(old(dst[..]), base, src[from..], width, r, srcY + y, BlocksAcross(r))
  {
    hide Address, Column, Row, Room, Readable, LinesFit, CopyLines, RowStart, BlockHeight, BlockWidth;
    ghost var plane, d1 := src[from..], dst[..];
    var wTail := w % 16;
    var x := 0;
    ghost var blocks := 0;
    while x < w
      invariant x == 16 * blocks && src[from..] == plane
      invariant blocks > 0 ==> srcX + 16 * (blocks - 1) < r.right
      invariant dst[..] == CopyBlocks(d1, base, plane, width, r, srcY + y, blocks)
    {
      var wSize: nat;
      if x + 16 > w {
        wSize := wTail;
      } else {
        wSize := 16;
      }
      ClippedWidth(r, srcX, x, w);
      var dst2 := base + 720 * y + 720 * srcY + 256 * (srcX / 16) + x * 16;
      assert dst2 == base + Address(srcX + x, srcY + y) by {
        BlockPointer(srcX, srcY, x, y);
      }
      BlocksStep(d1, base, plane, width, r, srcY + y, blocks, srcX + x);
      BlockFits(dst.Length, base, src.Length - from, width, r, srcX + x, srcY + y);
      CopyBlockY(src, from, dst, dst2, srcX, srcY, x, y, width, wSize, hSize);
      x, blocks := x + 16, blocks + 1;
    }
  }

  method DeMacroY(src: array<Byte>, from: nat, dst: array<Byte>, base: nat,
                  windowW: nat, windowH: nat, windowX: nat, windowY: nat, width: nat)
    requires src != dst && from <= src.Length
    requires windowX + windowW <= SURFACE_WIDTH
    requires var r := Window(windowX, windowY, windowW, windowH);
             Readable(src.Length - from, width, r) && Room(dst.Length, base, r)
    modifies dst
    ensures IsTiled(dst[..], old(dst[..]), base, src[from..], width, Window(windowX, windowY, windowW, windowH))
  {
    hide Address, Column, Row, Room, Readable, IsTiled, CopyBlocks;
    var w, h, srcX, srcY := windowW, windowH, windowX, windowY;
    ghost var r, plane, d0 := Window(srcX, srcY, w, h), src[from..], dst[..];
    // Round the origin, and make the window larger by as much
    if srcX % 16 != 0 {
      w := w + srcX % 16;
      srcX := srcX - srcX % 16;
    }
    if srcY % 16 != 0 {
      h := h + srcY % 16;
      srcY := srcY - srcY % 16;
    }
    var hTail := h % 16;
    var hSize := 16;
    var y := 0;
    ghost var strips := 0;
    while y < h
      invariant y == 16 * strips && (y < h ==> hSize == 16)
      invariant src[from..] == plane
      invariant strips > 0 ==> srcY + 16 * (strips - 1) < r.bottom
      invariant dst[..] == CopyStrips(d0, base, plane, width, r, strips)
    {
      if y + 16 > h {
        Tail(h, y);
        hSize := hTail;
      }
      CopyStripY(src, from, dst, base, srcX, srcY, y, w, width, hSize, r);
      y, strips := y + 16, strips + 1;
    }
    TraversalTiles(d0, base, plane, width, r, strips);
  }

  // ----- de_macro_uv

  /** The first `n` pixel pairs are written and nothing else has changed. */
  ghost predicate PairsWritten(d: seq<Byte>, d0: seq<Byte>, p: nat, us: seq<Byte>, vs: seq<Byte>, n: nat)
    requires |us| == |vs| && n <= |us|
  {
    && |d| == |d0|
    && forall k: nat | k < |d| :: d[k] == if p <= k < p + 2 * n then Interleaved(us, vs)[k - p] else d0[k]
  }

  lemma PairStep(d: seq<Byte>, d0: seq<Byte>, p: nat, us: seq<Byte>, vs: seq<Byte>, n: nat)
    requires |us| == |vs| && n < |us| && p + 2 * |us| <= |d0|
    requires PairsWritten(d, d0, p, us, vs, n)
    ensures PairsWritten(d[p + 2 * n := us[n]][p + 2 * n + 1 := vs[n]], d0, p, us, vs, n + 1)
  {
    var line := Interleaved(us, vs);
    assert line[2 * n] == us[n] && line[2 * n + 1] == vs[n];
  }

  lemma PairsAreLine(d: seq<Byte>, d0: seq<Byte>, p: nat, us: seq<Byte>, vs: seq<Byte>)
    requires |us| == |vs| && p + 2 * |us| <= |d0| && PairsWritten(d, d0, p, us, vs, |us|)
    ensures d == Overwrite(d0, p, Interleaved(us, vs))
  {
    var t := Overwrite(d0, p, Interleaved(us, vs));
    forall k: nat | k < |d| ensures d[k] == t[k] {}
  }

  method PutPixel(dst: array<Byte>, p: nat, u: Byte, v: Byte)
    requires p + 2 <= dst.Length
    modifies dst
    ensures dst[..] == old(dst[..])[p := u][p + 1 := v]
  {
    dst[p] := u;
    dst[p + 1] := v;
  }

  /** The unrolled path: eight pixels, written one after the other. */
  method EightPixels(src: array<Byte>, u: nat, v: nat, dst: array<Byte>, p: nat)
    requires src != dst && u + 8 <= src.Length && v + 8 <= src.Length && p + 16 <= dst.Length
    modifies dst
    ensures dst[..] == Overwrite(old(dst[..]), p, Interleaved(src[u..u + 8], src[v..v + 8]))
  {
    hide PairsWritten, Interleaved;
    ghost var us, vs, d0 := src[u..u + 8], src[v..v + 8], dst[..];
    NothingWritten(d0, p, us, vs);
    PairStep(dst[..], d0, p, us, vs, 0);
    PutPixel(dst, p + 0, src[u + 0], src[v + 0]);
    PairStep(dst[..], d0, p, us, vs, 1);
    PutPixel(dst, p + 2, src[u + 1], src[v + 1]);
    PairStep(dst[..], d0, p, us, vs, 2);
    PutPixel(dst, p + 4, src[u + 2], src[v + 2]);
    PairStep(dst[..], d0, p, us, vs, 3);
    PutPixel(dst, p + 6, src[u + 3], src[v + 3]);
    PairStep(dst[..], d0, p, us, vs, 4);
    PutPixel(dst, p + 8, src[u + 4], src[v + 4]);
    PairStep(dst[..], d0, p, us, vs, 5);
    PutPixel(dst, p + 10, src[u + 5], src[v + 5]);
    PairStep(dst[..], d0, p, us, vs, 6);
    PutPixel(dst, p + 12, src[u + 6], src[v + 6]);
    PairStep(dst[..], d0, p, us, vs, 7);
    PutPixel(dst, p + 14, src[u + 7], src[v + 7]);
    PairsAreLine(dst[..], d0, p, us, vs);
  }

  lemma NothingWritten(d0: seq<Byte>, p: nat, us: seq<Byte>, vs: seq<Byte>)
    requires |us| == |vs|
    ensures PairsWritten(d0, d0, p, us, vs, 0)
  {}

  /** The tail path: `n` pixels in a loop. */
  method TailPixels(src: array<Byte>, u: nat, v: nat, dst: array<Byte>, p: nat, n: nat)
    requires src != dst && u + n <= src.Length && v + n <= src.Length && p + 2 * n <= dst.Length
    modifies dst
    ensures dst[..] == Overwrite(old(dst[..]), p, Interleaved(src[u..u + n], src[v..v + n]))
  {
    hide PairsWritten, Interleaved;
    ghost var us, vs, d0 := src[u..u + n], src[v..v + n], dst[..];
    NothingWritten(d0, p, us, vs);
    var dst2, f := p, 0;
    while f < n
      invariant f <= n && dst2 == p + 2 * f && |dst[..]| == |d0|
      invariant src[u..u + n] == us && src[v..v + n] == vs
      invariant PairsWritten(dst[..], d0, p, us, vs, f)
    {
      PairStep(dst[..], d0, p, us, vs, f);
      PutPixel(dst, dst2, src[u + f], src[v + f]);
      dst2 := dst2 + 2;
      f := f + 1;
    }
    PairsAreLine(dst[..], d0, p, us, vs);
  }

  /** Rows of the interleaved plane are twice as long. */
  lemma {:induction false} RowStartDoubles(row: nat, stride: nat)
    ensures RowStart(row, 2 * stride) == 2 * RowStart(row, stride)
  {
    if row > 0 {
      RowStartDoubles(row - 1, stride);
    }
  }

  lemma SourceLineUV(originX: nat, originY: nat, x: nat, y: nat, i: nat, width: nat)
    ensures 2 * SourceIndex(0, originX, originY, x, y, i, width)
         == 2 * (originX + x) + RowStart(originY + y, 2 * width) + RowStart(i, 2 * width)
  {
    hide RowStart, SourceIndex;
    SourceLine(0, originX, originY, x, y, i, width);
    RowStartDoubles(originY + y, width);
    RowStartDoubles(i, width);
  }

  /** The innermost loop of de_macro_uv for a block of full width. */
  method FullBlockUV(src: array<Byte>, u: nat, v: nat, dst: array<Byte>, to: nat, srcX: nat, srcY: nat,
                   x: nat, y: nat, width: nat, hSize: nat)
    requires src != dst && u <= src.Length && v <= src.Length
    requires LinesFit(dst.Length, to, |Chroma(src[..], u, v)|,
                      2 * (srcX + x) + RowStart(srcY + y, 2 * width), 2 * width, 16, hSize)
    modifies dst
    ensures dst[..] == CopyLines(old(dst[..]), to, Chroma(src[..], u, v),
                                 2 * (srcX + x) + RowStart(srcY + y, 2 * width),
                                 2 * width, 16, hSize)
  {
    hide RowStart, SourceIndex, Interleaved, Chroma, CopyLines, Overwrite, LinesFit;
    ghost var s0, plane, first := src[..], Chroma(src[..], u, v), 2 * (srcX + x) + RowStart(srcY + y, 2 * width);
    LinesStart(dst[..], to, plane, first, 2 * width, 16);
    var dst2 := to;
    var i := 0;
    while i < hSize
      invariant i <= hSize && src[..] == s0
      invariant dst2 == to + 16 * i
      invariant dst[..] == CopyLines(old(dst[..]), to, plane, first, 2 * width, 16, i)
    {
      var idx := SourceIndex(0, srcX, srcY, x, y, i, width);
      SourceLineUV(srcX, srcY, x, y, i, width);
      LinesStep(old(dst[..]), to, plane, first, 2 * width, 16, hSize, i);
      ChromaSlice(s0, u, v, idx, 8);
      EightPixels(src, u + idx, v + idx, dst, dst2);
      dst2 := dst2 + 16;
      i := i + 1;
    }
  }

  /** The innermost loops of de_macro_uv for the block the right edge cuts. */
  method TailBlockUV(src: array<Byte>, u: nat, v: nat, dst: array<Byte>, to: nat, srcX: nat, srcY: nat,
                   x: nat, y: nat, width: nat, wTail: nat, hSize: nat)
    requires src != dst && u <= src.Length && v <= src.Length && wTail <= 8
    requires LinesFit(dst.Length, to, |Chroma(src[..], u, v)|,
                      2 * (srcX + x) + RowStart(srcY + y, 2 * width), 2 * width, 2 * wTail, hSize)
    modifies dst
    ensures dst[..] == CopyLines(old(dst[..]), to, Chroma(src[..], u, v),
                                 2 * (srcX + x) + RowStart(srcY + y, 2 * width),
                                 2 * width, 2 * wTail, hSize)
  {
    hide RowStart, SourceIndex, Interleaved, Chroma, CopyLines, Overwrite, LinesFit;
    ghost var s0, plane, first := src[..], Chroma(src[..], u, v), 2 * (srcX + x) + RowStart(srcY + y, 2 * width);
    LinesStart(dst[..], to, plane, first, 2 * width, 2 * wTail);
    var dst2 := to;
    var i := 0;
    while i < hSize
      invariant i <= hSize && src[..] == s0
      invariant dst2 == to + 16 * i
      invariant dst[..] == CopyLines(old(dst[..]), to, plane, first, 2 * width, 2 * wTail, i)
    {
      var idx := SourceIndex(0, srcX, srcY, x, y, i, width);
      SourceLineUV(srcX, srcY, x, y, i, width);
      LinesStep(old(dst[..]), to, plane, first, 2 * width, 2 * wTail, hSize, i);
      ChromaSlice(s0, u, v, idx, wTail);
      TailPixels(src, u + idx, v + idx, dst, dst2, wTail);
      dst2 := dst2 + 2 * wTail + (16 - 2 * wTail);
      i := i + 1;
    }
  }

  lemma ClippedWidthUV(r: Rect, originX: nat, x: nat, w: nat)
    requires x % 8 == 0 && x < w && r.right == 2 * (originX + w)
    ensures BlockWidth(r, 2 * (originX + x)) == if x + 8 <= w then 16 else 2 * (w % 8)
  {}

  lemma BlockPointerUV(originX: nat, originY: nat, x: nat, y: nat)
    requires originX % 8 == 0 && originY % 16 == 0 && x % 8 == 0 && y % 16 == 0
    ensures 720 * y + 720 * originY + 256 * (originX / 8) + x * 32 == Address(2 * (originX + x), originY + y)
  {
    Quotient(originY + y, 16, originY / 16 + y / 16, 0);
    Quotient(2 * (originX + x), 16, originX / 8 + x / 8, 0);
  }

  /** The block loop of de_macro_uv. */
  method CopyStripUV(src: array<Byte>, u: nat, v: nat, dst: array<Byte>, base: nat, srcX: nat, srcY: nat,
                     y: nat, w: nat, width: nat, hSize: nat, ghost r: Rect)
    requires src != dst && u <= src.Length && v <= src.Length
    requires Readable(|Chroma(src[..], u, v)|, 2 * width, r) && Room(dst.Length, base, r) && r.right <= SURFACE_WIDTH
    requires r.left == 2 * srcX && r.right == 2 * (srcX + w) && srcX % 8 == 0
    requires r.top == srcY && srcY % 16 == 0 && y % 16 == 0 && srcY + y < r.bottom && hSize == BlockHeight(r, srcY + y)
    modifies dst
    ensures dst[..] == CopyBlocks(old(dst[..]), base, Chroma(src[..], u, v), 2 * width, r, srcY + y, BlocksAcross(r))
  {
    hide Address, Column, Row, Room, Readable, LinesFit, CopyLines, RowStart, BlockHeight, BlockWidth,
        Interleaved, Chroma;
    ghost var s0, plane, d1 := src[..], Chroma(src[..], u, v), dst[..];
    var wTail := w % 8;
    var x := 0;
    ghost var blocks := 0;
    while x < w
      invariant x == 8 * blocks && src[..] == s0
      invariant blocks > 0 ==> 2 * srcX + 16 * (blocks - 1) < r.right
      invariant dst[..] == CopyBlocks(d1, base, plane, 2 * width, r, srcY + y, blocks)
    {
      var dst2 := base + 720 * y + 720 * srcY + 256 * (srcX / 8) + x * 32;
      assert dst2 == base + Address(2 * (srcX + x), srcY + y) by {
        BlockPointerUV(srcX, srcY, x, y);
      }
      ClippedWidthUV(r, srcX, x, w);
      BlocksStep(d1, base, plane, 2 * width, r, srcY + y, blocks, 2 * (srcX + x));
      BlockFits(dst.Length, base, |plane|, 2 * width, r, 2 * (srcX + x), srcY + y);
      if x + 8 <= w {
        FullBlockUV(src, u, v, dst, dst2, srcX, srcY, x, y, width, hSize);
      } else {
        TailBlockUV(src, u, v, dst, dst2, srcX, srcY, x, y, width, wTail, hSize);
      }
      x, blocks := x + 8, blocks + 1;
    }
  }

  /** The window of the interleaved plane that de_macro_uv copies, all sizes halved first. */
  function ChromaWindow(x: nat, y: nat, w: nat, h: nat): (r: Rect)
    ensures r.left % 16 == 0 && r.left <= 2 * (x / 2) < r.left + 16 && r.right == 2 * (x / 2) + 2 * (w / 2)
    ensures r.top % 16 == 0 && r.top <= y / 2 < r.top + 16 && r.bottom == y / 2 + h / 2
  {
    Window(2 * (x / 2), y / 2, 2 * (w / 2), h / 2)
  }

  /** Rounding the halved origin to 8 columns rounds the interleaved one to 16. */
  lemma RoundedChromaWindow(x: nat, y: nat, w: nat, h: nat)
    ensures var cx, cy := x / 2 - x / 2 % 8, y / 2 - y / 2 % 16;
            && cx % 8 == 0 && cy % 16 == 0
            && ChromaWindow(x, y, w, h) == Rect(2 * cx, 2 * (x / 2 + w / 2), cy, y / 2 + h / 2)
  {
    Quotient(2 * (x / 2), 16, x / 2 / 8, 2 * (x / 2 % 8));
  }

  method DeMacroUV(src: array<Byte>, u: nat, v: nat, dst: array<Byte>, base: nat,
                   windowW: nat, windowH: nat, windowX: nat, windowY: nat, fullWidth: nat)
    requires src != dst && u <= src.Length && v <= src.Length
    requires windowX + windowW <= SURFACE_WIDTH
    requires var r := ChromaWindow(windowX, windowY, windowW, windowH);
             Readable(|Chroma(src[..], u, v)|, 2 * (fullWidth / 2), r) && Room(dst.Length, base, r)
    modifies dst
    ensures IsTiled(dst[..], old(dst[..]), base, Chroma(src[..], u, v), 2 * (fullWidth / 2),
                    ChromaWindow(windowX, windowY, windowW, windowH))
  {
    hide Address, Column, Row, Room, Readable, IsTiled, CopyBlocks, Interleaved, Chroma, ChromaWindow;
    RoundedChromaWindow(windowX, windowY, windowW, windowH);
    ghost var r := ChromaWindow(windowX, windowY, windowW, windowH);
    ghost var s0, plane, d0 := src[..], Chroma(src[..], u, v), dst[..];
    var w, h, srcX, srcY := windowW / 2, windowH / 2, windowX / 2, windowY / 2;
    var width := fullWidth / 2;
    if srcX % 8 != 0 {
      w := w + srcX % 8;
      srcX := srcX - srcX % 8;
    }
    if srcY % 16 != 0 {
      h := h + srcY % 16;
      srcY := srcY - srcY % 16;
    }
    assert r == Rect(2 * srcX, 2 * (srcX + w), srcY, srcY + h);
    var hTail := h % 16;
    var hSize := 16;
    var y := 0;
    ghost var strips := 0;
    while y < h
      invariant y == 16 * strips && (y < h ==> hSize == 16)
      invariant src[..] == s0
      invariant strips > 0 ==> srcY + 16 * (strips - 1) < r.bottom
      invariant dst[..] == CopyStrips(d0, base, plane, 2 * width, r, strips)
    {
      if y + 16 > h {
        Tail(h, y);
        hSize := hTail;
      }
      CopyStripUV(src, u, v, dst, base, srcX, srcY, y, w, width, hSize, r);
      y, strips := y + 16, strips + 1;
    }
    TraversalTiles(d0, base, plane, 2 * width, r, strips);
  }
}
