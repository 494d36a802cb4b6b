/** The address map of the PVR 350 macroblock surface and the effect of tiling a
    linear plane into it.  A surface is 720 pixels wide and is stored as strips of
    16 rows; a strip is 45 blocks of 16x16 bytes; a block is stored row by row. */
module Tiling {
  import opened Arith

  const SURFACE_WIDTH: nat := 720
  const STRIP_BYTES: nat := 11520

  /** A rectangle of pixels, right and bottom edges excluded. */
  datatype Rect = Rect(left: nat, right: nat, top: nat, bottom: nat)

  predicate Inside(r: Rect, col: nat, row: nat) {
    r.left <= col < r.right && r.top <= row < r.bottom
  }

  /** The window the driver really copies: the origin is rounded down to a block. */
  function Window(x: nat, y: nat, w: nat, h: nat): (r: Rect)
    ensures r.left % 16 == 0 && r.left <= x < r.left + 16 && r.right == x + w
    ensures r.top % 16 == 0 && r.top <= y < r.top + 16 && r.bottom == y + h
  {
    Rect(x - x % 16, x + w, y - y % 16, y + h)
  }

  function Address(col: nat, row: nat): nat {
    STRIP_BYTES * (row / 16) + 256 * (col / 16) + 16 * (row % 16) + col % 16
  }

  function Column(a: nat): nat {
    a % STRIP_BYTES / 256 * 16 + a % 16
  }

  function Row(a: nat): nat {
    a / STRIP_BYTES * 16 + a % 256 / 16
  }

  /** Coordinates and addresses, written with their strip, block, line and byte numbers. */
  lemma AddressDigits(strip: nat, block: nat, line: nat, byte: nat)
    requires block < 45 && line < 16 && byte < 16
    ensures var a := STRIP_BYTES * strip + 256 * block + 16 * line + byte;
            && Address(16 * block + byte, 16 * strip + line) == a
            && Column(a) == 16 * block + byte && Row(a) == 16 * strip + line
  {
    var a := STRIP_BYTES * strip + 256 * block + 16 * line + byte;
    Quotient(16 * strip + line, 16, strip, line);
    Quotient(16 * block + byte, 16, block, byte);
    Quotient(a, STRIP_BYTES, strip, 256 * block + 16 * line + byte);
    Quotient(256 * block + 16 * line + byte, 256, block, 16 * line + byte);
    Quotient(a, 256, 45 * strip + block, 16 * line + byte);
    Quotient(16 * line + byte, 16, line, byte);
    Quotient(a, 16, 720 * strip + 16 * block + line, byte);
  }

  lemma ColumnRowOfAddress(col: nat, row: nat)
    requires col < SURFACE_WIDTH
    ensures Column(Address(col, row)) == col
    ensures Row(Address(col, row)) == row
  {
    hide Column, Row;
    AddressDigits(row / 16, col / 16, row % 16, col % 16);
  }

  lemma AddressOfColumnRow(a: nat)
    ensures Column(a) < SURFACE_WIDTH
    ensures Address(Column(a), Row(a)) == a
  {
    hide Column, Row, Address;
    var strip, rest := a / STRIP_BYTES, a % STRIP_BYTES;
    var block, cell := rest / 256, rest % 256;
    AddressDigits(strip, block, cell / 16, cell % 16);
  }

  /** No two pixels of the surface share an address. */
  lemma AddressInjective(col1: nat, row1: nat, col2: nat, row2: nat)
    requires col1 < SURFACE_WIDTH && col2 < SURFACE_WIDTH
    requires Address(col1, row1) == Address(col2, row2)
    ensures col1 == col2 && row1 == row2
  {
    ColumnRowOfAddress(col1, row1);
    ColumnRowOfAddress(col2, row2);
  }

  /** The first `height` rows occupy whole strips from address 0. */
  lemma AddressBound(col: nat, row: nat, height: nat)
    requires col < SURFACE_WIDTH && row < height
    ensures Address(col, row) < STRIP_BYTES * ((height + 15) / 16)
  {
    assert row / 16 + 1 <= (height + 15) / 16;
  }

  /** Where row `row` starts in a linear plane: `row * stride`, as a sum. */
  function RowStart(row: nat, stride: nat): nat {
    if row == 0 then 0 else RowStart(row - 1, stride) + stride
  }

  lemma {:induction false} RowStartIsProduct(row: nat, stride: nat)
    ensures RowStart(row, stride) == row * stride
  {
    if row > 0 {
      RowStartIsProduct(row - 1, stride);
    }
  }

  lemma {:induction false} RowStartAdds(a: nat, b: nat, stride: nat)
    ensures RowStart(a, stride) + RowStart(b, stride) == RowStart(a + b, stride)
  {
    if b > 0 {
      RowStartAdds(a, b - 1, stride);
    }
  }

  /** Every pixel of the rectangle exists in a plane with the given row stride. */
  ghost predicate Readable(size: nat, stride: nat, r: Rect) {
    forall col: nat, row: nat :: Inside(r, col, row) ==> col + RowStart(row, stride) < size
  }

  /** The whole strips that hold the rows above `r.bottom` fit behind `base`. */
  predicate Room(length: nat, base: nat, r: Rect) {
    base + STRIP_BYTES * ((r.bottom + 15) / 16) <= length
  }

  /** Byte `k` of a destination that starts at `base` belongs to a pixel of `r`. */
  predicate Holds(r: Rect, base: nat, k: nat) {
    base <= k && Inside(r, Column(k - base), Row(k - base))
  }

  /** `t` is `d` after every pixel of `r` has gone to its address above `base`,
      and nothing else has changed. */
  ghost predicate IsTiled(t: seq<Byte>, d: seq<Byte>, base: nat, plane: seq<Byte>, stride: nat, r: Rect) {
    && Readable(|plane|, stride, r)
    && |t| == |d|
    && forall k: nat | k < |d| :: t[k] == TiledByte(d, base, plane, stride, r, k)
  }

  ghost function Tiled(d: seq<Byte>, base: nat, plane: seq<Byte>, stride: nat, r: Rect): (t: seq<Byte>)
    requires Readable(|plane|, stride, r)
    ensures IsTiled(t, d, base, plane, stride, r)
  {
    seq(|d|, k requires 0 <= k < |d| => TiledByte(d, base, plane, stride, r, k))
  }

  ghost function TiledByte(d: seq<Byte>, base: nat, plane: seq<Byte>, stride: nat, r: Rect, k: nat): Byte
    requires Readable(|plane|, stride, r) && k < |d|
  {
    if Holds(r, base, k) then plane[Column(k - base) + RowStart(Row(k - base), stride)] else d[k]
  }

  // ----- The traversal: strips of blocks of lines

  function Overwrite(d: seq<Byte>, at: nat, s: seq<Byte>): (t: seq<Byte>)
    requires at + |s| <= |d|
    ensures |t| == |d|
  {
    d[..at] + s + d[at + |s|..]
  }

  /** One line of a block, if source and destination have it. */
  ghost function CopyLine(d: seq<Byte>, to: nat, plane: seq<Byte>, from: nat, n: nat): (t: seq<Byte>)
    ensures |t| == |d|
  {
    if LineFits(|d|, to, |plane|, from, n) then Overwrite(d, to, plane[from..from + n]) else d
  }

  /** `count` lines of `n` bytes, `stride` apart in the plane and 16 apart in the destination. */
  ghost function CopyLines(d: seq<Byte>, to: nat, plane: seq<Byte>, from: nat, stride: nat, n: nat,
      count: nat): (t: seq<Byte>)
    ensures |t| == |d|
  {
    if count == 0 then d
    else CopyLine(CopyLines(d, to, plane, from, stride, n, count - 1),
                  to + 16 * (count - 1), plane, from + RowStart(count - 1, stride), n)
  }

  predicate LineFits(length: nat, to: nat, size: nat, from: nat, n: nat) {
    to + n <= length && from + n <= size
  }

  ghost predicate LinesFit(length: nat, to: nat, size: nat, from: nat, stride: nat, n: nat, count: nat) {
    forall i: nat | i < count :: LineFits(length, to + 16 * i, size, from + RowStart(i, stride), n)
  }

  lemma LinesStart(d: seq<Byte>, to: nat, plane: seq<Byte>, from: nat, stride: nat, n: nat)
    ensures CopyLines(d, to, plane, from, stride, n, 0) == d
  {}

  lemma LinesStep(d: seq<Byte>, to: nat, plane: seq<Byte>, from: nat, stride: nat, n: nat, count: nat, i: nat)
    requires LinesFit(|d|, to, |plane|, from, stride, n, count) && i < count
    ensures to + 16 * i + n <= |d| && from + RowStart(i, stride) + n <= |plane|
    ensures CopyLines(d, to, plane, from, stride, n, i + 1)
         == Overwrite(CopyLines(d, to, plane, from, stride, n, i), to + 16 * i,
                      plane[from + RowStart(i, stride)..from + RowStart(i, stride) + n])
  {
    hide RowStart, Overwrite;
    assert LineFits(|d|, to + 16 * i, |plane|, from + RowStart(i, stride), n);
  }

  function BlockWidth(r: Rect, col: nat): nat
    requires col < r.right
  {
    if col + 16 > r.right then r.right - col else 16
  }

  function BlockHeight(r: Rect, row: nat): nat
    requires row < r.bottom
  {
    if row + 16 > r.bottom then r.bottom - row else 16
  }

  /** The first `count` blocks of the strip that starts at `row`. */
  ghost function CopyBlocks(d: seq<Byte>, base: nat, plane: seq<Byte>, stride: nat, r: Rect, row: nat,
      count: nat): (t: seq<Byte>)
    requires row < r.bottom && (count > 0 ==> r.left + 16 * (count - 1) < r.right)
    ensures |t| == |d|
  {
    if count == 0 then d
    else
      var col := r.left + 16 * (count - 1);
      CopyLines(CopyBlocks(d, base, plane, stride, r, row, count - 1), base + Address(col, row),
                plane, col + RowStart(row, stride), stride, BlockWidth(r, col), BlockHeight(r, row))
  }

  lemma BlocksStep(d: seq<Byte>, base: nat, plane: seq<Byte>, stride: nat, r: Rect, row: nat, count: nat, col: nat)
    requires row < r.bottom && col == r.left + 16 * count < r.right
    ensures CopyBlocks(d, base, plane, stride, r, row, count + 1)
         == CopyLines(CopyBlocks(d, base, plane, stride, r, row, count), base + Address(col, row),
                      plane, col + RowStart(row, stride), stride, BlockWidth(r, col), BlockHeight(r, row))
  {}

  /** The number of blocks that cover columns from the left edge to the right one. */
  function BlocksAcross(r: Rect): nat {
    if r.left < r.right then (r.right - r.left + 15) / 16 else 0
  }

  /** The first `count` strips. */
  ghost function CopyStrips(d: seq<Byte>, base: nat, plane: seq<Byte>, stride: nat, r: Rect, count: nat): (t: seq<Byte>)
    requires count > 0 ==> r.top + 16 * (count - 1) < r.bottom
    ensures |t| == |d|
  {
    if count == 0 then d
    else CopyBlocks(CopyStrips(d, base, plane, stride, r, count - 1), base, plane, stride, r,
                    r.top + 16 * (count - 1), BlocksAcross(r))
  }

  // ----- What the traversal does to one byte

  lemma {:induction false} LinesByte(d: seq<Byte>, to: nat, plane: seq<Byte>, from: nat, stride: nat, n: nat,
      count: nat, k: nat)
    requires k < |d| && n <= 16
    requires LinesFit(|d|, to, |plane|, from, stride, n, count)
    ensures var i, j := (k - to) / 16, (k - to) % 16;
            CopyLines(d, to, plane, from, stride, n, count)[k]
            == if to <= k && i < count && j < n then plane[from + RowStart(i, stride) + j] else d[k]
  {
    hide RowStart;
    if count > 0 {
      LinesByte(d, to, plane, from, stride, n, count - 1, k);
      assert LineFits(|d|, to + 16 * (count - 1), |plane|, from + RowStart(count - 1, stride), n);
    }
  }

  /** The bytes of a block are the pixels of its columns and rows. */
  lemma BlockBytes(col: nat, row: nat, n: nat, count: nat, a: nat)
    requires col % 16 == 0 && row % 16 == 0 && n <= 16 && count <= 16 && col < SURFACE_WIDTH
    ensures var to := Address(col, row);
            && (to <= a && (a - to) / 16 < count && (a - to) % 16 < n
                <==> col <= Column(a) < col + n && row <= Row(a) < row + count)
            && (to <= a < to + 256 ==> (a - to) / 16 == Row(a) - row && (a - to) % 16 == Column(a) - col)
  {
    hide Column, Row, Address;
    var to, x, y := Address(col, row), Column(a), Row(a);
    if to <= a < to + 256 {
      var i, j := (a - to) / 16, (a - to) % 16;
      LineAddress(col, row, j, i);
      ColumnRowOfAddress(col + j, row + i);
    }
    if col <= x < col + 16 && row <= y < row + 16 {
      AddressOfColumnRow(a);
      LineAddress(col, row, x - col, y - row);
    }
  }

  /** Every line of the block is there to be read and to be written. */
  lemma BlockFits(length: nat, base: nat, size: nat, stride: nat, r: Rect, col: nat, row: nat)
    requires Readable(size, stride, r) && Room(length, base, r) && r.right <= SURFACE_WIDTH
    requires r.left <= col < r.right && r.top <= row < r.bottom && col % 16 == 0 && row % 16 == 0
    ensures LinesFit(length, base + Address(col, row), size, col + RowStart(row, stride), stride,
                     BlockWidth(r, col), BlockHeight(r, row))
  {
    var n := BlockWidth(r, col);
    forall i: nat | i < BlockHeight(r, row)
      ensures LineFits(length, base + Address(col, row) + 16 * i, size,
                       col + RowStart(row, stride) + RowStart(i, stride), n)
    {
      var last := col + n - 1;
      assert Inside(r, last, row + i);
      RowStartAdds(row, i, stride);
      AddressBound(last, row + i, r.bottom);
      LineAddress(col, row, n - 1, i);
    }
  }

  lemma LineAddress(col: nat, row: nat, j: nat, i: nat)
    requires col % 16 == 0 && row % 16 == 0 && i < 16 && j < 16
    ensures Address(col + j, row + i) == Address(col, row) + 16 * i + j
  {
    Quotient(row + i, 16, row / 16, i);
    Quotient(col + j, 16, col / 16, j);
  }

  /** The plane's pixel at (x, y). */
  ghost function PlanePixel(plane: seq<Byte>, stride: nat, x: nat, y: nat): Byte {
    if x + RowStart(y, stride) < |plane| then plane[x + RowStart(y, stride)] else 0
  }

  /** The block at (col, row) owns byte `k`, which is pixel (x, y), exactly when it covers that pixel. */
  ghost predicate Owned(to: nat, col: nat, row: nat, n: nat, h: nat, k: nat, x: nat, y: nat) {
    && (to <= k && (k - to) / 16 < h && (k - to) % 16 < n <==> Covers(col, row, n, h, x, y))
    && (Covers(col, row, n, h, x, y) ==> (k - to) / 16 == y - row && (k - to) % 16 == x - col)
  }

  predicate Covers(col: nat, row: nat, n: nat, h: nat, x: nat, y: nat) {
    col <= x < col + n && row <= y < row + h
  }

  lemma LinesPixel(d: seq<Byte>, to: nat, plane: seq<Byte>, col: nat, row: nat, stride: nat, n: nat, h: nat, k: nat,
      x: nat, y: nat)
    requires k < |d| && n <= 16 && Owned(to, col, row, n, h, k, x, y)
    requires LinesFit(|d|, to, |plane|, col + RowStart(row, stride), stride, n, h)
    ensures CopyLines(d, to, plane, col + RowStart(row, stride), stride, n, h)[k]
         == if Covers(col, row, n, h, x, y) then PlanePixel(plane, stride, x, y) else d[k]
  {
    LinesByte(d, to, plane, col + RowStart(row, stride), stride, n, h, k);
    if Covers(col, row, n, h, x, y) {
      RowStartAdds(row, y - row, stride);
    }
  }

  /** What copying one block does to the byte that belongs to pixel (x, y). */
  lemma BlockByte(d: seq<Byte>, base: nat, plane: seq<Byte>, stride: nat, r: Rect, col: nat, row: nat, k: nat,
      x: nat, y: nat)
    requires Readable(|plane|, stride, r) && Room(|d|, base, r) && r.right <= SURFACE_WIDTH
    requires r.left <= col < r.right && r.top <= row < r.bottom && col % 16 == 0 && row % 16 == 0
    requires base <= k < |d| && x == Column(k - base) && y == Row(k - base)
    ensures CopyLines(d, base + Address(col, row), plane, col + RowStart(row, stride), stride,
                      BlockWidth(r, col), BlockHeight(r, row))[k]
         == if Covers(col, row, BlockWidth(r, col), BlockHeight(r, row), x, y) then PlanePixel(plane, stride, x, y)
             else d[k]
  {
    hide Address, Column, Row;
    var n, h, to := BlockWidth(r, col), BlockHeight(r, row), base + Address(col, row);
    assert Owned(to, col, row, n, h, k, x, y) by {
      BlockBytes(col, row, n, h, k - base);
    }
    BlockFits(|d|, base, |plane|, stride, r, col, row);
    LinesPixel(d, to, plane, col, row, stride, n, h, k, x, y);
  }

  lemma {:induction false} BlocksByte(d: seq<Byte>, base: nat, plane: seq<Byte>, stride: nat, r: Rect, row: nat,
      count: nat, k: nat, x: nat, y: nat)
    requires Readable(|plane|, stride, r) && Room(|d|, base, r) && r.right <= SURFACE_WIDTH
    requires r.top <= row < r.bottom && row % 16 == 0 && r.left % 16 == 0
    requires count > 0 ==> r.left + 16 * (count - 1) < r.right
    requires base <= k < |d| && x == Column(k - base) && y == Row(k - base)
    ensures CopyBlocks(d, base, plane, stride, r, row, count)[k]
         == if r.left <= x < r.left + 16 * count && x < r.right && row <= y < row + BlockHeight(r, row)
            then PlanePixel(plane, stride, x, y) else d[k]
  {
    hide Address, Column, Row;
    if count > 0 {
      BlocksByte(d, base, plane, stride, r, row, count - 1, k, x, y);
      BlockByte(CopyBlocks(d, base, plane, stride, r, row, count - 1), base, plane, stride, r,
                r.left + 16 * (count - 1), row, k, x, y);
    }
  }

  lemma {:induction false} StripsByte(d: seq<Byte>, base: nat, plane: seq<Byte>, stride: nat, r: Rect, count: nat,
      k: nat, x: nat, y: nat)
    requires Readable(|plane|, stride, r) && Room(|d|, base, r) && r.right <= SURFACE_WIDTH
    requires r.top % 16 == 0 && r.left % 16 == 0
    requires count > 0 ==> r.top + 16 * (count - 1) < r.bottom
    requires base <= k < |d| && x == Column(k - base) && y == Row(k - base)
    ensures var t := CopyStrips(d, base, plane, stride, r, count);
            t[k] == if r.left <= x < r.right && r.top <= y < r.top + 16 * count && y < r.bottom
                    then PlanePixel(plane, stride, x, y) else d[k]
  {
    hide Address, Column, Row;
    if count > 0 {
      StripsByte(d, base, plane, stride, r, count - 1, k, x, y);
      BlocksByte(CopyStrips(d, base, plane, stride, r, count - 1), base, plane, stride, r,
                 r.top + 16 * (count - 1), BlocksAcross(r), k, x, y);
    }
  }

  /** Bytes below the surface are left alone. */
  lemma {:induction false} LinesBelow(d: seq<Byte>, to: nat, plane: seq<Byte>, from: nat, stride: nat, n: nat,
      count: nat, k: nat)
    requires k < |d| && k < to
    ensures CopyLines(d, to, plane, from, stride, n, count)[k] == d[k]
  {
    if count > 0 {
      LinesBelow(d, to, plane, from, stride, n, count - 1, k);
    }
  }

  lemma {:induction false} BlocksBelow(d: seq<Byte>, base: nat, plane: seq<Byte>, stride: nat, r: Rect, row: nat,
      count: nat, k: nat)
    requires row < r.bottom && (count > 0 ==> r.left + 16 * (count - 1) < r.right)
    requires k < |d| && k < base
    ensures CopyBlocks(d, base, plane, stride, r, row, count)[k] == d[k]
  {
    if count > 0 {
      var col := r.left + 16 * (count - 1);
      BlocksBelow(d, base, plane, stride, r, row, count - 1, k);
      LinesBelow(CopyBlocks(d, base, plane, stride, r, row, count - 1), base + Address(col, row),
                 plane, col + RowStart(row, stride), stride, BlockWidth(r, col), BlockHeight(r, row), k);
    }
  }

  lemma {:induction false} StripsBelow(d: seq<Byte>, base: nat, plane: seq<Byte>, stride: nat, r: Rect,
      count: nat, k: nat)
    requires count > 0 ==> r.top + 16 * (count - 1) < r.bottom
    requires k < |d| && k < base
    ensures CopyStrips(d, base, plane, stride, r, count)[k] == d[k]
  {
    if count > 0 {
      StripsBelow(d, base, plane, stride, r, count - 1, k);
      BlocksBelow(CopyStrips(d, base, plane, stride, r, count - 1), base, plane, stride, r,
                  r.top + 16 * (count - 1), BlocksAcross(r), k);
    }
  }

  /** The block-by-block traversal puts every pixel of the rectangle at its address
      and changes no other byte. */
  lemma TraversalTiles(d: seq<Byte>, base: nat, plane: seq<Byte>, stride: nat, r: Rect, count: nat)
    requires Readable(|plane|, stride, r) && Room(|d|, base, r) && r.right <= SURFACE_WIDTH
    requires r.top % 16 == 0 && r.left % 16 == 0
    requires r.bottom <= r.top + 16 * count && (count > 0 ==> r.top + 16 * (count - 1) < r.bottom)
    ensures IsTiled(CopyStrips(d, base, plane, stride, r, count), d, base, plane, stride, r)
  {
    var t := CopyStrips(d, base, plane, stride, r, count);
    forall k: nat | k < |d| ensures t[k] == TiledByte(d, base, plane, stride, r, k) {
      if k < base {
        StripsBelow(d, base, plane, stride, r, count, k);
      } else {
        StripsByte(d, base, plane, stride, r, count, k, Column(k - base), Row(k - base));
      }
    }
  }

  // ----- What tiling means

  /** Each pixel sits at its address. */
  lemma TiledPixel(t: seq<Byte>, d: seq<Byte>, base: nat, plane: seq<Byte>, stride: nat, r: Rect, col: nat, row: nat)
    requires IsTiled(t, d, base, plane, stride, r) && Room(|d|, base, r)
    requires r.right <= SURFACE_WIDTH && Inside(r, col, row)
    ensures base + Address(col, row) < |t|
    ensures t[base + Address(col, row)] == plane[col + RowStart(row, stride)]
  {
    AddressBound(col, row, r.bottom);
    ColumnRowOfAddress(col, row);
    var k := base + Address(col, row);
    assert t[k] == TiledByte(d, base, plane, stride, r, k);
  }

  /** Every byte that is not the address of a pixel of the window keeps its value. */
  lemma TiledElsewhere(t: seq<Byte>, d: seq<Byte>, base: nat, plane: seq<Byte>, stride: nat, r: Rect, k: nat)
    requires IsTiled(t, d, base, plane, stride, r) && k < |d|
    requires forall col: nat, row: nat :: Inside(r, col, row) ==> k != base + Address(col, row)
    ensures t[k] == d[k]
  {
    assert t[k] == TiledByte(d, base, plane, stride, r, k);
    if base <= k {
      AddressOfColumnRow(k - base);
    }
  }

  // ----- Reading a plane back

  /** Column and row of byte `i` of a plane of width `w`. */
  function PlaneColumn(i: nat, w: nat): (c: nat)
    requires 0 < w
    ensures c < w
  {
    i % w
  }

  function PlaneRow(i: nat, w: nat): nat
    requires 0 < w
  {
    i / w
  }

  lemma PlaneIndex(i: nat, w: nat, h: nat)
    requires 0 < w && i < w * h
    ensures PlaneRow(i, w) < h && RowStart(PlaneRow(i, w), w) + PlaneColumn(i, w) == i
  {
    hide RowStart;
    var q := i / w;
    RowStartIsProduct(q, w);
    if h <= q {
      ProductMonotone(h, q, w);
    }
  }

  /** The linear plane read back from the surface, `w` bytes a row. */
  ghost function Untiled(t: seq<Byte>, base: nat, w: nat, h: nat): (plane: seq<Byte>)
    requires 0 < w <= SURFACE_WIDTH && Room(|t|, base, Rect(0, w, 0, h))
    ensures |plane| == w * h
  {
    seq(w * h, i requires 0 <= i < w * h =>
      AddressInRoom(|t|, base, w, h, i);
      t[base + Address(PlaneColumn(i, w), PlaneRow(i, w))])
  }

  lemma AddressInRoom(length: nat, base: nat, w: nat, h: nat, i: nat)
    requires 0 < w <= SURFACE_WIDTH && i < w * h && Room(length, base, Rect(0, w, 0, h))
    ensures base + Address(PlaneColumn(i, w), PlaneRow(i, w)) < length
  {
    hide Address, PlaneColumn, PlaneRow;
    PlaneIndex(i, w, h);
    AddressBound(PlaneColumn(i, w), PlaneRow(i, w), h);
  }

  /** Tiling a whole plane loses nothing: reading the surface back returns the plane. */
  lemma UntileTile(t: seq<Byte>, d: seq<Byte>, base: nat, plane: seq<Byte>, w: nat, h: nat)
    requires 0 < w <= SURFACE_WIDTH && Room(|d|, base, Rect(0, w, 0, h))
    requires IsTiled(t, d, base, plane, w, Rect(0, w, 0, h)) && w * h <= |plane|
    ensures Untiled(t, base, w, h) == plane[..w * h]
  {
    hide Address, Column, Row, PlaneColumn, PlaneRow;
    var u := Untiled(t, base, w, h);
    forall i: nat | i < w * h ensures u[i] == plane[i] {
      AddressInRoom(|t|, base, w, h, i);
      PlaneIndex(i, w, h);
      TiledPixel(t, d, base, plane, w, Rect(0, w, 0, h), PlaneColumn(i, w), PlaneRow(i, w));
    }
  }
}
