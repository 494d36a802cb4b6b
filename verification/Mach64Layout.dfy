/** Frame sizes, plane offsets and hardware addresses of the mach64 overlay, for a source
    rectangle that starts at (0, 0).  All numbers fit in 32 bits under the 720 limit, except
    in the frame search, where the wrap is modelled. */
module Mach64Layout {
  import opened Arith

  datatype Fourcc = YV12 | I420 | IYUV | YVU9 | YUY2 | UYVY | BGR15 | BGR16 | BGR32 | Other

  datatype Yuv = Yuv(y: nat, u: nat, v: nat)

  const MAX_SIDE: nat := 720
  const BASES: nat := 64

  predicate Is420(f: Fourcc) {
    f.YV12? || f.I420? || f.IYUV?
  }

  predicate IsPlanar(f: Fourcc) {
    Is420(f) || f.YVU9?
  }

  /** is_supported_fourcc */
  predicate Supported(f: Fourcc, supportsPlanar: bool) {
    !f.Other? && (IsPlanar(f) ==> supportsPlanar)
  }

  function KnownPitch(p: nat): nat {
    if p == 16 || p == 32 || p == 64 || p == 128 || p == 256 then p else 0
  }

  /** mach64_query_pitch */
  function QueryPitch(f: Fourcc, s: Yuv): (pitch: nat)
    // what the application asks for is honoured if the planes' pitches agree, else the least one is used
    ensures f.YV12? || f.I420? || f.IYUV? ==>
              pitch == if s.y in {32, 64, 128, 256} && s.u == s.v == s.y / 2 then s.y else 32
    ensures f.YVU9? ==> pitch == if s.y in {64, 128, 256} && s.u == s.v == s.y / 4 then s.y else 64
    ensures f.YUY2? || f.UYVY? || f.BGR15? || f.BGR16? || f.BGR32? || f.Other? ==>
              pitch == if s.y in {16, 32, 64, 128, 256} then s.y else 16
  {
    var spy, spu, spv := KnownPitch(s.y), KnownPitch(s.u), KnownPitch(s.v);
    if Is420(f) then
      if spy > 16 && spu == spy / 2 && spv == spy / 2 then spy else 32
    else if f.YVU9? then
      if spy > 32 && spu == spy / 4 && spv == spy / 4 then spy else 64
    else if spy >= 16 then spy else 16
  }

  /** `x & ~16`: clears one bit. */
  function ClearBit4(x: nat): nat {
    if x / 16 % 2 == 1 then x - 16 else x
  }

  function BytesPerPixel(f: Fourcc): nat {
    if IsPlanar(f) then 1 else if f.BGR32? then 4 else 2
  }

  /** The bytes from one row to the next in video memory. */
  function Pitch(f: Fourcc, w: nat, s: Yuv): nat {
    RoundUp(w * BytesPerPixel(f), QueryPitch(f, s))
  }

  /** The pixels of a frame, without the slack. */
  function PixelBytes(f: Fourcc, pitch: nat, h: nat): nat {
    if Is420(f) then pitch * (h + h / 2) else if f.YVU9? then pitch * (h + h / 8) else pitch * h
  }

  /** mach64_compute_framesize */
  function FrameSize(f: Fourcc, w: nat, h: nat, s: Yuv): nat {
    ClearBit4(PixelBytes(f, Pitch(f, w, s), h) + 256)
  }

  /** The offsets inside a frame that the application is told. */
  function PlaneOffsets(f: Fourcc, pitch: nat, h: nat): Yuv {
    if IsPlanar(f) then
      var first, second := First(pitch, h), Second(f, pitch, h);
      if f.I420? || f.IYUV? then Yuv(0, second, first) else Yuv(0, first, second)
    else Yuv(0, 0, 0)
  }

  /** `& ~15` */
  function Mask15(x: int): int {
    x - x % 16
  }

  // ----- The planes inside a frame

  /** A row pitch is a multiple of 16, of 32 for 4:2:0 and of 64 for YVU9. */
  lemma PitchMultiple(f: Fourcc, w: nat, s: Yuv)
    ensures Pitch(f, w, s) % 16 == 0
    ensures Is420(f) ==> Pitch(f, w, s) % 32 == 0
    ensures f.YVU9? ==> Pitch(f, w, s) % 64 == 0
    ensures w <= MAX_SIDE && IsPlanar(f) ==> Pitch(f, w, s) <= 768
    ensures w <= MAX_SIDE ==> Pitch(f, w, s) <= 3072
  {
    hide RoundUp, QueryPitch;
    var q := QueryPitch(f, s);
    var p := RoundUp(w * BytesPerPixel(f), q);
    if {
      case q == 16 =>
      case q == 32 => MultipleOfFactor(p, 16, 2);
      case q == 64 => MultipleOfFactor(p, 32, 2); MultipleOfFactor(p, 16, 4);
      case q == 128 => MultipleOfFactor(p, 64, 2); MultipleOfFactor(p, 32, 4); MultipleOfFactor(p, 16, 8);
      case q == 256 => MultipleOfFactor(p, 64, 4); MultipleOfFactor(p, 32, 8); MultipleOfFactor(p, 16, 16);
    }
  }

  /** Rows hold their pixels: one byte each in planar formats, four in BGR32, otherwise two. */
  lemma RowHoldsPixels(f: Fourcc, w: nat, s: Yuv)
    ensures var row := if f.YV12? || f.I420? || f.IYUV? || f.YVU9? then w else if f.BGR32? then 4 * w else 2 * w;
            row <= Pitch(f, w, s) < row + QueryPitch(f, s)
  {}

  /** A frame is exactly as large as its rows of luma and chroma, with 256 bytes of slack, of
      which packed formats give up 16 where that clears bit 4. */
  lemma FrameBytes(f: Fourcc, w: nat, h: nat, s: Yuv)
    ensures var pitch, size := Pitch(f, w, s), FrameSize(f, w, h, s);
            && (f.YV12? || f.I420? || f.IYUV? ==> size == pitch * (h + h / 2) + 256)
            && (f.YVU9? ==> size == pitch * (h + h / 8) + 256)
            && (!f.YV12? && !f.I420? && !f.IYUV? && !f.YVU9? ==>
                  size == if pitch * h % 32 == 16 then pitch * h + 240 else pitch * h + 256)
  {
    hide Pitch;
    PitchMultiple(f, w, s);
    var pitch := Pitch(f, w, s);
    if Is420(f) {
      FrameCleared(pitch, h + h / 2);
    } else if f.YVU9? {
      FrameCleared(pitch, h + h / 8);
    } else {
      MultipleTimes(pitch, 16, h);
      ClearedOr16(pitch * h);
    }
  }

  lemma FrameCleared(pitch: nat, rows: nat)
    requires pitch % 32 == 0
    ensures ClearBit4(pitch * rows + 256) == pitch * rows + 256
  {
    MultipleTimes(pitch, 32, rows);
    Cleared(pitch * rows / 32);
  }

  lemma ClearedOr16(x: nat)
    requires x % 16 == 0
    ensures ClearBit4(x + 256) == if x % 32 == 16 then x + 240 else x + 256
  {}

  /** Where the planes of a picture lie: luma, then the plane named first, then the other;
      YV12 and YVU9 have the one called u first, I420 and IYUV the one called v. */
  lemma PlaneOrder(f: Fourcc, pitch: nat, h: nat)
    requires pitch % 16 == 0
    ensures var o := PlaneOffsets(f, pitch, h);
            && o.y == 0
            && (f.YV12? ==> pitch * h <= o.u < pitch * h + 16 && o.u + (h / 2) * (pitch / 2) <= o.v)
            && (f.YVU9? ==> pitch * h <= o.u < pitch * h + 16 && o.u + (h / 4) * (pitch / 4) <= o.v)
            && (f.I420? || f.IYUV? ==> pitch * h <= o.v < pitch * h + 16 && o.v + (h / 2) * (pitch / 2) <= o.u)
            && (!f.YV12? && !f.I420? && !f.IYUV? && !f.YVU9? ==> o.u == 0 && o.v == 0)
  {
    hide RoundUp;
    QuarterRows(pitch, h);
  }

  lemma QuarterRows(pitch: nat, h: nat)
    requires pitch % 16 == 0
    ensures (h / 2) * (pitch / 2) <= pitch * h / 4 && (h / 4) * (pitch / 4) <= pitch * h / 16
  {
    var c := pitch / 16;
    Associates(16, c, h);
    ProductMonotone(2 * (h / 2), h, 4 * c);
    ProductMonotone(4 * (h / 4), h, c);
    Associates(2, h / 2, 4 * c);
    Associates(4, h / 4, c);
  }

  function LumaBytes(pitch: nat, h: nat): nat {
    pitch * h
  }

  /** The bytes of each chroma plane: half or quarter rows of half or quarter pitch. */
  function ChromaBytes(f: Fourcc, pitch: nat, h: nat): nat {
    if Is420(f) then (h / 2) * (pitch / 2) else if f.YVU9? then (h / 4) * (pitch / 4) else 0
  }

  function First(pitch: nat, h: nat): (r: nat)
    ensures r % 16 == 0
  {
    RoundUp(LumaBytes(pitch, h), 16)
  }

  function Second(f: Fourcc, pitch: nat, h: nat): (r: nat)
    ensures r % 16 == 0
  {
    RoundUp(First(pitch, h) + if Is420(f) then LumaBytes(pitch, h) / 4 else LumaBytes(pitch, h) / 16, 16)
  }

  /** The products for pitch 32a and height 2m+r. */
  lemma Products420(a: nat, m: nat, r: nat)
    requires r < 2
    ensures var pitch, h, t := 32 * a, 2 * m + r, a * m;
            && pitch * h == 64 * t + 32 * (if r == 0 then 0 else a)
            && pitch * (h + h / 2) == 96 * t + 32 * (if r == 0 then 0 else a)
            && (h / 2) * (pitch / 2) == 16 * t
  {
    var t := a * m;
    assert 32 * a * (2 * m + r) == 64 * t + 32 * (a * r);
    assert 32 * a * (3 * m + r) == 96 * t + 32 * (a * r);
    assert (2 * m + r) / 2 == m && 32 * a / 2 == 16 * a;
    assert m * (16 * a) == 16 * t;
  }

  /** Where the second chroma plane starts, from the luma size in units of 32 bytes. */
  lemma Rounded420(x: nat, t: nat, odd: nat)
    requires x == 64 * t + 32 * odd
    ensures RoundUp(x, 16) == x && RoundUp(x + x / 4, 16) == 80 * t + 32 * odd + RoundUp(8 * odd, 16)
  {
    hide RoundUp;
    RoundsToItself(x, 16);
    RoundUpShift(80 * t + 32 * odd, 8 * odd, 16);
  }

  lemma Cleared(k: nat)
    ensures ClearBit4(32 * k + 256) == 32 * k + 256
  {
    Quotient(32 * k + 256, 16, 2 * (k + 8), 0);
  }

  lemma Sizes(f: Fourcc, pitch: nat, h: nat, n: nat, x: nat)
    requires n == (if Is420(f) then (h / 2) * (pitch / 2) else if f.YVU9? then (h / 4) * (pitch / 4) else 0)
    requires x == (if Is420(f) then pitch * (h + h / 2) else if f.YVU9? then pitch * (h + h / 8) else pitch * h)
    ensures ChromaBytes(f, pitch, h) == n && PixelBytes(f, pitch, h) == x
  {}

  lemma LumaSize(pitch: nat, h: nat, x: nat)
    requires pitch * h == x
    ensures LumaBytes(pitch, h) == x
  {}

  /** 4:2:0 in numbers: where the planes start and end. */
  lemma Planes420(f: Fourcc, pitch: nat, h: nat, t: nat, odd: nat)
    requires Is420(f)
    requires LumaBytes(pitch, h) == 64 * t + 32 * odd && PixelBytes(f, pitch, h) == 96 * t + 32 * odd
    ensures First(pitch, h) == 64 * t + 32 * odd
    ensures Second(f, pitch, h) == 80 * t + 32 * odd + RoundUp(8 * odd, 16)
    ensures ClearBit4(PixelBytes(f, pitch, h) + 256) == 96 * t + 32 * odd + 256
  {
    hide RoundUp, ClearBit4, LumaBytes, PixelBytes;
    assert First(pitch, h) == 64 * t + 32 * odd && Second(f, pitch, h) == 80 * t + 32 * odd + RoundUp(8 * odd, 16) by {
      Rounded420(64 * t + 32 * odd, t, odd);
    }
    Cleared(3 * t + odd);
  }

  /** The planes of a frame lie one behind the other and inside the frame. */
  ghost predicate PlanesFit(f: Fourcc, pitch: nat, h: nat) {
    var n := ChromaBytes(f, pitch, h);
    && LumaBytes(pitch, h) <= First(pitch, h)
    && First(pitch, h) + n <= Second(f, pitch, h)
    && Second(f, pitch, h) + n <= ClearBit4(PixelBytes(f, pitch, h) + 256)
  }

  /** 4:2:0 planes fit exactly for even heights, and for odd ones as long as the 256 bytes of
      slack cover the quarter row by which the second chroma plane is late. */
  lemma Fit420Iff(f: Fourcc, pitch: nat, h: nat)
    requires Is420(f) && pitch % 32 == 0
    ensures PlanesFit(f, pitch, h) <==> h % 2 == 0 || pitch <= 1024
  {
    hide RoundUp, First, Second, ChromaBytes, PixelBytes, ClearBit4, LumaBytes;
    var a, m, r := pitch / 32, h / 2, h % 2;
    Products420(a, m, r);
    var odd := if r == 0 then 0 else a;
    var t := a * m;
    TimesNat(a, m);
    LumaSize(pitch, h, 64 * t + 32 * odd);
    Sizes(f, pitch, h, 16 * t, 96 * t + 32 * odd);
    Planes420(f, pitch, h, t, odd);
    RoundEights(odd);
  }

  lemma RoundEights(a: nat)
    ensures RoundUp(8 * a, 16) == if a % 2 == 0 then 8 * a else 8 * a + 8
  {
    RoundUpShift(16 * (a / 2), 8 * (a % 2), 16);
  }

  /** The products for pitch 64a and height 8q+r. */
  lemma Products410(a: nat, q: nat, r: nat)
    requires r < 8
    ensures var pitch, h, t, u := 64 * a, 8 * q + r, a * q, a * r;
            && pitch * h == 512 * t + 64 * u
            && pitch * (h + h / 8) == 576 * t + 64 * u
            && (h / 4) * (pitch / 4) == 32 * t + 16 * (a * (r / 4))
  {
    var t, u := a * q, a * r;
    assert 64 * a * (8 * q + r) == 512 * t + 64 * u;
    assert 64 * a * (9 * q + r) == 576 * t + 64 * u;
    assert (8 * q + r) / 8 == q && (8 * q + r) / 4 == 2 * q + r / 4 && 64 * a / 4 == 16 * a;
    assert (2 * q + r / 4) * (16 * a) == 32 * t + 16 * (a * (r / 4));
  }

  lemma TimesNat(a: nat, b: nat)
    ensures a * b >= 0
  {}

  lemma Rounded410(x: nat, t: nat, u: nat)
    requires x == 512 * t + 64 * u
    ensures RoundUp(x, 16) == x && RoundUp(x + x / 16, 16) == 544 * t + 64 * u + RoundUp(4 * u, 16)
  {
    hide RoundUp;
    RoundsToItself(x, 16);
    RoundUpShift(544 * t + 64 * u, 4 * u, 16);
  }

  /** YVU9 in numbers. */
  lemma Planes410(f: Fourcc, pitch: nat, h: nat, t: nat, u: nat)
    requires f.YVU9?
    requires LumaBytes(pitch, h) == 512 * t + 64 * u && PixelBytes(f, pitch, h) == 576 * t + 64 * u
    ensures First(pitch, h) == 512 * t + 64 * u
    ensures Second(f, pitch, h) == 544 * t + 64 * u + RoundUp(4 * u, 16)
    ensures ClearBit4(PixelBytes(f, pitch, h) + 256) == 576 * t + 64 * u + 256
  {
    hide RoundUp, ClearBit4, LumaBytes, PixelBytes;
    assert First(pitch, h) == 512 * t + 64 * u && Second(f, pitch, h) == 544 * t + 64 * u + RoundUp(4 * u, 16) by {
      Rounded410(512 * t + 64 * u, t, u);
    }
    Cleared(18 * t + 2 * u);
  }

  /** YVU9 planes fit exactly when the slack covers what the last eight rows need beyond the
      eighth of the luma size set aside; always for heights that are multiples of 8. */
  lemma FitYVU9Iff(f: Fourcc, pitch: nat, h: nat)
    requires f.YVU9? && pitch % 64 == 0
    ensures PlanesFit(f, pitch, h)
       <==> RoundUp(pitch / 16 * (h % 8), 16) + pitch / 4 * (h % 8 / 4) <= 256
  {
    hide RoundUp, First, Second, ChromaBytes, PixelBytes, ClearBit4, LumaBytes;
    var a, q, r := pitch / 64, h / 8, h % 8;
    var t, u, v := a * q, a * r, a * (r / 4);
    TimesNat(a, q);
    TimesNat(a, r);
    TimesNat(a, r / 4);
    Products410(a, q, r);
    LumaSize(pitch, h, 512 * t + 64 * u);
    Sizes(f, pitch, h, 32 * t + 16 * v, 576 * t + 64 * u);
    Planes410(f, pitch, h, t, u);
    assert pitch / 16 * r == 4 * u by {
      Associates(4, a, r);
    }
    assert pitch / 4 * (r / 4) == 16 * v by {
      Associates(16, a, r / 4);
    }
    SmallRows(a, r);
  }

  lemma SmallRows(a: nat, r: nat)
    requires r < 8
    ensures 16 * (a * (r / 4)) <= 4 * (a * r)
  {}
}
