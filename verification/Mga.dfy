/** vixConfigPlayback of the Matrox driver: fixed-point scaling by the back-end scaler with the
    window clipped at the top and left screen edges, and the plane origins of four buffers.
    Registers are unsigned 32-bit numbers. */
module Mga {
  import opened Arith
  import FramePlacement

  datatype Fourcc = YV12 | I420 | IYUV | YUY2 | UYVY | OtherFourcc

  datatype Status = Done | Invalid | NotSupported

  predicate IsPlanar(f: Fourcc) {
    f.YV12? || f.I420? || f.IYUV?
  }

  function Wrap(x: int): (r: int)
    ensures 0 <= r < TWO32
  {
    x % TWO32
  }

  /** `n += n & 1` */
  function Even(n: nat): (r: nat)
    ensures r % 2 == 0 && n <= r <= n + 1
  {
    n + n % 2
  }

  /** `(sw + 8) & ~8`, which clears one bit and does not round. */
  function PackedPitch(sw: nat): (r: nat)
    ensures sw <= r <= sw + 8
  {
    if (sw + 8) / 8 % 2 == 1 then sw else sw + 8
  }

  function BesPitch(f: Fourcc, sw: nat): nat {
    if IsPlanar(f) then RoundUp(sw, 32) else PackedPitch(sw)
  }

  /** Source lines used: planar formats need an even number. */
  function Lines(f: Fourcc, h: nat): nat {
    if IsPlanar(f) then Even(h) else h
  }

  /** Bytes of one plane of full resolution. */
  function LumaBytes(f: Fourcc, w: nat, h: nat): nat {
    BesPitch(f, Even(w)) * Lines(f, h)
  }

  function FrameSize(f: Fourcc, w: nat, h: nat): nat {
    if IsPlanar(f) then LumaBytes(f, w, h) + LumaBytes(f, w, h) / 2 else LumaBytes(f, w, h) * 2
  }

  /** The part of the window cut off at the top or left edge. */
  function Cut(position: int): (r: nat)
    ensures position + r >= 0 && (r > 0 ==> position + r == 0)
  {
    if position > 0 then 0 else -position
  }

  /** Source steps between two destination pixels, in 14 fractional bits. */
  function Factor(source: nat, dest: nat): nat
    requires source >= 1 && dest >= 2
  {
    (source - 1) * 0x4000 / (dest - 1)
  }

  /** The source position of destination pixel `n` of the whole window, in 14 fractional bits. */
  function Fine(source: nat, dest: nat, n: nat): nat
    requires source >= 1 && dest >= 2
  {
    n * Factor(source, dest)
  }

  /** The same in 16 fractional bits. */
  function Position(source: nat, dest: nat, n: nat): nat
    requires source >= 1 && dest >= 2
  {
    Fine(source, dest, n) * 4
  }

  // ----- Fixed-point positions

  /** The last pixel of the window is sampled inside the source, less than a step of rounding
      below its last pixel. */
  lemma LastPosition(source: nat, dest: nat)
    requires source >= 1 && dest >= 2
    ensures Position(source, dest, dest - 1) <= (source - 1) * 0x10000
            < Position(source, dest, dest - 1) + 4 * (dest - 1)
  {
    var r := (source - 1) * 0x4000 % (dest - 1);
    assert (source - 1) * 0x4000 == (dest - 1) * Factor(source, dest) + r;
  }

  /** Positions grow along the window. */
  lemma PositionsGrow(source: nat, dest: nat, m: nat, n: nat)
    requires source >= 1 && dest >= 2 && m <= n
    ensures Position(source, dest, m) <= Position(source, dest, n)
  {
    ProductMonotone(m, n, Factor(source, dest));
  }

  /** No pixel is sampled beyond the last source pixel. */
  lemma PositionInside(source: nat, dest: nat, n: nat)
    requires source >= 1 && dest >= 2 && n < dest
    ensures Position(source, dest, n) <= (source - 1) * 0x10000
  {
    LastPosition(source, dest);
    PositionsGrow(source, dest, n, dest - 1);
    hide Position;
  }

  /** Steps of the scale register lead from one position to another. */
  lemma PositionsAdd(source: nat, dest: nat, a: nat, b: nat, scale: nat)
    requires source >= 1 && dest >= 2 && scale == Factor(source, dest) * 4
    ensures Position(source, dest, a + b) == Position(source, dest, a) + b * scale
  {
    var f := Factor(source, dest);
    hide Factor;
    assert (a + b) * f == a * f + b * f;
    assert b * scale == 4 * (b * f);
  }

  // ----- Wrapping

  lemma WrapAdd(a: int, b: int)
    ensures Wrap(Wrap(a) + b) == Wrap(a + b) && Wrap(a + Wrap(b)) == Wrap(a + b)
  {
    assert a % TWO32 + b == a + b - a / TWO32 * TWO32;
    WrapMultiple(a + b, a / TWO32);
    assert a + b % TWO32 == a + b - b / TWO32 * TWO32;
    WrapMultiple(a + b, b / TWO32);
  }

  lemma WrapMultiple(a: int, k: int)
    ensures Wrap(a - k * TWO32) == Wrap(a)
  {}

  lemma NoWrap(v: nat)
    requires v < TWO32
    ensures Wrap(v) == v
  {}

  lemma FourTimes(n: nat, factor: nat)
    ensures n * (factor * 4) == 4 * (n * factor)
  {}

  /** What the weight register gets: the fraction, and above it the sign of the product. */
  function Weight(product: nat): nat {
    (if product >= TWO31 then 1 else 0) * 0x10000 + product % 0x4000 * 4
  }

  /** The weight holds what the row number drops, also when positions wrap around. */
  lemma WeightField(a: nat)
    ensures var p, reg := Wrap(4 * a), Weight(Wrap(a));
            p / 0x10000 * 0x10000 + reg % 0x10000 == p && reg / 0x10000 == if Wrap(a) >= TWO31 then 1 else 0
  {
    LowBits(a);
    hide Wrap;
  }

  lemma LowBits(a: nat)
    ensures Wrap(4 * a) % 0x10000 == Wrap(a) % 0x4000 * 4
  {
    var d, r := a / 0x4000, a % 0x4000;
    Quotient(a, TWO32, d / 0x40000, d % 0x40000 * 0x4000 + r);
    Quotient(4 * a, TWO32, d / 0x10000, d % 0x10000 * 0x10000 + 4 * r);
    Quotient(Wrap(a), 0x4000, d % 0x40000, r);
    Quotient(Wrap(4 * a), 0x10000, d % 0x10000, 4 * r);
  }

  // ----- The driver

  class Config {
    var fourcc: Fourcc
    var w: nat
    var h: nat
    var destX: int
    var destY: int
    var destW: nat
    var destH: nat
    var numFrames: nat
    var frameSize: nat
    const offsets: array<nat>
    var offsetU: nat
    var offsetV: nat
    var pitchY: nat
    var pitchUV: nat

    constructor (fourcc: Fourcc, w: nat, h: nat, destX: int, destY: int, destW: nat, destH: nat, numFrames: nat)
      ensures this.fourcc == fourcc && this.w == w && this.h == h && this.numFrames == numFrames
      ensures this.destX == destX && this.destY == destY && this.destW == destW && this.destH == destH
      ensures offsets.Length == FramePlacement.MAX_FRAMES && fresh(offsets)
    {
      this.fourcc, this.w, this.h, this.numFrames := fourcc, w, h, numFrames;
      this.destX, this.destY, this.destW, this.destH := destX, destY, destW, destH;
      frameSize, offsetU, offsetV, pitchY, pitchUV := 0, 0, 0, 0, 0;
      offsets := new nat[FramePlacement.MAX_FRAMES](_ => 0);
    }

    /** Sizes for which the source's signed products of sizes stay below 2^31.  Sums and products
        with the position of the window are taken to wrap around: far off the screen the source
        leaves them undefined. */
    ghost predicate Manageable()
      reads this
    {
      w <= 0x8000 && h <= 0x1_8000 && FrameSize(fourcc, w, h) < TWO31
      && destW < TWO31 && destH < TWO31 && numFrames <= 64
    }
  }

  /** Bytes skipped at the start of the luma plane for a vertical position. */
  function LumaSkip(position: nat, pitch: nat): nat {
    position / 0x10000 * pitch
  }

  /** Bytes skipped at the start of the chroma planes for a vertical position. */
  function ChromaSkip(isG400: bool, position: nat, pitch: nat): nat {
    (if isG400 then position / 4 / 0x10000 else position / 2 / 0x10000) * pitch
  }

  /** What the application is told: the frame size, the frames one behind the other, and for
      planar formats the chroma planes behind luma, in the order of the format. */
  ghost predicate Told(config: Config)
    reads config, config.offsets
  {
    var luma := RoundUp(Even(config.w), 32) * Lines(config.fourcc, config.h);
    && config.frameSize == FrameSize(config.fourcc, config.w, config.h)
    && config.offsets.Length == FramePlacement.MAX_FRAMES && config.numFrames <= 64
    && (forall i :: 0 <= i < config.numFrames + 2 ==> config.offsets[i] == Wrap(i * config.frameSize))
    && (if config.fourcc.I420? || config.fourcc.IYUV? then config.offsetU == luma && config.offsetV == luma + luma / 4
        else config.offsetV == luma && config.offsetU == luma + luma / 4)
  }

  /** The position of the first line that is shown. */
  ghost function FirstLine(config: Config): nat
    requires config.h >= 1 && config.destH >= 2
    reads config
  {
    Wrap(Position(Lines(config.fourcc, config.h), config.destH, Cut(config.destY)))
  }

  /** The address of a byte of buffer `k`. */
  function Place(base: int, k: nat, size: nat, offset: nat): int {
    Wrap(base + k * size + offset)
  }

  lemma PlaceLater(base: int, k: nat, size: nat, offset: nat, further: nat)
    ensures Wrap(Place(base, k, size, offset) + further) == Place(base, k, size, offset + further)
  {
    hide Wrap;
    WrapAdd(base + k * size + offset, further);
  }

  class Driver {
    const isG400: bool
    var srcBase: int
    // The scaler's registers; `org`, `corg` and `c3org` hold buffers a1, a2, b1 and b2, and
    // both fields have the same vertical registers.
    var pitch: nat
    var hCoord: int
    var vCoord: int
    var hScale: int
    var hSrcStart: int
    var hSrcEnd: int
    var hSrcLast: int
    var vScale: nat
    var vWeight: nat
    var vSrcLast: int
    const org: array<int>
    const corg: array<int>
    const c3org: array<int>

    constructor (isG400: bool, srcBase: int)
      ensures this.isG400 == isG400 && this.srcBase == srcBase
      ensures Arrays() && fresh(org) && fresh(corg) && fresh(c3org)
    {
      this.isG400, this.srcBase := isG400, srcBase;
      pitch, hCoord, vCoord, hScale, hSrcStart, hSrcEnd, hSrcLast := 0, 0, 0, 0, 0, 0, 0;
      vScale, vWeight, vSrcLast := 0, 0, 0;
      org, corg, c3org := new int[4](_ => 0), new int[4](_ => 0), new int[4](_ => 0);
    }

    ghost predicate Arrays() {
      org.Length == 4 && corg.Length == 4 && c3org.Length == 4 && org != corg && org != c3org && corg != c3org
    }

    /** Horizontal registers: the end is where the last pixel of the whole window is sampled. */
    ghost predicate Horizontal(sw: nat, x: int, dw: nat)
      requires sw >= 1 && dw >= 2
      reads `hScale, `hSrcStart, `hSrcEnd, `hSrcLast, `hCoord
    {
      && hScale == Factor(sw, dw) * 4
      && hSrcStart == Wrap(Position(sw, dw, Cut(x)))
      && hSrcEnd == Wrap(Position(sw, dw, dw - 1))
      && hSrcLast == (sw - 1) * 0x10000
      && hCoord == Wrap((x + Cut(x)) * 0x10000 + x + dw - 1)
    }

    /** Vertical registers: row and weight together are the position of the first line shown. */
    ghost predicate Vertical(sh: nat, y: int, dh: nat)
      requires sh >= 1 && dh >= 2
      reads `vScale, `vWeight, `vSrcLast, `vCoord
    {
      var p := Wrap(Position(sh, dh, Cut(y)));
      && vScale == Factor(sh, dh) * 4
      && p / 0x10000 * 0x10000 + vWeight % 0x10000 == p
      && vWeight / 0x10000 == (if Wrap(Fine(sh, dh, Cut(y))) >= TWO31 then 1 else 0)
      && vSrcLast == Wrap(sh - 1 - p / 0x10000 % 0x400)
      && vCoord == Wrap((y + Cut(y)) * 0x10000 + y + dh - 1)
    }

    /** The origins of buffer `k` for frames of `size` bytes with chroma at `u` and `v`. */
    ghost predicate Origins(planar: bool, p: nat, size: nat, u: nat, v: nat)
      requires Arrays()
      reads `srcBase, `pitch, org, corg, c3org
    {
      forall k :: 0 <= k < 4 ==>
        && org[k] == Place(srcBase, k, size, LumaSkip(p, pitch))
        && (planar ==> corg[k] == Place(srcBase, k, size, v + ChromaSkip(isG400, p, pitch)))
        && (planar ==> c3org[k] == Place(srcBase, k, size, u + ChromaSkip(isG400, p, pitch)))
    }

    method SetHorizontal(sw: nat, x: int, dw: nat)
      requires 4 <= sw <= 0x8000 && dw >= 4
      modifies `hCoord, `hSrcLast, `hScale, `hSrcStart, `hSrcEnd
      ensures Horizontal(sw, x, dw)
    {
      var besLeft := if x > 0 then x else 0;
      hCoord := Wrap(besLeft * 0x10000 + (x + dw - 1));
      hSrcLast := Wrap((sw - 1) * 0x10000);
      var iFactor := (sw - 1) * 0x4000 / (dw - 1);
      var ofsLeft := besLeft - x;
      FactorBound(sw, dw);
      hScale := Wrap(iFactor * 4);
      hSrcStart := Wrap(ofsLeft * iFactor * 4);
      hSrcEnd := Wrap(hSrcStart + (dw - ofsLeft - 1) * iFactor * 4);
      HorizontalSum(ofsLeft, dw, iFactor);
      hide Wrap;
    }

    method SetVertical(sh: nat, y: int, dh: nat)
      requires 4 <= sh <= 0x1_8000 && dh >= 4
      modifies `vCoord, `vScale, `vWeight, `vSrcLast
      ensures Vertical(sh, y, dh)
    {
      var besTop := if y > 0 then y else 0;
      vCoord := Wrap(besTop * 0x10000 + (y + dh - 1));
      var iFactor := (sh - 1) * 0x4000 / (dh - 1);
      var ofsTop := besTop - y;
      FactorBound(sh, dh);
      vScale := Wrap(iFactor * 4);
      var weight := Wrap(ofsTop * (vScale / 4));
      var weights := if weight >= TWO31 then 1 else 0;
      vWeight := weights * 0x10000 + weight % 0x4000 * 4;
      vSrcLast := Wrap(sh - 1 - Wrap(ofsTop * vScale) / 0x10000 % 0x400);
      assert vScale / 4 == iFactor && vWeight == Weight(weight);
      FourTimes(ofsTop, iFactor);
      hide Weight, Wrap;
      WeightField(ofsTop * iFactor);
    }

    method SetLumaOrigins(ofsTop: nat, frameSize: nat)
      requires Arrays()
      modifies org
      ensures forall k :: 0 <= k < 4 ==>
                org[k] == Place(srcBase, k, frameSize, LumaSkip(Wrap(ofsTop * vScale), pitch))
    {
      var baseAdrOfs := LumaSkip(Wrap(ofsTop * vScale), pitch);
      hide LumaSkip, Wrap;
      org[0] := Wrap(srcBase + baseAdrOfs);
      org[1] := Wrap(srcBase + baseAdrOfs + 1 * frameSize);
      org[2] := Wrap(srcBase + baseAdrOfs + 2 * frameSize);
      org[3] := Wrap(srcBase + baseAdrOfs + 3 * frameSize);
    }

    /** The plane behind luma and the one behind that, for one of the four buffers. */
    method SetChromaOrigins(first: array<int>, second: array<int>, luma: nat, ofsTop: nat, frameSize: nat)
      requires first.Length == 4 && second.Length == 4 && first != second
      modifies first, second
      ensures var skip := ChromaSkip(isG400, Wrap(ofsTop * vScale), pitch);
              forall k :: 0 <= k < 4 ==>
                && first[k] == Place(srcBase, k, frameSize, luma + skip)
                && second[k] == Place(srcBase, k, frameSize, luma + luma / 4 + skip)
    {
      var baseAdrOfs := ChromaSkip(isG400, Wrap(ofsTop * vScale), pitch);
      hide ChromaSkip, Wrap;
      first[0] := Wrap(srcBase + baseAdrOfs + luma);
      first[1] := Wrap(srcBase + baseAdrOfs + 1 * frameSize + luma);
      first[2] := Wrap(srcBase + baseAdrOfs + 2 * frameSize + luma);
      first[3] := Wrap(srcBase + baseAdrOfs + 3 * frameSize + luma);
      assert forall k :: 0 <= k < 4 ==> first[k] == Place(srcBase, k, frameSize, luma + baseAdrOfs);
      SetBehind(first, second, luma, baseAdrOfs, frameSize);
    }

    method SetBehind(first: array<int>, second: array<int>, luma: nat, ghost skip: nat, ghost frameSize: nat)
      requires first.Length == 4 && second.Length == 4 && first != second
      requires forall k :: 0 <= k < 4 ==> first[k] == Place(srcBase, k, frameSize, luma + skip)
      modifies second
      ensures forall k :: 0 <= k < 4 ==> second[k] == Place(srcBase, k, frameSize, luma + luma / 4 + skip)
    {
      hide Place, Wrap;
      forall k | 0 <= k < 4
        ensures Wrap(first[k] + luma / 4) == Place(srcBase, k, frameSize, luma + luma / 4 + skip)
      {
        PlaceLater(srcBase, k, frameSize, luma + skip, luma / 4);
      }
      second[0] := Wrap(first[0] + luma / 4);
      second[1] := Wrap(first[1] + luma / 4);
      second[2] := Wrap(first[2] + luma / 4);
      second[3] := Wrap(first[3] + luma / 4);
    }

    method SetOrigins(f: Fourcc, sh: nat, ofsTop: nat, frameSize: nat, ghost u: nat, ghost v: nat)
      requires Arrays()
      requires IsPlanar(f) ==> var luma := pitch * sh;
                               if f.YV12? then v == luma && u == luma + luma / 4 else u == luma && v == luma + luma / 4
      modifies org, corg, c3org
      ensures Origins(IsPlanar(f), Wrap(ofsTop * vScale), frameSize, u, v)
    {
      hide Wrap, Place, LumaSkip, ChromaSkip;
      SetLumaOrigins(ofsTop, frameSize);
      if IsPlanar(f) {
        var luma := pitch * sh;
        if f.YV12? {
          SetChromaOrigins(corg, c3org, luma, ofsTop, frameSize);
        } else {
          SetChromaOrigins(c3org, corg, luma, ofsTop, frameSize);
        }
      }
    }

    /** Offsets of the frames, and of the planes inside a frame. */
    method TellOffsets(config: Config, sw: nat, sh: nat)
      requires config.offsets.Length == FramePlacement.MAX_FRAMES && config.numFrames <= 64
      modifies config`offsetU, config`offsetV, config.offsets
      ensures forall i :: 0 <= i < config.numFrames + 2 ==> config.offsets[i] == Wrap(i * config.frameSize)
      ensures var luma := RoundUp(sw, 32) * sh;
              if config.fourcc.I420? || config.fourcc.IYUV?
              then config.offsetU == luma && config.offsetV == luma + luma / 4
              else config.offsetV == luma && config.offsetU == luma + luma / 4
    {
      config.offsets[0] := 0;
      var i := 1;
      while i < config.numFrames + 2
        invariant 1 <= i <= config.numFrames + 2
        invariant forall j :: 0 <= j < i ==> config.offsets[j] == Wrap(j * config.frameSize)
      {
        config.offsets[i] := Wrap(i * config.frameSize);
        i := i + 1;
      }
      var luma := RoundUp(sw, 32) * sh;
      if config.fourcc.I420? || config.fourcc.IYUV? {
        config.offsetU := luma;
        config.offsetV := config.offsetU + luma / 4;
      } else {
        config.offsetV := luma;
        config.offsetU := config.offsetV + luma / 4;
      }
    }

    /** Source lines and frame size of a known format. */
    method SetFormat(config: Config, sw: nat) returns (known: bool, sh: nat)
      requires sw == Even(config.w)
      modifies config`frameSize, config`pitchY, config`pitchUV
      ensures known == !config.fourcc.OtherFourcc?
      ensures known ==> sh == Lines(config.fourcc, config.h)
      ensures config.fourcc.YV12? || config.fourcc.I420? || config.fourcc.IYUV? ==>
                config.pitchY == 32 && config.pitchUV == 32
      ensures config.fourcc.YUY2? || config.fourcc.UYVY? ==> config.pitchY == 16 && config.pitchUV == 0
      ensures known ==> config.frameSize == FrameSize(config.fourcc, config.w, config.h)
    {
      hide RoundUp, PackedPitch, Even;
      known, sh := true, config.h;
      if config.fourcc.I420? || config.fourcc.IYUV? || config.fourcc.YV12? {
        sh := sh + sh % 2;
        assert sh == Lines(config.fourcc, config.h) by {
          assert sh == Even(config.h) by {
            assert sh == config.h + config.h % 2;
          }
        }
        config.pitchY, config.pitchUV := 32, 32;
        config.frameSize := RoundUp(sw, 32) * sh + RoundUp(sw, 32) * sh / 2;
      } else if config.fourcc.YUY2? || config.fourcc.UYVY? {
        config.pitchY, config.pitchUV := 16, 0;
        config.frameSize := PackedPitch(sw) * sh * 2;
      } else {
        known := false;
      }
    }

    /** Everything that follows from the size of the source that is used. */
    method SetScaler(config: Config, sw: nat, sh: nat)
      requires Arrays() && config.offsets.Length == FramePlacement.MAX_FRAMES && config.numFrames <= 64
      requires 4 <= sw <= 0x8000 && 4 <= sh <= 0x1_8000
      requires config.w >= 4 && config.h >= 4 && config.destW >= 4 && config.destH >= 4
      requires sw == Even(config.w) && sh == Lines(config.fourcc, config.h)
      requires config.frameSize == FrameSize(config.fourcc, config.w, config.h)
      modifies this`pitch, this`hCoord, this`hSrcLast, this`hScale, this`hSrcStart, this`hSrcEnd
      modifies this`vCoord, this`vScale, this`vWeight, this`vSrcLast, org, corg, c3org
      modifies config`offsetU, config`offsetV, config.offsets
      ensures Told(config) && pitch == BesPitch(config.fourcc, sw)
      ensures Horizontal(sw, config.destX, config.destW) && Vertical(sh, config.destY, config.destH)
      ensures Origins(IsPlanar(config.fourcc), FirstLine(config), config.frameSize, config.offsetU, config.offsetV)
    {
      hide Wrap, LumaSkip, ChromaSkip, Factor, RoundUp, PackedPitch, Place, Cut, Origins, FrameSize, Even, Lines;
      TellOffsets(config, sw, sh);
      assert Told(config);
      hide Told;
      pitch := if IsPlanar(config.fourcc) then RoundUp(sw, 32) else PackedPitch(sw);
      SetHorizontal(sw, config.destX, config.destW);
      SetVertical(sh, config.destY, config.destH);
      PositionsAdd(sh, config.destH, 0, Cut(config.destY), vScale);
      assert Position(sh, config.destH, 0) == 0;
      assert Wrap(Cut(config.destY) * vScale) == FirstLine(config);
      hide Horizontal, Vertical, FirstLine, Position;
      SetOrigins(config.fourcc, sh, Cut(config.destY), config.frameSize, config.offsetU, config.offsetV);
    }

    /** Programs the scaler and tells the application where frames and planes are. */
    method ConfigPlayback(config: Config) returns (status: Status)
      requires Arrays() && config.Manageable()
      requires config.offsets.Length == FramePlacement.MAX_FRAMES
      modifies this`pitch, this`hCoord, this`hSrcLast, this`hScale, this`hSrcStart, this`hSrcEnd
      modifies this`vCoord, this`vScale, this`vWeight, this`vSrcLast, org, corg, c3org
      modifies config`frameSize, config`offsetU, config`offsetV, config`pitchY, config`pitchUV, config.offsets
      ensures status == if config.w < 4 || config.h < 4 || config.destW < 4 || config.destH < 4 then Invalid
                        else if config.fourcc.OtherFourcc? then NotSupported else Done
      ensures status == Done ==> Told(config) && pitch == BesPitch(config.fourcc, Even(config.w))
      ensures status == Done ==>
                && config.pitchY == (if config.fourcc.YUY2? || config.fourcc.UYVY? then 16 else 32)
                && config.pitchUV == (if config.fourcc.YUY2? || config.fourcc.UYVY? then 0 else 32)
      ensures status == Done ==>
                && Horizontal(Even(config.w), config.destX, config.destW)
                && Vertical(Lines(config.fourcc, config.h), config.destY, config.destH)
                && Origins(IsPlanar(config.fourcc), FirstLine(config), config.frameSize, config.offsetU, config.offsetV)
    {
      hide Told, Horizontal, Vertical, FirstLine, Origins, BesPitch, FrameSize, Wrap;
      if config.w < 4 || config.h < 4 || config.destW < 4 || config.destH < 4 {
        return Invalid;
      }
      var sw := config.w + config.w % 2;
      var known, sh := SetFormat(config, sw);
      if !known {
        return NotSupported;
      }
      SetScaler(config, sw, sh);
      return Done;
    }
  }

  lemma FactorBound(source: nat, dest: nat)
    requires 4 <= source <= 0x1_8000 && dest >= 4
    ensures Wrap(Factor(source, dest) * 4) == Factor(source, dest) * 4 < TWO31
    ensures source <= 0x8000 ==> Wrap((source - 1) * 0x10000) == (source - 1) * 0x10000
  {
    var f := Factor(source, dest);
    ProductMonotone(3, dest - 1, f);
    assert f * (dest - 1) <= (source - 1) * 0x4000;
  }

  /** The end of the span does not depend on the part cut off. */
  lemma HorizontalSum(cut: nat, dw: nat, factor: nat)
    requires dw >= 1
    ensures Wrap(Wrap(cut * factor * 4) + (dw - cut - 1) * factor * 4) == Wrap((dw - 1) * factor * 4)
  {
    hide Wrap;
    WrapAdd(cut * factor * 4, (dw - cut - 1) * factor * 4);
    Collect(cut, dw - cut - 1, factor);
  }

  lemma Collect(a: int, b: int, c: int)
    ensures a * c + b * c == (a + b) * c
  {}

  // ----- What the registers make the scaler do

  /** Whatever is cut off at the left, pixel `n` on the screen is sampled where the whole window
      samples pixel `cut + n`, never beyond the end that was programmed; and the end is less
      than the rounding of all steps short of the last source pixel. */
  lemma HorizontalSamples(d: Driver, sw: nat, x: int, dw: nat, n: nat)
    requires 4 <= sw <= 0x8000 && 4 <= dw && d.Horizontal(sw, x, dw) && Cut(x) + n < dw
    ensures d.hSrcStart + n * d.hScale == Position(sw, dw, Cut(x) + n) <= d.hSrcEnd
    ensures Cut(x) + n == dw - 1 ==> d.hSrcStart + n * d.hScale == d.hSrcEnd
    ensures d.hSrcEnd <= d.hSrcLast < d.hSrcEnd + 4 * (dw - 1)
  {
    hide Position, Factor, Wrap;
    LastPosition(sw, dw);
    PositionInside(sw, dw, Cut(x));
    PositionsAdd(sw, dw, Cut(x), n, d.hScale);
    PositionsGrow(sw, dw, Cut(x) + n, dw - 1);
    NoWrap(Position(sw, dw, Cut(x)));
    NoWrap(Position(sw, dw, dw - 1));
  }

  /** The window registers hold the visible columns. */
  lemma VisibleColumns(d: Driver, sw: nat, x: int, dw: nat)
    requires 4 <= sw && 4 <= dw && d.Horizontal(sw, x, dw) && Cut(x) < dw && x + dw <= 0x10000
    ensures var left, right := d.hCoord / 0x10000, d.hCoord % 0x10000;
            left == x + Cut(x) && right == x + dw - 1 && right - left + 1 == dw - Cut(x)
  {
    Quotient((x + Cut(x)) * 0x10000 + x + dw - 1, 0x10000, x + Cut(x), x + dw - 1);
  }

  /** And the visible lines. */
  lemma VisibleLines(d: Driver, sh: nat, y: int, dh: nat)
    requires 4 <= sh && 4 <= dh && d.Vertical(sh, y, dh) && Cut(y) < dh && y + dh <= 0x10000
    ensures var top, bottom := d.vCoord / 0x10000, d.vCoord % 0x10000;
            top == y + Cut(y) && bottom == y + dh - 1 && bottom - top + 1 == dh - Cut(y)
  {
    hide Position, Fine, Factor;
    Quotient((y + Cut(y)) * 0x10000 + y + dh - 1, 0x10000, y + Cut(y), y + dh - 1);
  }

  /** The first source row shown. */
  ghost function FirstRow(sh: nat, y: int, dh: nat): nat
    requires sh >= 1 && dh >= 2
  {
    Wrap(Position(sh, dh, Cut(y))) / 0x10000
  }

  /** The same for lines: first row and weight continue the positions of the whole window, all
      rows are in the source, and the last-row register is exact iff the first row fits ten bits. */
  lemma VerticalSamples(d: Driver, sh: nat, y: int, dh: nat, n: nat)
    requires 4 <= sh <= 0x1_0000 && 4 <= dh && d.Vertical(sh, y, dh) && Cut(y) + n < dh
    ensures var row, p := FirstRow(sh, y, dh), Position(sh, dh, Cut(y) + n);
            && d.vWeight < 0x10000 && row * 0x10000 + d.vWeight + n * d.vScale == p
            && row <= p / 0x10000 <= sh - 1
            && (row + d.vSrcLast == sh - 1 <==> row < 0x400)
    ensures sh <= 0x400 ==> FirstRow(sh, y, dh) + d.vSrcLast == sh - 1
  {
    var cut := Cut(y);
    assert Position(sh, dh, cut) == 4 * Fine(sh, dh, cut);
    hide Position, Factor, Fine, Wrap;
    PositionInside(sh, dh, cut);
    PositionInside(sh, dh, cut + n);
    PositionsAdd(sh, dh, cut, n, d.vScale);
    NoWrap(Position(sh, dh, cut));
    NoWrap(Fine(sh, dh, cut));
    PositionsGrow(sh, dh, cut, cut + n);
    VerticalFields(sh, Position(sh, dh, cut), d.vWeight, n * d.vScale, Position(sh, dh, cut + n), d.vSrcLast);
  }

  /** Row, weight and last row as plain numbers. */
  lemma VerticalFields(sh: nat, p: nat, weight: nat, steps: int, later: nat, last: int)
    requires 4 <= sh <= 0x1_0000 && p <= p + steps == later <= (sh - 1) * 0x10000
    requires p / 0x10000 * 0x10000 + weight % 0x10000 == p && weight / 0x10000 == 0
    requires last == Wrap(sh - 1 - p / 0x10000 % 0x400)
    ensures weight < 0x10000 && p / 0x10000 * 0x10000 + weight + steps == later
    ensures p / 0x10000 <= later / 0x10000 <= sh - 1
    ensures p / 0x10000 + last == sh - 1 <==> p / 0x10000 < 0x400
  {}

  /** Rows in memory hold an even number of pixels: planar ones are the next multiple of 32 bytes
      long, packed ones have eight pixels to spare where bit 3 would be set without. */
  lemma PitchOfRows(f: Fourcc, w: nat)
    ensures var p, sw := BesPitch(f, Even(w)), w + w % 2;
            && (f.YV12? || f.I420? || f.IYUV? ==> p % 32 == 0 && sw <= p < sw + 32)
            && (f.YUY2? || f.UYVY? ==> p == if sw / 8 % 2 == 0 then sw else sw + 8)
  {}

  /** Frames with two bytes a pixel hold all their rows, one behind the other, and lie apart. */
  lemma PackedFrames(config: Config, pitch: nat, row: nat, col: nat, i: nat, j: nat)
    requires Told(config) && (config.fourcc.YUY2? || config.fourcc.UYVY?)
    requires pitch == BesPitch(config.fourcc, Even(config.w)) && row < config.h && col < 2 * config.w && i < j
    ensures row * (2 * pitch) + col < (row + 1) * (2 * pitch) <= config.frameSize == config.h * (2 * pitch)
    ensures i * config.frameSize + row * (2 * pitch) + col < j * config.frameSize
  {
    PitchOfRows(config.fourcc, config.w);
    hide BesPitch, Even, RoundUp, Wrap;
    Associates(2, pitch, config.h);
    ProductMonotone(row + 1, config.h, 2 * pitch);
    ProductMonotone(i + 1, j, config.frameSize);
    Collect(row, 1, 2 * pitch);
    Collect(i, 1, config.frameSize);
  }

  /** Reading on from the origin of packed buffer `k`, the scaler finds row after row where the
      application was told to put them if the picture is not cut off at the top; otherwise it is
      early by one byte for each of two that a skipped pixel takes. */
  lemma PackedScan(d: Driver, config: Config, k: nat, first: nat, row: nat, col: nat)
    requires d.Arrays() && Told(config) && (config.fourcc.YUY2? || config.fourcc.UYVY?)
    requires d.pitch == BesPitch(config.fourcc, Even(config.w)) && config.h >= 4 && config.destH >= 4
    requires d.Origins(false, FirstLine(config), config.frameSize, config.offsetU, config.offsetV)
    requires k < 4 && k < config.numFrames + 2 && first <= row
    requires first == FirstRow(Lines(config.fourcc, config.h), config.destY, config.destH)
    ensures Wrap(d.org[k] + first * d.pitch + (row - first) * (2 * d.pitch) + col)
            == Wrap(d.srcBase + config.offsets[k] + row * (2 * d.pitch) + col)
    ensures config.destY >= 0 ==> first == 0
  {
    hide FirstLine, FirstRow, RoundUp, FrameSize, Wrap, Place, BesPitch, Lines, Even;
    RowOfLine(config);
    FrameTold(config, k);
    var skip := first * d.pitch;
    TwoSkips(first, row, d.pitch);
    PlaceLater(d.srcBase, k, config.frameSize, skip, skip + (row - first) * (2 * d.pitch) + col);
    PlaceTold(d.srcBase, k, config.frameSize, config.offsets[k], row * (2 * d.pitch) + col);
  }

  lemma RowOfLine(config: Config)
    requires config.h >= 1 && config.destH >= 2
    ensures FirstLine(config) / 0x10000 == FirstRow(Lines(config.fourcc, config.h), config.destY, config.destH)
    ensures config.destY >= 0 ==> FirstRow(Lines(config.fourcc, config.h), config.destY, config.destH) == 0
  {
    hide Lines, Factor;
  }

  lemma TwoSkips(first: nat, row: nat, pitch: nat)
    requires first <= row
    ensures first * pitch + first * pitch + (row - first) * (2 * pitch) == row * (2 * pitch)
    ensures (row - first) * (2 * pitch) >= 0
  {
    Collect(first, row - first, 2 * pitch);
  }

  /** The planes of a planar frame fill it without a gap. */
  lemma PlanesFill(config: Config)
    requires Told(config) && IsPlanar(config.fourcc)
    ensures var luma := LumaBytes(config.fourcc, config.w, config.h);
            && luma % 64 == 0 && config.frameSize == luma + luma / 4 + luma / 4
            && (if config.fourcc.YV12? then config.offsetV == luma && config.offsetU == luma + luma / 4
                else config.offsetU == luma && config.offsetV == luma + luma / 4)
            && luma / 4 == Lines(config.fourcc, config.h) / 2 * (BesPitch(config.fourcc, Even(config.w)) / 2)
            && luma == BesPitch(config.fourcc, Even(config.w)) * (config.h + config.h % 2)
            && Lines(config.fourcc, config.h) == config.h + config.h % 2
  {
    var f, sw, sh := config.fourcc, Even(config.w), Lines(config.fourcc, config.h);
    PlanarEven(f, sw, config.h);
    hide RoundUp, Even, Lines;
    HalfTimesHalf(BesPitch(f, sw), sh, LumaBytes(f, config.w, config.h));
  }

  lemma PlanarEven(f: Fourcc, sw: nat, h: nat)
    requires IsPlanar(f)
    ensures BesPitch(f, sw) % 32 == 0 && BesPitch(f, sw) % 2 == 0 && Lines(f, h) % 2 == 0
  {
    var r := RoundUp(sw, 32);
    hide RoundUp;
    MultipleOfFactor(r, 2, 16);
  }

  lemma HalfTimesHalf(p: nat, sh: nat, luma: nat)
    requires p % 32 == 0 && p % 2 == 0 && sh % 2 == 0 && luma == p * sh
    ensures luma / 4 == sh / 2 * (p / 2) && luma % 64 == 0 && luma / 2 == luma / 4 + luma / 4
  {
    var a, b := p / 32, sh / 2;
    assert luma == 32 * a * (2 * b) == 64 * (a * b);
    assert sh / 2 * (p / 2) == b * (16 * a) == 16 * (a * b);
  }

  /** Moving on from a skip of whole rows. */
  lemma ScanFrom(base: int, k: nat, size: nat, offset: nat, from: nat, row: nat, bytes: nat, col: nat)
    requires from <= row
    ensures Wrap(Place(base, k, size, offset + from * bytes) + (row - from) * bytes + col)
            == Place(base, k, size, offset + row * bytes + col)
  {
    Collect(from, row - from, bytes);
    PlaceLater(base, k, size, offset + from * bytes, (row - from) * bytes + col);
    hide Place, Wrap;
  }

  lemma InPlane(row: nat, rows: nat, bytes: nat, col: nat)
    requires row < rows && col < bytes
    ensures row * bytes + col < rows * bytes
  {
    ProductMonotone(row + 1, rows, bytes);
  }

  /** Reading on from the luma origin of buffer `k`, the scaler finds row after row where the
      application was told to put them, inside the luma plane. */
  lemma LumaScan(d: Driver, config: Config, k: nat, first: nat, row: nat, col: nat)
    requires d.Arrays() && Told(config) && IsPlanar(config.fourcc) && config.h >= 4 && config.destH >= 4
    requires d.pitch == BesPitch(config.fourcc, Even(config.w))
    requires d.Origins(true, FirstLine(config), config.frameSize, config.offsetU, config.offsetV)
    requires k < 4 && k < config.numFrames + 2
    requires first == FirstRow(Lines(config.fourcc, config.h), config.destY, config.destH)
    requires first <= row < Lines(config.fourcc, config.h) && col < d.pitch
    ensures Wrap(d.org[k] + (row - first) * d.pitch + col)
            == Wrap(d.srcBase + config.offsets[k] + row * d.pitch + col)
    ensures row * d.pitch + col < LumaBytes(config.fourcc, config.w, config.h)
  {
    hide FirstLine, FirstRow, RoundUp, FrameSize, Wrap, Place, BesPitch, Lines, Even;
    RowOfLine(config);
    ScanFrom(d.srcBase, k, config.frameSize, 0, first, row, d.pitch, col);
    FrameTold(config, k);
    PlaceTold(d.srcBase, k, config.frameSize, config.offsets[k], row * d.pitch + col);
    InPlane(row, Lines(config.fourcc, config.h), d.pitch, col);
  }

  /** The first chroma row read: with separate planes the driver starts two rows for every four
      rows of luma, with interleaved chroma one for every two. */
  function FirstChromaRow(isG400: bool, firstRow: nat): nat {
    if isG400 then firstRow / 4 * 2 else firstRow / 2
  }

  /** Separate chroma planes start at the row that belongs to the first luma row exactly if that
      is the first or second of four; interleaved chroma always does. */
  lemma ChromaStart(isG400: bool, position: nat, pitch: nat)
    requires pitch > 0 && pitch % 2 == 0
    ensures var row, bytes := position / 0x10000, if isG400 then pitch / 2 else pitch;
            && ChromaSkip(isG400, position, pitch) == FirstChromaRow(isG400, row) * bytes
            && (ChromaSkip(isG400, position, pitch) == row / 2 * bytes <==> !isG400 || row % 4 < 2)
  {
    var row := position / 0x10000;
    var q := if isG400 then row / 4 else row / 2;
    assert ChromaSkip(isG400, position, pitch) == q * pitch by {
      if isG400 {
        Quotient(position, 0x40000, row / 4, row % 4 * 0x10000 + position % 0x10000);
        assert position / 4 / 0x10000 == row / 4;
      } else {
        assert position / 2 / 0x10000 == row / 2;
      }
    }
    if isG400 {
      var half := pitch / 2;
      assert q * pitch == q * 2 * half;
      hide ChromaSkip;
      if row / 2 != q * 2 {
        assert row / 2 == q * 2 + 1;
        Collect(q * 2, 1, half);
      }
    }
  }

  /** On the G400 the two chroma planes start at this row of buffer `k`. */
  lemma ChromaOrigins(d: Driver, config: Config, k: nat, half: nat)
    requires d.Arrays() && d.isG400 && Told(config) && IsPlanar(config.fourcc) && config.h >= 4 && config.destH >= 4
    requires d.pitch == BesPitch(config.fourcc, Even(config.w)) && d.pitch > 0 && half == d.pitch / 2
    requires d.Origins(true, FirstLine(config), config.frameSize, config.offsetU, config.offsetV)
    requires k < 4 && k < config.numFrames + 2
    ensures var skip := FirstChromaRow(true,
            FirstRow(Lines(config.fourcc, config.h), config.destY, config.destH)) * half;
            && d.corg[k] == Wrap(d.srcBase + config.offsets[k] + config.offsetV + skip)
            && d.c3org[k] == Wrap(d.srcBase + config.offsets[k] + config.offsetU + skip)
  {
    RowOfLine(config);
    hide FirstRow, Told, FrameSize, ChromaSkip, FirstChromaRow, RoundUp, Even, Lines, Wrap, LumaBytes, BesPitch,
        FirstLine, Place;
    FrameTold(config, k);
    PlanarEven(config.fourcc, Even(config.w), config.h);
    var frame := config.offsets[k];
    StartOf(d.srcBase, k, config.frameSize, frame, config.offsetV, FirstLine(config), d.pitch, half);
    StartOf(d.srcBase, k, config.frameSize, frame, config.offsetU, FirstLine(config), d.pitch, half);
  }

  lemma FrameTold(config: Config, k: nat)
    requires Told(config) && k < config.numFrames + 2
    ensures k < config.offsets.Length && config.offsets[k] == Wrap(k * config.frameSize)
  {
    hide FrameSize, Lines, RoundUp, Wrap;
  }

  /** An address told in two parts, of which the first may have wrapped around. */
  lemma PlaceTold(base: int, k: nat, size: nat, frame: nat, offset: nat)
    requires frame == Wrap(k * size)
    ensures Place(base, k, size, offset) == Wrap(base + frame + offset)
  {
    hide Wrap;
    WrapAdd(base + offset, k * size);
  }

  lemma StartOf(base: int, k: nat, size: nat, frame: nat, offset: nat, position: nat, pitch: nat, half: nat)
    requires frame == Wrap(k * size) && pitch > 0 && pitch % 2 == 0 && half == pitch / 2
    ensures Place(base, k, size, offset + ChromaSkip(true, position, pitch))
            == Wrap(base + frame + offset + FirstChromaRow(true, position / 0x10000) * half)
  {
    ChromaStart(true, position, pitch);
    PlaceTold(base, k, size, frame, offset + ChromaSkip(true, position, pitch));
    hide ChromaSkip, FirstChromaRow, Wrap, Place;
  }

  /** Reading on from there, both are read where they were put and not beyond their ends. */
  lemma ChromaScan(config: Config, origin: int, base: int, offset: nat, position: nat,
                   row: nat, half: nat, col: nat)
    requires Told(config) && IsPlanar(config.fourcc) && half == BesPitch(config.fourcc, Even(config.w)) / 2
    requires origin == Wrap(base + offset + FirstChromaRow(true, position / 0x10000) * half)
    requires FirstChromaRow(true, position / 0x10000) <= row < Lines(config.fourcc, config.h) / 2 && col < half
    ensures Wrap(origin + (row - FirstChromaRow(true, position / 0x10000)) * half + col)
            == Wrap(base + offset + row * half + col)
    ensures row * half + col < LumaBytes(config.fourcc, config.w, config.h) / 4
  {
    PlanesFill(config);
    InPlane(row, Lines(config.fourcc, config.h) / 2, half, col);
    hide FirstChromaRow, Wrap, Told, LumaBytes, BesPitch, Lines;
    var first := FirstChromaRow(true, position / 0x10000);
    WrapAdd(base + offset + first * half, (row - first) * half + col);
    Collect(first, row - first, half);
  }

  /** Packed formats have two bytes a pixel, but only one is skipped: the origin is that of the
      first row shown exactly if that is the first row of the frame. */
  lemma PackedOrigin(d: Driver, config: Config, k: nat)
    requires d.Arrays() && !IsPlanar(config.fourcc) && 4 <= config.h && 4 <= config.w <= 0x8000 && config.destH >= 4
    requires d.pitch == BesPitch(config.fourcc, Even(config.w))
    requires d.Origins(false, FirstLine(config), config.frameSize, config.offsetU, config.offsetV)
    requires k < 4
    ensures d.org[k] == Place(d.srcBase, k, config.frameSize, FirstLine(config) / 0x10000 * (d.pitch * 2))
            <==> FirstLine(config) / 0x10000 == 0
  {
    var first, p := FirstLine(config) / 0x10000, d.pitch;
    PitchOfRows(config.fourcc, config.w);
    assert 4 <= p <= 0x8008 && first < 0x10000;
    hide FirstLine, BesPitch, Even, Wrap;
    assert first * (p * 2) == 2 * (first * p);
    ProductMonotone(first, 0xFFFF, p);
    assert first * p < TWO32;
    assert first > 0 ==> first * p > 0;
    WrapDistinct(d.srcBase + k * config.frameSize, first * p);
  }

  lemma WrapDistinct(a: int, b: nat)
    requires b < TWO32
    ensures Wrap(a + b) == Wrap(a + 2 * b) <==> b == 0
  {}

  // ----- Windows that are cut off

  /** Unscaled, every line cut off skips one row. */
  lemma Unscaled(lines: nat, y: int)
    requires 4 <= lines <= 0x1_0000 && 0 < -y < lines
    ensures FirstRow(lines, y, lines) == -y && Wrap(Position(lines, lines, Cut(y))) == -y * 0x10000
  {
    var cut := Cut(y);
    assert Factor(lines, lines) == 0x4000 by {
      Quotient((lines - 1) * 0x4000, lines - 1, 0x4000, 0);
    }
    assert Position(lines, lines, cut) == cut * 0x10000;
  }

  /** A packed picture one line above the screen starts half a row early. */
  lemma PackedOneLineCut(d: Driver, config: Config, k: nat)
    requires d.Arrays() && config.fourcc == YUY2 && config.w == 720 && config.h == 480 == config.destH
            && config.destY == -1
    requires d.pitch == BesPitch(YUY2, 720) && k < 4
    requires d.Origins(false, FirstLine(config), config.frameSize, config.offsetU, config.offsetV)
    ensures d.org[k] != Place(d.srcBase, k, config.frameSize, d.pitch * 2)
  {
    Unscaled(480, -1);
    PackedOrigin(d, config, k);
  }

  /** Planar pictures two lines above the screen start their chroma planes a row early. */
  lemma ChromaTwoLinesCut(pitch: nat)
    requires pitch > 0 && pitch % 2 == 0
    ensures Wrap(Position(480, 480, Cut(-2))) / 0x10000 / 2 == 1
    ensures ChromaSkip(true, Wrap(Position(480, 480, Cut(-2))), pitch) == 0
  {
    Unscaled(480, -2);
    ChromaStart(true, 0x2_0000, pitch);
  }

  /** A picture of 2048 lines shown from line 1024 on has a wrong last row. */
  lemma LastRowWrong(d: Driver)
    requires d.Vertical(2048, -1024, 2048)
    ensures FirstRow(2048, -1024, 2048) == 1024 && 1024 + d.vSrcLast != 2047
  {
    Unscaled(2048, -1024);
    VerticalSamples(d, 2048, -1024, 2048, 0);
  }
}
