/** vixConfigPlayback of the mach64 driver: placing the frames, telling the application where
    the planes are, and programming the hardware with the same addresses. */
module Mach64Overlay {
  import opened Arith
  import opened FramePlacement
  import opened Mach64Layout

  datatype Result = Done | NoSys | Invalid

  /** The playback structure the application passes in and reads back. */
  class Config {
    var fourcc: Fourcc
    var w: nat
    var h: nat
    var srcPitch: Yuv
    var numFrames: nat
    var frameSize: nat
    const offsets: array<nat>
    var offset: Yuv
    var dgaOffset: int

    constructor (fourcc: Fourcc, w: nat, h: nat, srcPitch: Yuv, numFrames: nat)
      ensures this.fourcc == fourcc && this.w == w && this.h == h
      ensures this.srcPitch == srcPitch && this.numFrames == numFrames
      ensures offsets.Length == MAX_FRAMES && fresh(offsets)
    {
      this.fourcc, this.w, this.h, this.srcPitch, this.numFrames := fourcc, w, h, srcPitch, numFrames;
      frameSize, offset, dgaOffset := 0, Yuv(0, 0, 0), 0;
      offsets := new nat[MAX_FRAMES](_ => 0);
    }
  }

  function Plane(o: Yuv, p: nat): nat {
    if p == 0 then o.y else if p == 1 then o.u else o.v
  }

  /** No frame within the driver's size limit is larger. */
  const LARGEST_FRAME: nat := 3072 * MAX_SIDE + 256

  /** Where frame `i` starts behind the overlay base. */
  function FrameOffset(frameSize: nat, i: nat): nat {
    if i == 0 then 0 else FrameOffset(frameSize, i - 1) + frameSize
  }

  lemma FrameOffsetSteps(frameSize: nat)
    ensures FrameOffset(frameSize, 0) == 0
    ensures forall i: nat | i > 0 :: FrameOffset(frameSize, i) == FrameOffset(frameSize, i - 1) + frameSize
  {}

  lemma {:induction false} FrameOffsetIsProduct(frameSize: nat, i: nat)
    ensures FrameOffset(frameSize, i) == frameSize * i
  {
    if i > 0 {
      FrameOffsetIsProduct(frameSize, i - 1);
      Distributes(frameSize, i - 1, 1);
    }
  }

  lemma PixelBytesAligned(f: Fourcc, pitch: nat, h: nat)
    requires pitch % 16 == 0
    ensures PixelBytes(f, pitch, h) % 16 == 0
  {
    if Is420(f) {
      MultipleTimes(pitch, 16, h + h / 2);
    } else if f.YVU9? {
      MultipleTimes(pitch, 16, h + h / 8);
    } else {
      MultipleTimes(pitch, 16, h);
    }
  }

  /** Frame sizes, plane offsets and frame offsets are multiples of 16. */
  lemma SizesAligned(f: Fourcc, w: nat, h: nat, s: Yuv)
    ensures FrameSize(f, w, h, s) % 16 == 0
    ensures forall p | 0 <= p < 3 :: Plane(PlaneOffsets(f, Pitch(f, w, s), h), p) % 16 == 0
  {
    hide Pitch, First, Second, PixelBytes, QueryPitch, RoundUp;
    PitchMultiple(f, w, s);
    PixelBytesAligned(f, Pitch(f, w, s), h);
  }

  lemma {:induction false} FrameOffsetAligned(frameSize: nat, i: nat)
    requires frameSize % 16 == 0
    ensures FrameOffset(frameSize, i) % 16 == 0
  {
    if i > 0 {
      FrameOffsetAligned(frameSize, i - 1);
    }
  }

  /** The `& ~15` of the hardware registers changes nothing. */
  lemma MaskIsIdle(f: Fourcc, w: nat, h: nat, s: Yuv, overlay: int, i: nat, p: nat)
    requires overlay % ALIGN == 0 && p < 3
    ensures var at := overlay + FrameOffset(FrameSize(f, w, h, s), i) + Plane(PlaneOffsets(f, Pitch(f, w, s), h), p);
            Mask15(at) == at
  {
    hide FrameOffset, FrameSize, PlaneOffsets, Plane, Pitch;
    SizesAligned(f, w, h, s);
    FrameOffsetAligned(FrameSize(f, w, h, s), i);
    assert overlay % 16 == 0;
  }

  lemma FrameSizeBound(f: Fourcc, w: nat, h: nat, s: Yuv)
    requires w <= MAX_SIDE && h <= MAX_SIDE
    ensures 0 < FrameSize(f, w, h, s) <= LARGEST_FRAME
  {
    hide Pitch, QueryPitch;
    PitchMultiple(f, w, s);
    var pitch := Pitch(f, w, s);
    var rows := if Is420(f) then h + h / 2 else if f.YVU9? then h + h / 8 else h;
    if IsPlanar(f) {
      ProductMonotone(pitch, 768, rows);
    } else {
      ProductMonotone(pitch, 3072, rows);
    }
  }

  /** The planes of a supported frame, as many bytes each as the picture has there. */
  function PlaneBytes(f: Fourcc, pitch: nat, h: nat, p: nat): nat {
    if p == 0 || !IsPlanar(f) then LumaBytes(pitch, h) else ChromaBytes(f, pitch, h)
  }

  /** Whether the planes of a format fit a frame can be read off pitch and height. */
  predicate SlackSuffices(f: Fourcc, pitch: nat, h: nat) {
    if Is420(f) then h % 2 == 0 || pitch <= 1024
    else if f.YVU9? then RoundUp(pitch / 16 * (h % 8), 16) + pitch / 4 * (h % 8 / 4) <= 256
    else true
  }

  /** Where a plane of a frame lies relative to the frame and to the other planes. */
  lemma PlanesDisjoint(f: Fourcc, w: nat, h: nat, s: Yuv, p: nat, q: nat)
    requires p < 3 && q < 3
    ensures var pitch := Pitch(f, w, s);
            var o := PlaneOffsets(f, pitch, h);
            SlackSuffices(f, pitch, h) ==>
            && Plane(o, p) + PlaneBytes(f, pitch, h, p) <= FrameSize(f, w, h, s)
            && (IsPlanar(f) && p != q ==>
                  || Plane(o, p) + PlaneBytes(f, pitch, h, p) <= Plane(o, q)
                  || Plane(o, q) + PlaneBytes(f, pitch, h, q) <= Plane(o, p))
  {
    hide First, Second, LumaBytes, ChromaBytes, RoundUp, Pitch, QueryPitch;
    var pitch := Pitch(f, w, s);
    PitchMultiple(f, w, s);
    if Is420(f) {
      Fit420Iff(f, pitch, h);
    } else if f.YVU9? {
      FitYVU9Iff(f, pitch, h);
    } else {
      LumaSize(pitch, h, pitch * h);
      assert FrameSize(f, w, h, s) >= pitch * h;
    }
  }

  /** Within the driver's size limit 4:2:0 frames always have the slack they need, odd heights
      included, and so have packed ones; YVU9 has it for heights that leave at most three rows
      over a multiple of eight. */
  lemma SideLimitSuffices(f: Fourcc, w: nat, h: nat, s: Yuv)
    requires w <= MAX_SIDE && (f.YVU9? ==> h % 8 <= 3)
    ensures SlackSuffices(f, Pitch(f, w, s), h)
  {
    hide Pitch, RoundUp;
    PitchMultiple(f, w, s);
    if f.YVU9? {
      var pitch, r := Pitch(f, w, s), h % 8;
      ProductMonotone(pitch / 16, 48, r);
      assert pitch / 16 * r <= 144;
      assert h % 8 / 4 == 0;
    }
  }

  /** The picture data of any two planes, of the same frame or of different ones, lie apart
      and inside video memory at the addresses the hardware is given. */
  lemma HardwarePlanesDisjoint(f: Fourcc, w: nat, h: nat, s: Yuv, ram: nat, n: nat, overlay: int, i: nat, p: nat,
      j: nat, q: nat)
    requires i < n && j < n && p < 3 && q < 3 && (i != j || (IsPlanar(f) && p != q))
    ensures var pitch, size := Pitch(f, w, s), FrameSize(f, w, h, s);
            var o := PlaneOffsets(f, pitch, h);
            var a, b := overlay + size * i + Plane(o, p), overlay + size * j + Plane(o, q);
            SlackSuffices(f, pitch, h) && Placed(ram, size, n, overlay) ==>
            && 0 <= a && a + PlaneBytes(f, pitch, h, p) <= ram
            && (a + PlaneBytes(f, pitch, h, p) <= b || b + PlaneBytes(f, pitch, h, q) <= a)
  {
    hide Pitch, FrameSize, PlaneOffsets, Plane, PlaneBytes, SlackSuffices;
    PlanesDisjoint(f, w, h, s, p, q);
    PlanesDisjoint(f, w, h, s, q, p);
    if i < j {
      FramesDisjoint(FrameSize(f, w, h, s), i, j, overlay);
    } else if j < i {
      FramesDisjoint(FrameSize(f, w, h, s), j, i, overlay);
    }
  }

  class Driver {
    const ramSize: nat
    const supportsPlanar: bool
    const bufferBase: array2<int>
    var overlay: int
    var numBuffers: nat

    constructor (ramSize: nat, supportsPlanar: bool)
      ensures this.ramSize == ramSize && this.supportsPlanar == supportsPlanar
      ensures bufferBase.Length0 == BASES && bufferBase.Length1 == 3 && fresh(bufferBase)
    {
      this.ramSize, this.supportsPlanar := ramSize, supportsPlanar;
      bufferBase := new int[BASES, 3];
      overlay, numBuffers := 0, 0;
    }

    /** The frame offsets the application is told. */
    method FillOffsets(config: Config)
      requires config.offsets.Length == MAX_FRAMES && 0 < config.numFrames <= MAX_FRAMES
      modifies config.offsets
      ensures forall i: nat | i < config.numFrames :: config.offsets[i] == FrameOffset(config.frameSize, i)
    {
      hide FrameOffset;
      FrameOffsetSteps(config.frameSize);
      var offsets, n, size := config.offsets, config.numFrames, config.frameSize;
      offsets[0] := 0;
      var i := 1;
      while i < n
        invariant 1 <= i <= n
        invariant forall k: nat | k < i :: offsets[k] == FrameOffset(size, k)
      {
        offsets[i] := offsets[i - 1] + size;
        i := i + 1;
      }
    }

    /** The addresses the hardware is given. */
    method FillBases(config: Config, srcOffset: Yuv)
      requires bufferBase.Length0 == BASES && bufferBase.Length1 == 3
      requires config.offsets.Length == MAX_FRAMES && config.numFrames <= BASES
      modifies bufferBase
      ensures forall i: nat, p: nat | i < config.numFrames && p < 3 ::
                bufferBase[i, p] == Mask15(overlay + config.offsets[i] + Plane(srcOffset, p))
    {
      hide Mask15;
      var i := 0;
      while i < config.numFrames
        invariant i <= config.numFrames
        invariant forall k: nat, p: nat | k < i && p < 3 ::
                    bufferBase[k, p] == Mask15(overlay + config.offsets[k] + Plane(srcOffset, p))
      {
        bufferBase[i, 0] := Mask15(overlay + config.offsets[i] + srcOffset.y);
        bufferBase[i, 1] := Mask15(overlay + config.offsets[i] + srcOffset.u);
        bufferBase[i, 2] := Mask15(overlay + config.offsets[i] + srcOffset.v);
        i := i + 1;
      }
    }

    /** The offset part of mach64_vid_init_video. */
    method InitVideo(config: Config)
      requires bufferBase.Length0 == BASES && bufferBase.Length1 == 3
      requires config.offsets.Length == MAX_FRAMES
      requires 0 < config.numFrames <= BASES && overlay % ALIGN == 0
      requires config.frameSize == FrameSize(config.fourcc, config.w, config.h, config.srcPitch)
      modifies this`numBuffers, config`offset, config.offsets, bufferBase
      ensures numBuffers == config.numFrames
      ensures config.offset == PlaneOffsets(config.fourcc, Pitch(config.fourcc, config.w, config.srcPitch), config.h)
      ensures forall i: nat | i < config.numFrames :: config.offsets[i] == FrameOffset(config.frameSize, i)
      ensures forall i: nat, p: nat | i < config.numFrames && p < 3 ::
                bufferBase[i, p] == overlay + config.offsets[i] + Plane(config.offset, p)
      // told and programmed planes lie one behind the other, in the order of the format
      ensures var pitch, h, o := Pitch(config.fourcc, config.w, config.srcPitch), config.h, config.offset;
              && o.y == 0
              && (config.fourcc.YV12? ==> pitch * h <= o.u && o.u + (h / 2) * (pitch / 2) <= o.v)
              && (config.fourcc.YVU9? ==> pitch * h <= o.u && o.u + (h / 4) * (pitch / 4) <= o.v)
              && (config.fourcc.I420? || config.fourcc.IYUV? ==>
                    pitch * h <= o.v && o.v + (h / 2) * (pitch / 2) <= o.u)
      ensures forall i: nat | i < config.numFrames ::
                && bufferBase[i, 0] == overlay + config.offsets[i] + config.offset.y
                && bufferBase[i, 1] == overlay + config.offsets[i] + config.offset.u
                && bufferBase[i, 2] == overlay + config.offsets[i] + config.offset.v
    {
      hide First, Second, Mask15, FrameSize, FrameOffset, Pitch;
      var pitch := Pitch(config.fourcc, config.w, config.srcPitch);
      FillOffsets(config);
      var srcOffset;
      if IsPlanar(config.fourcc) {
        config.offset := Yuv(0, First(pitch, config.h), Second(config.fourcc, pitch, config.h));
        srcOffset := config.offset;
        if config.fourcc.I420? || config.fourcc.IYUV? {
          var tmp := config.offset.u;
          config.offset := Yuv(0, config.offset.v, tmp);
          srcOffset := config.offset;
        }
      } else {
        config.offset := Yuv(0, 0, 0);
        srcOffset := Yuv(0, 0, 0);
      }
      numBuffers := config.numFrames;
      FillBases(config, srcOffset);
      forall i: nat, p: nat | i < config.numFrames && p < 3
        ensures bufferBase[i, p] == overlay + config.offsets[i] + Plane(config.offset, p)
      {
        MaskIsIdle(config.fourcc, config.w, config.h, config.srcPitch, overlay, i, p);
      }
      PitchMultiple(config.fourcc, config.w, config.srcPitch);
      PlaneOrder(config.fourcc, pitch, config.h);
    }

    ghost predicate Accepted(config: Config)
      reads config
    {
      Supported(config.fourcc, supportsPlanar) && config.w <= MAX_SIDE && config.h <= MAX_SIDE
    }

    /** The two search loops of vixConfigPlayback. */
    method FindFrames(frameSize: nat, request: nat, rgbSize: nat) returns (n: nat)
      requires ramSize < TWO31 && 0 < frameSize <= LARGEST_FRAME && request <= MAX_FRAMES
      requires TableHolds(ramSize, frameSize, request, rgbSize)
      modifies this`overlay
      ensures n <= 64 && n <= request
      ensures request > 0 ==> (n == 0 <==> frameSize > ramSize)
      ensures n > 0 ==>
                && Placed(ramSize, frameSize, n, overlay)
                && overlay == (ramSize - frameSize * n) / 65536 * 65536
                && (forall m: nat | 3 < m <= request && TrueOffset(ramSize, frameSize, m) >= rgbSize ::
                      m <= n && rgbSize <= overlay)
                && (forall m: nat | n < m <= request ::
                      TrueOffset(ramSize, frameSize, m) < if n > 3 && overlay >= rgbSize then rgbSize else 0)
                && (|| n == request
                    || frameSize * (n + 1) > ramSize
                    || (n >= 4 && (ramSize - frameSize * (n + 1)) / 65536 * 65536 < rgbSize))
    {
      hide Offset, TrueOffset, Placed, TableHolds, LargestCount;
      n, overlay := Search(ramSize, frameSize, request, rgbSize, 0);
      GrantedRows(ramSize, frameSize, request, rgbSize, n);
      SearchOutcome(ramSize, frameSize, request, rgbSize, n, overlay);
      if n > 0 {
        CountKept(ramSize, frameSize, request, rgbSize, 0, n);
      }
    }

    /** vixConfigPlayback, for a visible framebuffer of `rgbSize` bytes.  Where more frames are
        granted than the table of hardware addresses has rows the source writes past its end. */
    method ConfigPlayback(config: Config, rgbSize: nat) returns (r: Result)
      requires bufferBase.Length0 == BASES && bufferBase.Length1 == 3
      requires config.offsets.Length == MAX_FRAMES
      requires ramSize < TWO31 && rgbSize < TWO31
      requires Accepted(config) ==>
                 TableHolds(ramSize, FrameSize(config.fourcc, config.w, config.h, config.srcPitch),
                     Requested(config.numFrames), rgbSize)
      modifies this`numBuffers, this`overlay, config`numFrames, config`frameSize, config`offset, config`dgaOffset,
               config.offsets, bufferBase
      ensures r == NoSys <==>
                || config.fourcc.Other?
                || (!supportsPlanar && (config.fourcc.YV12? || config.fourcc.I420? || config.fourcc.IYUV?
                                        || config.fourcc.YVU9?))
      ensures r != NoSys && (config.w > 720 || config.h > 720) ==> r == Invalid
      // the call fails for want of memory exactly when a single frame does not fit
      ensures Accepted(config) && old(config.numFrames) > 0 ==>
                (r == Invalid <==> FrameSize(config.fourcc, config.w, config.h, config.srcPitch) > ramSize)
      ensures r == Done ==>
                && 0 < config.numFrames <= Requested(old(config.numFrames)) && config.numFrames <= 64
                && numBuffers == config.numFrames && config.dgaOffset == overlay
                && config.frameSize == FrameSize(config.fourcc, config.w, config.h, config.srcPitch)
                && config.offset == PlaneOffsets(config.fourcc, Pitch(config.fourcc, config.w, config.srcPitch),
                    config.h)
                && Placed(ramSize, config.frameSize, config.numFrames, overlay)
      // if more than three frames can stay clear of the visible framebuffer, they do
      ensures r == Done ==> forall m: nat | 3 < m <= Requested(old(config.numFrames))
              && TrueOffset(ramSize, config.frameSize, m) >= rgbSize ::
                m <= config.numFrames && rgbSize <= overlay
      // every count the request allows and memory holds, on those terms, is granted
      ensures r == Done ==> forall m: nat | config.numFrames < m <= Requested(old(config.numFrames)) ::
                TrueOffset(ramSize, config.frameSize, m)
                < (if config.numFrames > 3 && overlay >= rgbSize then rgbSize else 0)
      // fewer frames than asked for, 1024 at most, only if one more did not fit, or would have
      // reached into the framebuffer
      ensures r == Done ==>
                || config.numFrames == (if old(config.numFrames) < 1024 then old(config.numFrames) else 1024)
                || config.frameSize * (config.numFrames + 1) > ramSize
                || (config.numFrames >= 4
                    && (ramSize - config.frameSize * (config.numFrames + 1)) / 65536 * 65536 < rgbSize)
      // the frames end less than 64K before memory does
      ensures r == Done ==> overlay == (ramSize - config.frameSize * config.numFrames) / 65536 * 65536
      ensures r == Done ==> forall i: nat | i < config.numFrames :: config.offsets[i] == config.frameSize * i
      ensures r == Done ==> forall i: nat, p: nat | i < config.numFrames && p < 3 ::
                bufferBase[i, p] == overlay + config.offsets[i] + Plane(config.offset, p)
      // told and programmed planes lie one behind the other, in the order of the format
      ensures r == Done ==>
                var pitch, h, o := Pitch(config.fourcc, config.w, config.srcPitch), config.h, config.offset;
                && o.y == 0
                && (config.fourcc.YV12? ==> pitch * h <= o.u && o.u + (h / 2) * (pitch / 2) <= o.v)
                && (config.fourcc.YVU9? ==> pitch * h <= o.u && o.u + (h / 4) * (pitch / 4) <= o.v)
                && (config.fourcc.I420? || config.fourcc.IYUV? ==>
                      pitch * h <= o.v && o.v + (h / 2) * (pitch / 2) <= o.u)
      ensures r == Done ==> forall i: nat | i < config.numFrames ::
                && bufferBase[i, 0] == overlay + config.frameSize * i
                && bufferBase[i, 1] == overlay + config.frameSize * i + config.offset.u
                && bufferBase[i, 2] == overlay + config.frameSize * i + config.offset.v
    {
      hide FrameSize, PlaneOffsets, Pitch, FrameOffset, Offset, TrueOffset, Placed, TableHolds, LargestCount, Plane;
      if !Supported(config.fourcc, supportsPlanar) {
        return NoSys;
      }
      if config.h > MAX_SIDE || config.w > MAX_SIDE {
        return Invalid;
      }
      if config.numFrames > MAX_FRAMES {
        config.numFrames := MAX_FRAMES;
      }
      config.frameSize := FrameSize(config.fourcc, config.w, config.h, config.srcPitch);
      FrameSizeBound(config.fourcc, config.w, config.h, config.srcPitch);
      var nfr := FindFrames(config.frameSize, config.numFrames, rgbSize);
      if nfr <= 0 {
        return Invalid;
      }
      config.numFrames := nfr;
      numBuffers := nfr;
      config.dgaOffset := overlay;
      InitVideo(config);
      forall i: nat | i < config.numFrames ensures config.offsets[i] == config.frameSize * i {
        FrameOffsetIsProduct(config.frameSize, i);
      }
      r := Done;
    }
  }

  /** What both passes of the search amount to. */
  lemma SearchOutcome(ram: nat, frameSize: nat, request: nat, rgbSize: nat, n: nat, overlay: int)
    requires ram < TWO31 && Unwrapped(ram, frameSize, request)
    requires exists first: nat ::
               && LargestCount(ram, frameSize, request, rgbSize, first)
               && LargestCount(ram, frameSize, request, if first > 3 then rgbSize else 0, n)
               && (first > 3 ==> n == first)
    requires n > 0 ==> overlay == Offset(ram, frameSize, n)
    ensures n > 0 ==> Placed(ram, frameSize, n, overlay) && overlay % ALIGN == 0
    ensures request > 0 ==> (n == 0 <==> frameSize > ram)
    ensures n > 0 ==> forall m: nat | n < m <= request ::
              TrueOffset(ram, frameSize, m) < (if n > 3 && overlay >= rgbSize then rgbSize else 0)
    ensures n > 0 ==> forall m: nat | 3 < m <= request && TrueOffset(ram, frameSize, m) >= rgbSize ::
            m <= n && rgbSize <= overlay
    ensures n > 0 ==> overlay == TrueOffset(ram, frameSize, n)
  {
    var first: nat :|
      && LargestCount(ram, frameSize, request, rgbSize, first)
      && LargestCount(ram, frameSize, request, if first > 3 then rgbSize else 0, n)
      && (first > 3 ==> n == first);
    hide Offset, TrueOffset, Placed, Unwrapped;
    SingleFrame(ram, frameSize);
    OffsetAligned(ram, frameSize, n);
    SearchPlaces(ram, frameSize, request, rgbSize, 0, first, n);
    LargestIsExact(ram, frameSize, request, rgbSize, first);
    LargestIsExact(ram, frameSize, request, if first > 3 then rgbSize else 0, n);
    if n > 0 {
      UnwrappedPrefix(ram, frameSize, n, request);
      OffsetExact(ram, frameSize, n);
    }
  }

  lemma GrantedRows(ram: nat, frameSize: nat, request: nat, rgbSize: nat, n: nat)
    requires ram < TWO31 && 0 < frameSize <= LARGEST_FRAME && request <= MAX_FRAMES
    requires exists first: nat ::
               && LargestCount(ram, frameSize, request, rgbSize, first)
               && LargestCount(ram, frameSize, request, if first > 3 then rgbSize else 0, n)
               && (first > 3 ==> n == first)
    requires TableHolds(ram, frameSize, request, rgbSize)
    ensures n <= BASES && n <= request && Unwrapped(ram, frameSize, request)
  {
    hide TableHolds;
    var first: nat :|
      && LargestCount(ram, frameSize, request, rgbSize, first)
      && LargestCount(ram, frameSize, request, if first > 3 then rgbSize else 0, n)
      && (first > 3 ==> n == first);
    TableHoldsIff(ram, frameSize, request, rgbSize, first, n);
  }

  // ----- The table of hardware addresses

  /** The frames the search grants have a row each in the table of hardware addresses: at most
      64 are asked for, or the 65th would start below the limit that the first four decide. */
  predicate TableHolds(ram: nat, frameSize: nat, request: nat, rgbSize: nat) {
    || request <= BASES
    || (&& Unwrapped(ram, frameSize, request)
        && TrueOffset(ram, frameSize, BASES + 1) < if TrueOffset(ram, frameSize, 4) >= rgbSize then rgbSize else 0)
  }

  /** That is exactly when at most 64 frames are granted.  Nothing in the driver checks it. */
  lemma TableHoldsIff(ram: nat, frameSize: nat, request: nat, rgbSize: nat, first: nat, n: nat)
    requires ram < TWO31 && 0 < frameSize <= LARGEST_FRAME && request <= MAX_FRAMES
    requires LargestCount(ram, frameSize, request, rgbSize, first)
    requires LargestCount(ram, frameSize, request, if first > 3 then rgbSize else 0, n) && (first > 3 ==> n == first)
    ensures n <= 64 <==> TableHolds(ram, frameSize, request, rgbSize)
    ensures TableHolds(ram, frameSize, request, rgbSize) ==> Unwrapped(ram, frameSize, request)
  {
    hide Offset, TrueOffset;
    ProductMonotone(request, MAX_FRAMES, frameSize);
    if Unwrapped(ram, frameSize, request) {
      LargestIsExact(ram, frameSize, request, rgbSize, first);
      LargestIsExact(ram, frameSize, request, if first > 3 then rgbSize else 0, n);
    } else {
      ManyWhenWrapped(ram, frameSize, request, rgbSize, first, n);
    }
  }

  /** A request so large that the search wraps around is granted far more than 64 frames. */
  lemma ManyWhenWrapped(ram: nat, frameSize: nat, request: nat, rgbSize: nat, first: nat, n: nat)
    requires ram < TWO31 && 0 < frameSize <= LARGEST_FRAME && request <= MAX_FRAMES
    requires !Unwrapped(ram, frameSize, request)
    requires LargestCount(ram, frameSize, request, rgbSize, first)
    requires LargestCount(ram, frameSize, request, if first > 3 then rgbSize else 0, n) && (first > 3 ==> n == first)
    ensures n > BASES && request > BASES
  {
    ProductMonotone(request, MAX_FRAMES, frameSize);
    if request <= BASES {
      ProductMonotone(request, BASES, frameSize);
    }
    WrappedOffset(ram, frameSize, request);
    if n <= BASES {
      ProductMonotone(n, BASES, frameSize);
      OffsetExact(ram, frameSize, n);
    }
  }

  lemma WrappedOffset(ram: nat, frameSize: nat, request: nat)
    requires ram < TWO31 && ram + TWO31 < frameSize * request < TWO32 - ALIGN
    ensures Offset(ram, frameSize, request) > ram
  {
    assert ToInt32(ram - frameSize * request) == ram - frameSize * request + TWO32;
  }

  /** Small packed frames overrun the table: with 8 MB of memory and 1000 frames of 16x16
      pixels requested, all are granted. */
  lemma TableOverrun(first: nat, n: nat)
    requires LargestCount(0x80_0000, 768, 1000, 960000, first)
    requires LargestCount(0x80_0000, 768, 1000, if first > 3 then 960000 else 0, n) && (first > 3 ==> n == first)
    ensures FrameSize(YUY2, 16, 16, Yuv(0, 0, 0)) == 768
    ensures n == 1000 && !TableHolds(0x80_0000, 768, 1000, 960000)
  {
    assert Offset(0x80_0000, 768, 1000) >= 960000;
  }

  /** 1024 frames of the largest size in 8 MB: the search wraps around and grants them all. */
  lemma HugeRequestWraps(first: nat, n: nat)
    requires LargestCount(0x80_0000, 2212096, 1024, 960000, first)
    requires LargestCount(0x80_0000, 2212096, 1024, if first > 3 then 960000 else 0, n) && (first > 3 ==> n == first)
    ensures FrameSize(BGR32, 720, 720, Yuv(256, 0, 0)) == 2212096
    ensures n == 1024 && !Placed(0x80_0000, 2212096, n, Offset(0x80_0000, 2212096, n))
  {
    assert Offset(0x80_0000, 2212096, 1024) >= 960000;
    PlacedExactly(0x80_0000, 2212096, 1024, 960000, 0, first, n);
  }

  /** A YVU9 picture of 716 lines does not fit its frame. */
  lemma TallYVU9Overflows()
    ensures Pitch(YVU9, 720, Yuv(256, 64, 64)) == 768 && !PlanesFit(YVU9, 768, 716)
  {
    assert RoundUp(768 / 16 * 4, 16) == 192;
    FitYVU9Iff(YVU9, 768, 716);
  }
}
