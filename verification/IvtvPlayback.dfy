/** Playback on the PVR 350: buffer sizes, frame selection, and what the surface keeps of a frame. */
module IvtvPlayback {
  import opened Arith
  import opened Tiling
  import opened Ivtv

  /** The answer of vixConfigPlayback. */
  datatype Playback = Playback(numFrames: nat, frameSize: nat, offsets: seq<nat>, offsetY: nat,
      offsetU: nat, offsetV: nat)

  function FrameBytes(w: nat, h: nat): nat {
    w * h + w * h / 2
  }

  /** Where the second and the third plane of a frame start; de_macro_uv gets the third as
      "U" and the second as "V". */
  function SecondPlane(w: nat, h: nat): nat {
    w * h
  }

  function ThirdPlane(w: nat, h: nat): nat {
    w * h + w * h / 4
  }

  function LumaRect(w: nat, h: nat): Rect {
    Rect(0, w, 0, h)
  }

  function ChromaRect(w: nat, h: nat): Rect {
    Rect(0, 2 * (w / 2), 0, h / 2)
  }

  function ChromaOf(frame: seq<Byte>, w: nat, h: nat): seq<Byte>
    requires |frame| == FrameBytes(w, h)
  {
    Chroma(frame, ThirdPlane(w, h), SecondPlane(w, h))
  }

  /** `out` is what the surface buffer holds after `frame` was selected while it held `before`. */
  ghost predicate Shown(out: seq<Byte>, before: seq<Byte>, frame: seq<Byte>, w: nat, h: nat)
    requires |frame| == FrameBytes(w, h)
  {
    exists luma: seq<Byte> ::
      && IsTiled(luma, before, 0, frame, w, LumaRect(w, h))
      && IsTiled(out, luma, LUMA_BYTES, ChromaOf(frame, w, h), 2 * (w / 2), ChromaRect(w, h))
  }

  /** `w * h` bytes hold every pixel of a plane of that size. */
  lemma PlaneReadable(w: nat, h: nat)
    ensures Readable(w * h, w, Rect(0, w, 0, h))
  {
    hide RowStart;
    forall col: nat, row: nat | Inside(Rect(0, w, 0, h), col, row) ensures col + RowStart(row, w) < w * h {
      RowStartIsProduct(row, w);
      ProductMonotone(row + 1, h, w);
    }
  }

  lemma ReadableMore(size: nat, more: nat, stride: nat, r: Rect)
    requires Readable(size, stride, r) && size <= more
    ensures Readable(more, stride, r)
  {}

  /** The samples the driver reads from a chroma plane fit in a quarter of the luma size. */
  lemma QuarterPlane(w: nat, h: nat)
    ensures (w / 2) * (h / 2) <= w * h / 4
    ensures w * h / 4 <= w * h / 2 - w * h / 4
    ensures 2 * (w / 2) * (h / 2) == 2 * ((w / 2) * (h / 2))
  {
    var q := (w / 2) * (h / 2);
    assert 4 * q <= w * h by {
      HalvesProduct(w / 2, h / 2, w % 2, h % 2);
    }
    Associates(2, w / 2, h / 2);
  }

  /** The luma size in terms of the halved sizes and the odd remainders. */
  lemma HalvesProduct(a: nat, b: nat, r: nat, s: nat)
    ensures (2 * a + r) * (2 * b + s) == 4 * (a * b) + 2 * (a * s) + 2 * (b * r) + r * s
    ensures a * s >= 0 && b * r >= 0 && r * s >= 0
  {}

  lemma ChromaReadable(w: nat, h: nat, n: nat)
    requires w * h / 4 <= n
    ensures Readable(2 * n, 2 * (w / 2), ChromaRect(w, h))
  {
    QuarterPlane(w, h);
    PlaneReadable(2 * (w / 2), h / 2);
    ReadableMore(2 * (w / 2) * (h / 2), 2 * n, 2 * (w / 2), ChromaRect(w, h));
  }

  /** Bytes of the plane behind those of the window play no part. */
  lemma TiledFromPrefix(t: seq<Byte>, d: seq<Byte>, base: nat, plane: seq<Byte>, prefix: seq<Byte>,
      stride: nat, r: Rect)
    requires prefix <= plane && Readable(|prefix|, stride, r)
    ensures IsTiled(t, d, base, plane, stride, r) <==> IsTiled(t, d, base, prefix, stride, r)
  {
    hide RowStart, Column, Row;
    ReadableMore(|prefix|, |plane|, stride, r);
    forall k: nat | k < |d|
        ensures TiledByte(d, base, plane, stride, r, k) == TiledByte(d, base, prefix, stride, r, k) {}
  }

  /** The chroma planes of one frame inside a larger buffer. */
  lemma ChromaPrefix(s: seq<Byte>, at: nat, w: nat, h: nat)
    requires at + FrameBytes(w, h) <= |s|
    ensures ChromaOf(s[at..at + FrameBytes(w, h)], w, h) <= Chroma(s, at + ThirdPlane(w, h), at + SecondPlane(w, h))
  {
    PartOfBuffer(s, at, FrameBytes(w, h), ThirdPlane(w, h), SecondPlane(w, h));
  }

  lemma PartOfBuffer(s: seq<Byte>, at: nat, n: nat, u: nat, v: nat)
    requires at + n <= |s| && v <= u <= n
    ensures Chroma(s[at..at + n], u, v) <= Chroma(s, at + u, at + v)
  {
    var inner, outer := Chroma(s[at..at + n], u, v), Chroma(s, at + u, at + v);
    forall k: nat | k < |inner| ensures inner[k] == outer[k] {
      assert inner[k] == if k % 2 == 0 then s[at..at + n][u + k / 2] else s[at..at + n][v + k / 2];
    }
  }

  lemma NoFrame()
    ensures FrameBytes(0, 0) == 0
  {}

  class Driver {
    var memBase: array<Byte>
    var outbuf: array<Byte>
    var srcW: nat
    var srcH: nat
    var frameSize: nat

    ghost predicate Valid()
      reads this
    {
      && outbuf.Length == LUMA_BYTES + LUMA_BYTES / 2
      && memBase != outbuf
      && frameSize == FrameBytes(srcW, srcH) && memBase.Length == 2 * frameSize
    }

    /** vixInit: the surface buffer has its maximal size once and for all. */
    constructor ()
      ensures Valid() && fresh(outbuf) && fresh(memBase)
    {
      hide FrameBytes;
      srcW, srcH, frameSize := 0, 0, 0;
      NoFrame();
      outbuf := new Byte[MAX_HEIGHT * MAX_WIDTH + MAX_HEIGHT * MAX_WIDTH / 2];
      memBase := new Byte[0];
    }

    method ConfigPlayback(w: nat, h: nat) returns (info: Playback)
      requires Valid()
      modifies this
      ensures Valid() && outbuf == old(outbuf) && fresh(memBase) && srcW == w && srcH == h
      ensures info.numFrames == 2 && info.offsets == [0, frameSize] && info.frameSize == frameSize
      ensures frameSize == w * h + w * h / 2
      ensures info.offsetY == 0 && info.offsetU == w * h && info.offsetV == w * h + w * h / 4
      ensures forall i | 0 <= i < info.numFrames ::
              info.offsets[i] + info.offsetV + w * h / 4 <= info.offsets[i] + frameSize <= memBase.Length
    {
      srcW, srcH := w, h;
      frameSize := w * h + w * h / 2;
      memBase := new Byte[2 * frameSize];
      info := Playback(2, frameSize, [0, frameSize], 0, w * h, w * h + w * h / 4);
    }

    /** vixPlaybackFrameSelect, up to the hand-over of the surface to the kernel driver. */
    method FrameSelect(frame: nat)
      requires Valid() && frame < 2
      requires srcW <= MAX_WIDTH && srcH <= MAX_HEIGHT
      modifies outbuf
      ensures Valid() && memBase[..] == old(memBase[..])
      ensures frame * frameSize + frameSize <= memBase.Length
      ensures Shown(outbuf[..], old(outbuf[..]), memBase[frame * frameSize..frame * frameSize + frameSize], srcW, srcH)
    {
      hide RowStart, Column, Row, Address, Chroma, IsTiled, Readable, FrameBytes, SecondPlane, ThirdPlane;
      var curMemBase := frame * frameSize;
      FrameStart(frame, frameSize);
      ghost var before, buffer := outbuf[..], memBase[..];
      LumaPlane(buffer, curMemBase, srcW, srcH);
      DeMacroY(memBase, curMemBase, outbuf, 0, srcW, srcH, 0, 0, srcW);
      ghost var luma := outbuf[..];
      assert buffer[curMemBase..] == memBase[curMemBase..];
      ChromaPlanes(buffer, curMemBase, srcW, srcH);
      DeMacroUV(memBase, curMemBase + ThirdPlane(srcW, srcH), curMemBase + SecondPlane(srcW, srcH),
                outbuf, MAX_HEIGHT * MAX_WIDTH, srcW, srcH, 0, 0, srcW);
      ShownFromBuffer(outbuf[..], luma, before, buffer, curMemBase, srcW, srcH);
    }
  }

  lemma FrameStart(frame: nat, size: nat)
    requires frame < 2
    ensures 0 <= frame * size && frame * size + size <= 2 * size
  {}

  lemma LumaPlane(s: seq<Byte>, at: nat, w: nat, h: nat)
    requires at + FrameBytes(w, h) <= |s|
    ensures Readable(FrameBytes(w, h), w, LumaRect(w, h)) && Readable(|s| - at, w, LumaRect(w, h))
  {
    hide Readable;
    PlaneReadable(w, h);
    ReadableMore(w * h, FrameBytes(w, h), w, LumaRect(w, h));
    ReadableMore(w * h, |s| - at, w, LumaRect(w, h));
  }

  /** Tiling out of the whole buffer shows one frame: no byte outside it is read. */
  lemma ShownFromBuffer(out: seq<Byte>, luma: seq<Byte>, before: seq<Byte>, s: seq<Byte>, at: nat, w: nat, h: nat)
    requires at + FrameBytes(w, h) <= |s|
    requires IsTiled(luma, before, 0, s[at..], w, LumaRect(w, h))
    requires IsTiled(out, luma, LUMA_BYTES, Chroma(s, at + ThirdPlane(w, h), at + SecondPlane(w, h)), 2 * (w / 2),
            ChromaRect(w, h))
    ensures Shown(out, before, s[at..at + FrameBytes(w, h)], w, h)
  {
    hide Readable, IsTiled, Chroma, Column, Row, RowStart;
    var frame := s[at..at + FrameBytes(w, h)];
    assert frame <= s[at..];
    LumaPlane(s, at, w, h);
    TiledFromPrefix(luma, before, 0, s[at..], frame, w, LumaRect(w, h));
    ChromaPlanes(s, at, w, h);
    TiledFromPrefix(out, luma, LUMA_BYTES, Chroma(s, at + ThirdPlane(w, h), at + SecondPlane(w, h)),
        ChromaOf(frame, w, h),
                    2 * (w / 2), ChromaRect(w, h));
  }

  /** Both readings of the chroma planes, from the whole buffer and from the frame alone. */
  lemma ChromaPlanes(s: seq<Byte>, at: nat, w: nat, h: nat)
    requires at + FrameBytes(w, h) <= |s|
    ensures SecondPlane(w, h) <= ThirdPlane(w, h) <= FrameBytes(w, h)
    ensures var frame := s[at..at + FrameBytes(w, h)];
            var outer := Chroma(s, at + ThirdPlane(w, h), at + SecondPlane(w, h));
            && ChromaOf(frame, w, h) <= outer
            && Readable(|ChromaOf(frame, w, h)|, 2 * (w / 2), ChromaRect(w, h))
            && Readable(|outer|, 2 * (w / 2), ChromaRect(w, h))
  {
    hide Readable;
    ChromaPrefix(s, at, w, h);
    QuarterPlane(w, h);
    ChromaReadable(w, h, FrameBytes(w, h) - ThirdPlane(w, h));
    ChromaReadable(w, h, |s| - (at + ThirdPlane(w, h)));
  }

  // ----- What the surface keeps of a frame

  const SURFACE_BYTES: nat := LUMA_BYTES + LUMA_BYTES / 2

  lemma SurfaceRoom(w: nat, h: nat)
    requires w <= MAX_WIDTH && h <= MAX_HEIGHT
    ensures Room(SURFACE_BYTES, 0, LumaRect(w, h)) && Room(SURFACE_BYTES, LUMA_BYTES, ChromaRect(w, h))
    ensures Room(LUMA_BYTES, 0, LumaRect(w, h))
  {}

  // ----- Which pictures the surface can hold

  /** No two pixels of a plane of this size share an address. */
  ghost predicate Apart(w: nat, h: nat) {
    forall x1: nat, y1: nat, x2: nat, y2: nat ::
      x1 < w && x2 < w && y1 < h && y2 < h && Address(x1, y1) == Address(x2, y2) ==> x1 == x2 && y1 == y2
  }

  /** All of them have addresses below a limit. */
  ghost predicate Below(w: nat, h: nat, limit: nat) {
    forall x: nat, y: nat :: x < w && y < h ==> Address(x, y) < limit
  }

  /** Wider than the surface, column 720 is the start of the next strip. */
  lemma ApartIff(w: nat, h: nat)
    ensures Apart(w, h) <==> w <= SURFACE_WIDTH || h <= 16
  {
    if w <= SURFACE_WIDTH || h <= 16 {
      forall x1: nat, y1: nat, x2: nat, y2: nat
        | x1 < w && x2 < w && y1 < h && y2 < h && Address(x1, y1) == Address(x2, y2)
        ensures x1 == x2 && y1 == y2
      {
        if w <= SURFACE_WIDTH {
          AddressInjective(x1, y1, x2, y2);
        } else {
          FirstStrip(x1, y1, x2, y2);
        }
      }
    } else {
      assert Address(SURFACE_WIDTH, 0) == Address(0, 16);
    }
  }

  lemma FirstStrip(x1: nat, y1: nat, x2: nat, y2: nat)
    requires y1 < 16 && y2 < 16 && Address(x1, y1) == Address(x2, y2)
    ensures x1 == x2 && y1 == y2
  {
    assert y1 / 16 == 0 == y2 / 16 && y1 % 16 == y1 && y2 % 16 == y2;
    SameDigits(x1 / 16, y1, x1 % 16, x2 / 16, y2, x2 % 16);
  }

  lemma SameDigits(b1: nat, y1: nat, r1: nat, b2: nat, y2: nat, r2: nat)
    requires y1 < 16 && y2 < 16 && r1 < 16 && r2 < 16
    requires 256 * b1 + 16 * y1 + r1 == 256 * b2 + 16 * y2 + r2
    ensures b1 == b2 && y1 == y2 && r1 == r2
  {}

  /** A plane stays below a whole number of blocks exactly when its last block does. */
  lemma BelowIff(w: nat, h: nat, blocks: nat)
    requires w > 0 && h > 0
    ensures Below(w, h, 256 * blocks) <==> 45 * ((h - 1) / 16) + (w - 1) / 16 < blocks
  {
    var strip, block := (h - 1) / 16, (w - 1) / 16;
    if 45 * strip + block < blocks {
      forall x: nat, y: nat | x < w && y < h ensures Address(x, y) < 256 * blocks {
        assert x / 16 <= block && y / 16 <= strip;
      }
    } else {
      assert Address(16 * block, 16 * strip) == 256 * (45 * strip + block);
    }
  }

  /** Both planes of a picture are kept: luma in front of chroma, chroma inside the buffer, and
      no two pixels of either at one place. */
  ghost predicate Held(w: nat, h: nat) {
    && Apart(w, h) && Below(w, h, LUMA_BYTES)
    && Apart(2 * (w / 2), h / 2) && Below(2 * (w / 2), h / 2, LUMA_BYTES / 2)
  }

  /** Those are the pictures up to 720x576 and, because one strip cannot run into the next,
      wider ones of at most 16 rows.  Frame selection is modelled for the former. */
  lemma HeldIff(w: nat, h: nat)
    requires w > 0 && h > 0
    ensures Held(w, h) <==>
            (w <= MAX_WIDTH && h <= MAX_HEIGHT) || (h <= 16 && w <= if h == 1 then 25920 else 12961)
  {
    hide Apart, Below;
    ApartIff(w, h);
    ApartIff(2 * (w / 2), h / 2);
    BelowIff(w, h, 1620);
    if w > 1 && h > 1 {
      BelowIff(2 * (w / 2), h / 2, 810);
    } else {
      NothingBelow(2 * (w / 2), h / 2, LUMA_BYTES / 2);
    }
  }

  /** 736 columns and 17 rows are too many. */
  lemma WidePictureCollides()
    ensures !Held(736, 17)
  {
    ApartIff(736, 17);
  }

  lemma NothingBelow(w: nat, h: nat, limit: nat)
    requires w == 0 || h == 0
    ensures Below(w, h, limit)
  {}

  /** The luma plane reads back, although chroma was tiled into the same buffer after it. */
  lemma LumaRecovered(out: seq<Byte>, before: seq<Byte>, frame: seq<Byte>, w: nat, h: nat)
    requires |before| == SURFACE_BYTES && |frame| == FrameBytes(w, h)
    requires 0 < w <= MAX_WIDTH && h <= MAX_HEIGHT && Shown(out, before, frame, w, h)
    ensures |out| == SURFACE_BYTES && Room(|out|, 0, LumaRect(w, h))
    ensures Untiled(out, 0, w, h) == frame[..w * h]
  {
    hide RowStart, Column, Row, Address;
    SurfaceRoom(w, h);
    var luma: seq<Byte> :|
      && IsTiled(luma, before, 0, frame, w, LumaRect(w, h))
      && IsTiled(out, luma, LUMA_BYTES, ChromaOf(frame, w, h), 2 * (w / 2), ChromaRect(w, h));
    UntileTile(luma, before, 0, frame, w, h);
    var plane := Untiled(out, 0, w, h);
    forall i: nat | i < w * h ensures plane[i] == Untiled(luma, 0, w, h)[i] {
      AddressInRoom(LUMA_BYTES, 0, w, h, i);
      var k := Address(PlaneColumn(i, w), PlaneRow(i, w));
      assert out[k] == TiledByte(luma, LUMA_BYTES, ChromaOf(frame, w, h), 2 * (w / 2), ChromaRect(w, h), k);
    }
  }

  ghost function Evens(s: seq<Byte>): seq<Byte> {
    seq(|s| / 2, i requires 0 <= i < |s| / 2 => s[2 * i])
  }

  ghost function Odds(s: seq<Byte>): seq<Byte> {
    seq(|s| / 2, i requires 0 <= i < |s| / 2 => s[2 * i + 1])
  }

  /** Every chroma sample the driver reads comes back from the surface. */
  lemma ChromaRecovered(out: seq<Byte>, before: seq<Byte>, frame: seq<Byte>, w: nat, h: nat)
    requires |before| == SURFACE_BYTES && |frame| == FrameBytes(w, h)
    requires 2 <= w <= MAX_WIDTH && h <= MAX_HEIGHT && Shown(out, before, frame, w, h)
    ensures |out| == SURFACE_BYTES && Room(|out|, LUMA_BYTES, ChromaRect(w, h))
    ensures var c, n := Untiled(out, LUMA_BYTES, 2 * (w / 2), h / 2), (w / 2) * (h / 2);
            && ThirdPlane(w, h) + n <= |frame| && SecondPlane(w, h) + n <= ThirdPlane(w, h)
            && Evens(c) == frame[ThirdPlane(w, h)..ThirdPlane(w, h) + n]
            && Odds(c) == frame[SecondPlane(w, h)..SecondPlane(w, h) + n]
  {
    hide RowStart, Column, Row, Address, Chroma;
    SurfaceRoom(w, h);
    QuarterPlane(w, h);
    var luma: seq<Byte> :|
      && IsTiled(luma, before, 0, frame, w, LumaRect(w, h))
      && IsTiled(out, luma, LUMA_BYTES, ChromaOf(frame, w, h), 2 * (w / 2), ChromaRect(w, h));
    ChromaSamples(frame, w, h);
    UntileTile(out, luma, LUMA_BYTES, ChromaOf(frame, w, h), 2 * (w / 2), h / 2);
    EvensAndOdds(ChromaOf(frame, w, h), frame, ThirdPlane(w, h), SecondPlane(w, h), (w / 2) * (h / 2));
  }

  lemma ChromaSamples(frame: seq<Byte>, w: nat, h: nat)
    requires |frame| == FrameBytes(w, h)
    ensures var c := ChromaOf(frame, w, h);
            && |c| == 2 * (|frame| - ThirdPlane(w, h))
            && forall i: nat | i < |frame| - ThirdPlane(w, h) ::
                 c[2 * i] == frame[ThirdPlane(w, h) + i] && c[2 * i + 1] == frame[SecondPlane(w, h) + i]
  {
    SamplesOf(frame, ThirdPlane(w, h), SecondPlane(w, h));
  }

  lemma SamplesOf(s: seq<Byte>, u: nat, v: nat)
    requires v <= u <= |s|
    ensures var c := Chroma(s, u, v);
            |c| == 2 * (|s| - u) && forall i: nat | i < |s| - u :: c[2 * i] == s[u + i] && c[2 * i + 1] == s[v + i]
  {
    var c := Chroma(s, u, v);
    forall i: nat | i < |s| - u ensures c[2 * i] == s[u + i] && c[2 * i + 1] == s[v + i] {
      Quotient(2 * i + 1, 2, i, 1);
    }
  }

  lemma EvensAndOdds(c: seq<Byte>, frame: seq<Byte>, u: nat, v: nat, n: nat)
    requires 2 * n <= |c| && u + n <= |frame| && v + n <= |frame|
    requires forall i: nat | i < n :: c[2 * i] == frame[u + i] && c[2 * i + 1] == frame[v + i]
    ensures Evens(c[..2 * n]) == frame[u..u + n] && Odds(c[..2 * n]) == frame[v..v + n]
  {}

  /** The whole frame in the driver's YV12 order, rebuilt from the surface. */
  ghost function Recovered(out: seq<Byte>, w: nat, h: nat): seq<Byte>
    requires |out| == SURFACE_BYTES && 2 <= w <= MAX_WIDTH && h <= MAX_HEIGHT
  {
    SurfaceRoom(w, h);
    var c := Untiled(out, LUMA_BYTES, 2 * (w / 2), h / 2);
    Untiled(out, 0, w, h) + Odds(c) + Evens(c)
  }

  /** Selecting a frame of even size loses nothing. */
  lemma FrameRecovered(out: seq<Byte>, before: seq<Byte>, frame: seq<Byte>, w: nat, h: nat)
    requires |before| == SURFACE_BYTES && |frame| == FrameBytes(w, h)
    requires 2 <= w <= MAX_WIDTH && h <= MAX_HEIGHT && w % 2 == 0 && h % 2 == 0
    requires Shown(out, before, frame, w, h)
    ensures |out| == SURFACE_BYTES && Recovered(out, w, h) == frame
  {
    hide Untiled, Evens, Odds, Shown;
    LumaRecovered(out, before, frame, w, h);
    ChromaRecovered(out, before, frame, w, h);
    EvenQuarters(w, h);
    var y, u := SecondPlane(w, h), ThirdPlane(w, h);
    assert frame == frame[..y] + frame[y..u] + frame[u..];
  }

  lemma EvenQuarters(w: nat, h: nat)
    requires w % 2 == 0 && h % 2 == 0
    ensures w * h / 4 == (w / 2) * (h / 2) && w * h / 2 == 2 * ((w / 2) * (h / 2))
  {
    HalvesProduct(w / 2, h / 2, 0, 0);
    var q := (w / 2) * (h / 2);
    assert w * h == 4 * q;
  }

  /** The surface tells any two frames of this size apart. */
  ghost predicate TellsFramesApart(w: nat, h: nat) {
    forall out: seq<Byte>, before: seq<Byte>, f1: seq<Byte>, f2: seq<Byte> ::
      |before| == SURFACE_BYTES && |f1| == FrameBytes(w, h) == |f2| && Shown(out, before, f1, w, h)
          && Shown(out, before, f2, w, h)
      ==> f1 == f2
  }

  /** Exactly the even sizes, and those with fewer than two pixels, keep the whole frame:
      otherwise the last chroma byte is never read. */
  lemma TellsFramesApartIff(w: nat, h: nat)
    requires w <= MAX_WIDTH && h <= MAX_HEIGHT
    ensures TellsFramesApart(w, h) <==> (w % 2 == 0 && h % 2 == 0) || w * h < 2
  {
    hide Shown;
    if (w % 2 == 0 && h % 2 == 0) || w * h < 2 {
      forall out: seq<Byte>, before: seq<Byte>, f1: seq<Byte>, f2: seq<Byte>
        | |before| == SURFACE_BYTES && |f1| == FrameBytes(w, h) == |f2| && Shown(out, before, f1, w, h)
            && Shown(out, before, f2, w, h)
        ensures f1 == f2
      {
        SameFrame(out, before, f1, f2, w, h);
      }
    } else {
      OddFramesConfused(w, h);
    }
  }

  lemma SameFrame(out: seq<Byte>, before: seq<Byte>, f1: seq<Byte>, f2: seq<Byte>, w: nat, h: nat)
    requires w <= MAX_WIDTH && h <= MAX_HEIGHT
    requires |before| == SURFACE_BYTES && |f1| == FrameBytes(w, h) == |f2|
    requires Shown(out, before, f1, w, h) && Shown(out, before, f2, w, h)
    requires (w % 2 == 0 && h % 2 == 0) || w * h < 2
    ensures f1 == f2
  {
    hide Shown;
    if w > 0 {
      LumaRecovered(out, before, f1, w, h);
      LumaRecovered(out, before, f2, w, h);
    }
    if 2 <= w && w % 2 == 0 && h % 2 == 0 {
      FrameRecovered(out, before, f1, w, h);
      FrameRecovered(out, before, f2, w, h);
    }
  }

  /** The last byte of a frame of odd size lies behind every sample that is read. */
  lemma LastByteUnread(w: nat, h: nat)
    requires (w % 2 == 1 || h % 2 == 1) && w * h >= 2
    ensures FrameBytes(w, h) >= w * h + 1
    ensures ThirdPlane(w, h) + (w / 2) * (h / 2) < FrameBytes(w, h)
  {
    var a, b, r, s := w / 2, h / 2, w % 2, h % 2;
    assert w == 2 * a + r && h == 2 * b + s;
    var e := LumaOfHalves(a, b, r, s, w * h);
    OneByteMore(w * h, a * b, e, if r == s then 1 else 0);
  }

  /** The luma size of an odd picture, beyond four times the chroma samples that are read. */
  lemma LumaOfHalves(a: nat, b: nat, r: nat, s: nat, n: nat) returns (e: nat)
    requires r <= 1 && s <= 1 && r + s > 0 && n == (2 * a + r) * (2 * b + s) && n >= 2
    ensures a * b >= 0 && n == 4 * (a * b) + 2 * e + (if r == s then 1 else 0) && e >= 1
  {
    HalvesProduct(a, b, r, s);
    e := (if s == 1 then a else 0) + (if r == 1 then b else 0);
  }

  /** The last quarter of the luma size is larger than the chroma samples that are read. */
  lemma OneByteMore(n: nat, q: nat, e: nat, z: nat)
    requires n == 4 * q + 2 * e + z && e >= 1 && z <= 1
    ensures n + n / 2 >= n + 1 && n / 4 + q < n / 2
  {
    Quotient(n, 4, q + (2 * e + z) / 4, (2 * e + z) % 4);
    Quotient(n, 2, 2 * q + e, z);
  }

  lemma OddFramesConfused(w: nat, h: nat)
    requires (w % 2 == 1 || h % 2 == 1) && w * h >= 2
    ensures !TellsFramesApart(w, h)
  {
    hide RowStart, Column, Row, Address, Chroma, Readable;
    LastByteUnread(w, h);
    var n := FrameBytes(w, h);
    var f1: seq<Byte> := seq(n, i => 0);
    var f2 := f1[n - 1 := 1];
    var before: seq<Byte> := seq(SURFACE_BYTES, i => 0);
    LumaPlane(f1, 0, w, h);
    ChromaPlanes(f1, 0, w, h);
    assert f1[0..n] == f1;
    var luma := Tiled(before, 0, f1, w, LumaRect(w, h));
    var out := Tiled(luma, LUMA_BYTES, ChromaOf(f1, w, h), 2 * (w / 2), ChromaRect(w, h));
    ShownAlike(out, luma, before, f1, f2, w, h);
    assert |before| == SURFACE_BYTES && |f1| == FrameBytes(w, h) == |f2|;
    assert Shown(out, before, f1, w, h) && Shown(out, before, f2, w, h);
    assert f1[n - 1] != f2[n - 1];
  }

  /** Two frames that differ only behind the samples that are read look the same. */
  lemma ShownAlike(out: seq<Byte>, luma: seq<Byte>, before: seq<Byte>, f1: seq<Byte>, f2: seq<Byte>, w: nat, h: nat)
    requires |f1| == FrameBytes(w, h) == |f2|
    requires ThirdPlane(w, h) + (w / 2) * (h / 2) < |f1| && f1[..|f1| - 1] == f2[..|f1| - 1] && w * h < |f1|
    requires IsTiled(luma, before, 0, f1, w, LumaRect(w, h))
    requires IsTiled(out, luma, LUMA_BYTES, ChromaOf(f1, w, h), 2 * (w / 2), ChromaRect(w, h))
    ensures Shown(out, before, f2, w, h)
  {
    hide RowStart, Column, Row, Address, Chroma, Readable, IsTiled;
    assert SecondPlane(w, h) <= ThirdPlane(w, h);
    hide SecondPlane, ThirdPlane, FrameBytes, ChromaOf;
    var m := |f1| - 1;
    PlaneReadable(w, h);
    ReadableMore(w * h, m, w, LumaRect(w, h));
    TiledFromPrefix(luma, before, 0, f1, f1[..m], w, LumaRect(w, h));
    TiledFromPrefix(luma, before, 0, f2, f2[..m], w, LumaRect(w, h));
    ChromaAlike(out, luma, f1, f2, w, h, (w / 2) * (h / 2));
  }

  lemma ChromaAlike(out: seq<Byte>, luma: seq<Byte>, f1: seq<Byte>, f2: seq<Byte>, w: nat, h: nat, k: nat)
    requires |f1| == FrameBytes(w, h) == |f2| && k == (w / 2) * (h / 2)
    requires ThirdPlane(w, h) + k < |f1| && f1[..|f1| - 1] == f2[..|f1| - 1]
    requires IsTiled(out, luma, LUMA_BYTES, ChromaOf(f1, w, h), 2 * (w / 2), ChromaRect(w, h))
    ensures IsTiled(out, luma, LUMA_BYTES, ChromaOf(f2, w, h), 2 * (w / 2), ChromaRect(w, h))
  {
    hide RowStart, Column, Row, Address, Chroma, Readable, IsTiled;
    assert SecondPlane(w, h) <= ThirdPlane(w, h);
    hide SecondPlane, ThirdPlane, FrameBytes;
    var c1, c2 := ChromaOf(f1, w, h), ChromaOf(f2, w, h);
    QuarterPlane(w, h);
    ChromaSamples(f1, w, h);
    ChromaSamples(f2, w, h);
    SamePairs(c1, c2, f1, f2, ThirdPlane(w, h), SecondPlane(w, h), k);
    PlaneReadable(2 * (w / 2), h / 2);
    TiledFromPrefix(out, luma, LUMA_BYTES, c1, c1[..2 * k], 2 * (w / 2), ChromaRect(w, h));
    TiledFromPrefix(out, luma, LUMA_BYTES, c2, c2[..2 * k], 2 * (w / 2), ChromaRect(w, h));
  }

  lemma SamePairs(c1: seq<Byte>, c2: seq<Byte>, f1: seq<Byte>, f2: seq<Byte>, u: nat, v: nat, n: nat)
    requires 2 * n <= |c1| == |c2| && u + n < |f1| == |f2| && v + n < |f1| && f1[..|f1| - 1] == f2[..|f1| - 1]
    requires forall i: nat | i < n :: c1[2 * i] == f1[u + i] && c1[2 * i + 1] == f1[v + i]
    requires forall i: nat | i < n :: c2[2 * i] == f2[u + i] && c2[2 * i + 1] == f2[v + i]
    ensures c1[..2 * n] == c2[..2 * n]
  {
    var m := |f1| - 1;
    forall k: nat | k < 2 * n ensures c1[k] == c2[k] {
      var i := k / 2;
      assert f1[u + i] == f1[..m][u + i] == f2[..m][u + i] == f2[u + i];
      assert f1[v + i] == f1[..m][v + i] == f2[..m][v + i] == f2[v + i];
      assert k == 2 * i || k == 2 * i + 1;
    }
  }
}
