/** The search, shared by the mach64 and radeon drivers, for the number of frames that fit
    behind the visible framebuffer, or failing that anywhere in video memory. */
module FramePlacement {
  import opened Arith

  const ALIGN: int := 0x1_0000
  const MAX_FRAMES: nat := 1024

  /** The drivers' limit on the number of frames. */
  function Requested(numFrames: nat): nat {
    if numFrames > MAX_FRAMES then MAX_FRAMES else numFrames
  }

  /** A 32-bit unsigned value stored in an `int32_t`. */
  function ToInt32(x: int): (y: int)
    ensures -TWO31 <= y < TWO31
  {
    var u := x % TWO32;
    if u < TWO31 then u else u - TWO32
  }

  /** `& 0xffff0000` on a 32-bit integer. */
  function Align64K(x: int): (y: int)
    ensures y % ALIGN == 0 && y <= x < y + ALIGN
  {
    x - x % ALIGN
  }

  /** The offset the loop body computes for `n` frames. */
  function Offset(video: nat, frameSize: nat, n: nat): int {
    Align64K(ToInt32(video - frameSize * n))
  }

  /** The offset without the 32-bit wrap. */
  function TrueOffset(video: nat, frameSize: nat, n: nat): int {
    Align64K(video - frameSize * n)
  }

  /** `n` is the largest count in 1..request whose offset reaches `limit`; 0 if there is none. */
  ghost predicate LargestCount(video: nat, frameSize: nat, request: nat, limit: int, n: nat) {
    && n <= request
    && (n > 0 ==> Offset(video, frameSize, n) >= limit)
    && forall m: nat | n < m <= request :: Offset(video, frameSize, m) < limit
  }

  /** One search loop. */
  method CountDown(video: nat, frameSize: nat, request: nat, limit: int) returns (nfr: nat, overlay: int)
    ensures LargestCount(video, frameSize, request, limit, nfr)
    ensures nfr > 0 ==> overlay == Offset(video, frameSize, nfr)
  {
    nfr := request;
    overlay := 0;
    while nfr > 0
      invariant nfr <= request
      invariant forall m: nat | nfr < m <= request :: Offset(video, frameSize, m) < limit
    {
      overlay := Offset(video, frameSize, nfr);
      if overlay >= limit {
        break;
      }
      nfr := nfr - 1;
    }
  }

  /** Both loops of vixConfigPlayback: the second runs when the first finds at most three
      frames, and accepts an offset from `floor` up. */
  method Search(video: nat, frameSize: nat, request: nat, rgbSize: nat, floor: int) returns (nfr: nat, overlay: int)
    ensures exists first: nat ::
              && LargestCount(video, frameSize, request, rgbSize, first)
              && LargestCount(video, frameSize, request, if first > 3 then rgbSize else floor, nfr)
              && (first > 3 ==> nfr == first)
    ensures nfr > 0 ==> overlay == Offset(video, frameSize, nfr)
  {
    nfr, overlay := CountDown(video, frameSize, request, rgbSize);
    ghost var first := nfr;
    if nfr <= 3 {
      nfr, overlay := CountDown(video, frameSize, request, floor);
    }
  }

  // ----- What the search guarantees

  /** The request exceeds memory by at most 2^31 bytes. */
  predicate Unwrapped(video: nat, frameSize: nat, request: nat) {
    frameSize * request <= video + TWO31
  }

  /** Up to there the 32-bit arithmetic is exact. */
  lemma OffsetExact(video: nat, frameSize: nat, n: nat)
    requires video < TWO31 && Unwrapped(video, frameSize, n)
    ensures Offset(video, frameSize, n) == TrueOffset(video, frameSize, n)
  {
    var d := video - frameSize * n;
    assert -TWO31 <= d < TWO31;
  }

  lemma UnwrappedPrefix(video: nat, frameSize: nat, m: nat, n: nat)
    requires m <= n && Unwrapped(video, frameSize, n)
    ensures Unwrapped(video, frameSize, m)
  {
    ProductMonotone(m, n, frameSize);
  }

  /** A single frame fits, or fits behind a 64K block. */
  lemma SingleFrame(video: nat, frameSize: nat)
    ensures TrueOffset(video, frameSize, 1) < 0 <==> frameSize > video
    ensures TrueOffset(video, frameSize, 1) < 1 <==> frameSize + ALIGN > video
  {}

  lemma OffsetAligned(video: nat, frameSize: nat, n: nat)
    ensures Offset(video, frameSize, n) % ALIGN == 0
  {}

  /** More frames start no later. */
  lemma OffsetDecreases(video: nat, frameSize: nat, m: nat, n: nat)
    requires m <= n
    ensures TrueOffset(video, frameSize, n) <= TrueOffset(video, frameSize, m)
  {
    ProductMonotone(m, n, frameSize);
    var a, b := video - frameSize * n, video - frameSize * m;
    AlignMonotone(a, b);
  }

  lemma AlignMonotone(a: int, b: int)
    requires a <= b
    ensures Align64K(a) <= Align64K(b)
  {}

  /** For limits that are met by the true offsets, the count is the largest one that fits:
      a smaller request is met in full or not at all. */
  lemma LargestIsExact(video: nat, frameSize: nat, request: nat, limit: int, n: nat)
    requires video < TWO31 && Unwrapped(video, frameSize, request)
    requires LargestCount(video, frameSize, request, limit, n)
    ensures forall m: nat | 1 <= m <= request :: m <= n <==> TrueOffset(video, frameSize, m) >= limit
  {
    forall m: nat | 1 <= m <= request
      ensures m <= n <==> TrueOffset(video, frameSize, m) >= limit
    {
      ProductMonotone(m, request, frameSize);
      OffsetExact(video, frameSize, m);
      if m <= n {
        ProductMonotone(n, request, frameSize);
        OffsetExact(video, frameSize, n);
        OffsetDecreases(video, frameSize, m, n);
      }
    }
  }

  /** How many frames are kept, in terms of the request: all, 1024 at most, or as many as fit
      above `floor`, or from four up as many as stay clear of the framebuffer. */
  lemma CountKept(video: nat, frameSize: nat, numFrames: nat, rgbSize: nat, floor: nat, n: nat)
    requires n <= Requested(numFrames)
    requires forall m: nat | n < m <= Requested(numFrames) ::
               TrueOffset(video, frameSize, m) < if n > 3 && TrueOffset(video, frameSize, n) >= rgbSize then rgbSize
                   else floor
    ensures || n == (if numFrames < 1024 then numFrames else 1024)
            || (video - frameSize * (n + 1)) / 65536 * 65536 < floor
            || (n >= 4 && (video - frameSize * (n + 1)) / 65536 * 65536 < rgbSize)
    ensures TrueOffset(video, frameSize, n) == (video - frameSize * n) / 65536 * 65536
  {
    if n < Requested(numFrames) {
      assert TrueOffset(video, frameSize, n + 1) == (video - frameSize * (n + 1)) / 65536 * 65536;
    }
  }

  /** The frames lie one behind the other from the aligned base to at most the end of memory. */
  ghost predicate Placed(video: nat, frameSize: nat, n: nat, overlay: int) {
    && 0 <= overlay && overlay % ALIGN == 0
    && forall i: nat | i < n :: 0 <= overlay + frameSize * i && overlay + frameSize * i + frameSize <= video
  }

  lemma PlacedIff(video: nat, frameSize: nat, n: nat, overlay: int)
    requires n > 0 && 0 <= overlay && overlay % ALIGN == 0
    ensures Placed(video, frameSize, n, overlay) <==> overlay + frameSize * n <= video
  {
    LastFrame(frameSize, n);
    if overlay + frameSize * n <= video {
      forall i: nat | i < n ensures 0 <= overlay + frameSize * i && overlay + frameSize * i + frameSize <= video {
        ProductMonotone(i + 1, n, frameSize);
        LastFrame(frameSize, i + 1);
      }
    } else {
      assert !(overlay + frameSize * (n - 1) + frameSize <= video);
    }
  }

  lemma LastFrame(frameSize: nat, n: nat)
    requires n > 0
    ensures frameSize * (n - 1) + frameSize == frameSize * n && frameSize * (n - 1) >= 0
  {}

  /** Two frames never overlap. */
  lemma FramesDisjoint(frameSize: nat, i: nat, j: nat, overlay: int)
    requires i < j
    ensures overlay + frameSize * i + frameSize <= overlay + frameSize * j
  {
    ProductMonotone(i + 1, j, frameSize);
    LastFrame(frameSize, i + 1);
  }

  /** What both passes promise together, for a framebuffer that lies in memory. */
  lemma SearchPlaces(video: nat, frameSize: nat, request: nat, rgbSize: nat, floor: int, first: nat, n: nat)
    requires video < TWO31 && Unwrapped(video, frameSize, request)
    requires 0 <= floor <= rgbSize
    requires LargestCount(video, frameSize, request, rgbSize, first)
    requires LargestCount(video, frameSize, request, if first > 3 then rgbSize else floor, n)
            && (first > 3 ==> n == first)
    ensures first <= n
    ensures n > 0 ==> Placed(video, frameSize, n, Offset(video, frameSize, n))
    ensures n > 0 && first > 3 ==> rgbSize <= Offset(video, frameSize, n)
    ensures request > 0 ==> (n == 0 <==> TrueOffset(video, frameSize, 1) < floor)
  {
    LargestIsExact(video, frameSize, request, rgbSize, first);
    LargestIsExact(video, frameSize, request, if first > 3 then rgbSize else floor, n);
    if n > 0 {
      ProductMonotone(n, request, frameSize);
      OffsetExact(video, frameSize, n);
      PlacedIff(video, frameSize, n, Offset(video, frameSize, n));
    }
    if request > 0 && n == 0 && first <= 3 {
      assert !(1 <= n);
    }
  }

  /** The first count whose offset wraps around to a positive number. */
  lemma FirstWrapped(video: nat, frameSize: nat, request: nat) returns (m: nat)
    requires video < TWO31 && frameSize <= TWO31 && !Unwrapped(video, frameSize, request)
    ensures m <= request && video + TWO31 < frameSize * m <= video + TWO31 + frameSize
    ensures Offset(video, frameSize, m) > TWO31 - frameSize - ALIGN
  {
    var q := (video + TWO31) / frameSize;
    m := q + 1;
    assert frameSize * m == frameSize * q + frameSize;
    if request < m {
      ProductMonotone(request, q, frameSize);
    }
    assert ToInt32(video - frameSize * m) == video - frameSize * m + TWO32;
  }

  /** Beyond that size the subtraction wraps around, a count that does not fit is accepted, and
      every smaller one is passed over: so the size of the whole request is exactly the condition,
      as long as one frame and the visible framebuffer take less than 2^31 bytes together. */
  lemma PlacedExactly(video: nat, frameSize: nat, request: nat, rgbSize: nat, floor: int, first: nat, n: nat)
    requires video < TWO31 && 0 <= floor <= rgbSize && frameSize + rgbSize + ALIGN <= TWO31
    requires LargestCount(video, frameSize, request, rgbSize, first)
    requires LargestCount(video, frameSize, request, if first > 3 then rgbSize else floor, n)
            && (first > 3 ==> n == first)
    ensures n > 0 ==> (Placed(video, frameSize, n, Offset(video, frameSize, n))
            <==> Unwrapped(video, frameSize, request))
  {
    if Unwrapped(video, frameSize, request) {
      SearchPlaces(video, frameSize, request, rgbSize, floor, first, n);
    } else {
      var m := FirstWrapped(video, frameSize, request);
      hide Offset;
      assert m <= n;
      ProductMonotone(m, n, frameSize);
      PlacedIff(video, frameSize, n, Offset(video, frameSize, n));
    }
  }
}
