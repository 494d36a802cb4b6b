/** Horizontal scaler set-up of the radeon overlay.  The ratio is a real number; a cast of
    `x + 0.5` to `uint16_t` is the floor modulo 2^16. */
module RadeonScaler {

  /** The surface format and the two flags that forbid four taps. */
  datatype Mode = Mode(format: int, noFourTapY: bool, noFourTapUV: bool)

  /** What the cascade stores through its out-pointers. */
  datatype Setup = Setup(p1Inc: int, p1Code: nat, p23Inc: int, p23Code: nat,
                         groupSize: nat, p1StepSize: nat, p23StepSize: nat)

  const UNSET := Setup(0, 0, 0, 0, 0, 0, 0)

  function Round(y: real): int {
    (y + 0.5).Floor
  }

  /** One over a ratio, with 12 fractional bits. */
  function Rounded(x: real): int
    requires x != 0.0
  {
    Round(4096.0 / x)
  }

  /** `(uint16_t)((1/x) * (1<<0xc) + 0.5)` */
  function Inc(x: real): int
    requires x > 0.0
  {
    (1.0 / x * 4096.0 + 0.5).Floor % 0x10000
  }

  /** Pixels between two that are used, for a step code. */
  function StepSize(code: nat): nat {
    if code <= 1 then 1 else if code == 2 then 2 else if code == 3 then 4 else if code == 4 then 8 else 16
  }

  predicate IsYuv(format: int) {
    9 <= format <= 14
  }

  predicate Supported(format: int) {
    format == 3 || format == 4 || format == 6 || IsYuv(format)
  }

  /** HorzUVSubSample */
  function SubSample(format: int): nat {
    if format == 9 then 4 else if IsYuv(format) then 2 else 1
  }

  /** The smallest ratio a format can be programmed for. */
  function MinRatio(format: int): real {
    if format == 3 || format == 4 then 0.03125
    else if format == 9 then 0.0234375
    else if format == 10 then 0.03125
    else 0.0625
  }

  function Clamped(format: int, ratio: real): real {
    if ratio < MinRatio(format) then MinRatio(format) else ratio
  }

  // ----- The fetch budget

  /** Clocks to fetch one component of 16 pixels with a step code: four taps take twice as
      long as two, and every further step halves the work. */
  function Cost(code: nat): real {
    if code == 0 then 8.0 else if code == 1 then 4.0 else if code == 2 then 2.0
    else if code == 3 then 1.0 else if code == 4 then 0.5 else 0.25
  }

  /** Clocks for 16 pixels: luma, and two chroma components with fewer samples.  At 16 bits
      per pixel three components come at the price of two. */
  function Clocks(format: int, p1: nat, p23: nat): real {
    if format == 3 || format == 4 then 2.0 * Cost(p1)
    else Cost(p1) + 2.0 * (Cost(p23) / SubSample(format) as real)
  }

  /** The combinations of step codes in the order of preference. */
  function Rung(i: nat): (nat, nat) {
    if i == 0 then (0, 0) else if i == 1 then (1, 0) else if i == 2 then (0, 1) else if i == 3 then (1, 1)
    else if i == 4 then (1, 2) else if i == 5 then (2, 2) else if i == 6 then (2, 3) else if i == 7 then (3, 3)
    else if i == 8 then (3, 4) else if i == 9 then (4, 4) else if i == 10 then (4, 5) else (5, 5)
  }

  const RUNGS: nat := 12

  /** What the driver considers: four taps as the flags permit and never at 16 bits per
      pixel, mixed codes and code 5 only in some formats. */
  predicate Allowed(m: Mode, i: nat) {
    var f := m.format;
    if i == 0 then !m.noFourTapY && (f == 6 || (IsYuv(f) && !m.noFourTapUV))
    else if i == 1 then IsYuv(f) && m.noFourTapY && !m.noFourTapUV
    else if i == 2 then IsYuv(f) && !m.noFourTapY
    else if i == 4 then IsYuv(f)
    else if i == 6 then f == 6 || 10 <= f <= 14
    else if i == 8 then f == 6 || f == 10
    else if i == 10 then f == 9 || f == 10
    else if i == 11 then f <= 10
    else true
  }

  /** The increment fields, which the driver checks for YUV9 only. */
  predicate FieldsFit(ratio: real, i: nat)
    requires ratio > 0.0
  {
    Inc(ratio * StepSize(Rung(i).0) as real) <= 0x3000 && Inc(ratio * 4.0 * StepSize(Rung(i).1) as real) <= 0x2000
  }

  predicate Affordable(format: int, ratio: real, i: nat)
    requires ratio > 0.0
  {
    Clocks(format, Rung(i).0, Rung(i).1) <= 16.0 * ratio && (format == 9 ==> FieldsFit(ratio, i))
  }

  predicate Candidate(m: Mode, ratio: real, i: nat)
    requires ratio > 0.0
  {
    Allowed(m, i) && Affordable(m.format, ratio, i)
  }

  ghost predicate NoneBefore(m: Mode, ratio: real, i: nat)
    requires ratio > 0.0
  {
    forall j: nat | j < i :: !Candidate(m, ratio, j)
  }

  /** Rung `i` is the first allowed one that is affordable at the (possibly clamped) ratio. */
  ghost predicate FirstChoice(m: Mode, ratio: real, i: nat)
    requires ratio > 0.0
  {
    var r := Clamped(m.format, ratio);
    i < RUNGS && Candidate(m, r, i) && NoneBefore(m, r, i)
  }

  /** The increments and step sizes belong to the codes and the (possibly clamped) ratio, and
      fit their fields. */
  predicate Consistent(format: int, ratio: real, s: Setup)
    requires ratio > 0.0
  {
    var r := Clamped(format, ratio);
    && s.p1Code <= 5 && s.p23Code <= 5
    && s.p1StepSize == StepSize(s.p1Code) && s.p23StepSize == StepSize(s.p23Code)
    && s.p1Inc == Rounded(r * s.p1StepSize as real)
    && s.p23Inc == Rounded(r * SubSample(format) as real * s.p23StepSize as real)
    && 0 <= s.p1Inc <= 0x3000 && 0 <= s.p23Inc <= 0x2000
    && s.groupSize == (if format == 3 || format == 4 || s.p1Code == 0 then 2 else 4)
  }

  // ----- Bounds of the increments

  /** Two factors and their products with a positive number compare alike. */
  lemma ScaleOrder(a: real, b: real, x: real, p: real, q: real)
    requires x > 0.0 && p == a * x && q == b * x
    ensures a < b <==> p < q
  {
    assert q - p == (b - a) * x;
  }

  lemma QuotientTimes(x: real)
    requires x > 0.0
    ensures 4096.0 / x * x == 4096.0 && 4096.0 / x > 0.0 && 1.0 / x * 4096.0 == 4096.0 / x
  {}

  /** The rounded quotient is bounded by a product. */
  lemma RoundBound(x: real, n: nat, c: real, q: real)
    requires x > 0.0 && c == n as real + 0.5 && q == c * x
    ensures Round(4096.0 / x) <= n <==> 4096.0 < q
  {
    hide Round;
    QuotientTimes(x);
    FloorBelow(4096.0 / x, n, c);
    ScaleOrder(4096.0 / x, c, x, 4096.0, q);
  }

  lemma FloorBelow(y: real, n: nat, c: real)
    requires c == n as real + 0.5
    ensures Round(y) <= n <==> y < c
  {}

  /** Down to a sixteenth the cast to 16 bits loses nothing, and the field limits become
      thresholds of the ratio. */
  lemma IncBounds(x: real)
    requires x >= 0.0626
    ensures Inc(x) == Rounded(x) && 0 <= Inc(x)
    ensures Inc(x) <= 0x3000 <==> 8192.0 < 24577.0 * x
    ensures Inc(x) <= 0x2000 <==> 8192.0 < 16385.0 * x
    ensures x <= 2.0 ==> 2048 <= Inc(x)
  {
    hide Round;
    RoundBound(x, 65535, 65535.5, 65535.5 * x);
    RoundBound(x, 0x3000, 12288.5, 12288.5 * x);
    RoundBound(x, 0x2000, 8192.5, 8192.5 * x);
    RoundBound(x, 2047, 2047.5, 2047.5 * x);
    IncIsRound(x);
  }

  lemma IncIsRound(x: real)
    requires x > 0.0
    ensures 0 <= Round(4096.0 / x)
    ensures Inc(x) == Round(4096.0 / x) % 0x10000
  {
    QuotientTimes(x);
  }

  /** How densely luma is sampled: the increment times the ratio and the step is one in 12
      fractional bits, up to rounding.  No format goes below its least ratio. */
  lemma LumaRate(format: int, ratio: real, s: Setup, r: real, x: real)
    requires ratio > 0.0 && (format == 3 || format == 4 || format == 6 || 9 <= format <= 14)
    requires Consistent(format, ratio, s)
    requires var least := if format == 3 || format == 4 || format == 10 then 0.03125
                          else if format == 9 then 0.0234375 else 0.0625;
             r == if ratio < least then least else ratio
    requires x == r * (if s.p1Code <= 1 then 1.0 else if s.p1Code == 2 then 2.0 else if s.p1Code == 3 then 4.0
                       else if s.p1Code == 4 then 8.0 else 16.0)
    ensures 4096.0 - x / 2.0 <= s.p1Inc as real * x <= 4096.0 + x / 2.0
    ensures 0 <= s.p1Inc <= 12288 && x == r * s.p1StepSize as real
    ensures s.groupSize == if format <= 4 || s.p1Code == 0 then 2 else 4
  {
    hide Rounded, StepSize, Clamped, SubSample, Consistent;
    Literals(format, ratio);
    Steps(format, ratio, s);
    assert x == Clamped(format, ratio) * s.p1StepSize as real;
    Positive(r, 1.0, s.p1StepSize);
    LumaFields(format, ratio, s, x);
    RoundNear(x, s.p1Inc);
  }

  /** How densely chroma is sampled: YUV9 has a sample for four pixels, the other YUV formats
      have one for two, and RGB one for each. */
  lemma ChromaRate(format: int, ratio: real, s: Setup, r: real, perSample: real, y: real)
    requires ratio > 0.0 && (format == 3 || format == 4 || format == 6 || 9 <= format <= 14)
    requires Consistent(format, ratio, s)
    requires var least := if format == 3 || format == 4 || format == 10 then 0.03125
                          else if format == 9 then 0.0234375 else 0.0625;
             r == if ratio < least then least else ratio
    requires perSample == if format == 9 then 4.0 else if 10 <= format <= 14 then 2.0 else 1.0
    requires y == r * perSample
                  * (if s.p23Code <= 1 then 1.0 else if s.p23Code == 2 then 2.0 else if s.p23Code == 3 then 4.0
                     else if s.p23Code == 4 then 8.0 else 16.0)
    ensures 4096.0 - y / 2.0 <= s.p23Inc as real * y <= 4096.0 + y / 2.0
    ensures 0 <= s.p23Inc <= 8192 && y == r * perSample * s.p23StepSize as real
  {
    hide Rounded, StepSize, Clamped, SubSample, Consistent;
    Literals(format, ratio);
    Steps(format, ratio, s);
    assert y == Clamped(format, ratio) * SubSample(format) as real * s.p23StepSize as real;
    Positive(r, perSample, s.p23StepSize);
    ChromaFields(format, ratio, s, y);
    RoundNear(y, s.p23Inc);
  }

  /** RGB has no chroma to leave out: equal codes mean equal increments. */
  lemma SameRates(format: int, ratio: real, s: Setup)
    requires ratio > 0.0 && (format == 3 || format == 4 || format == 6) && Consistent(format, ratio, s)
    requires s.p1Code == s.p23Code
    ensures s.p1Inc == s.p23Inc && s.p1StepSize == s.p23StepSize
  {
    hide Rounded, StepSize;
    var r := Clamped(format, ratio);
    assert r * SubSample(format) as real == r;
    assert r * SubSample(format) as real * s.p23StepSize as real == r * s.p1StepSize as real;
  }

  lemma LumaFields(format: int, ratio: real, s: Setup, x: real)
    requires ratio > 0.0 && Consistent(format, ratio, s) && x > 0.0
    requires x == Clamped(format, ratio) * s.p1StepSize as real
    ensures s.p1Inc == Rounded(x) && 0 <= s.p1Inc <= 12288
    ensures s.groupSize == if format == 3 || format == 4 || s.p1Code == 0 then 2 else 4
  {
    hide Rounded, StepSize, SubSample;
  }

  lemma ChromaFields(format: int, ratio: real, s: Setup, y: real)
    requires ratio > 0.0 && Consistent(format, ratio, s) && y > 0.0
    requires y == Clamped(format, ratio) * SubSample(format) as real * s.p23StepSize as real
    ensures s.p23Inc == Rounded(y) && 0 <= s.p23Inc <= 8192
  {
    hide Rounded, StepSize, Clamped;
    var r, k, n := Clamped(format, ratio), SubSample(format) as real, s.p23StepSize as real;
    Steps(format, ratio, s);
    assert s.p23Inc == Rounded(r * k * n);
  }

  lemma Positive(r: real, k: real, n: nat)
    requires r > 0.0 && k >= 1.0 && n > 0
    ensures r * k * n as real > 0.0
  {
    assert r * k > 0.0;
  }

  lemma Steps(format: int, ratio: real, s: Setup)
    requires ratio > 0.0 && Consistent(format, ratio, s)
    ensures s.p1StepSize == if s.p1Code <= 1 then 1 else if s.p1Code == 2 then 2 else if s.p1Code == 3 then 4
                            else if s.p1Code == 4 then 8 else 16
    ensures s.p23StepSize == if s.p23Code <= 1 then 1 else if s.p23Code == 2 then 2 else if s.p23Code == 3 then 4
                             else if s.p23Code == 4 then 8 else 16
  {
    hide Rounded, Clamped, SubSample;
  }

  lemma Literals(format: int, ratio: real)
    requires Supported(format)
    ensures var least := if format == 3 || format == 4 || format == 10 then 0.03125
                         else if format == 9 then 0.0234375 else 0.0625;
            Clamped(format, ratio) == if ratio < least then least else ratio
    ensures SubSample(format) as real == if format == 9 then 4.0 else if 10 <= format <= 14 then 2.0 else 1.0
  {}

  lemma RoundNear(x: real, n: int)
    requires x > 0.0 && n == Rounded(x)
    ensures 4096.0 - x / 2.0 <= n as real * x <= 4096.0 + x / 2.0
  {
    var y := 4096.0 / x;
    assert y * x == 4096.0;
    HalfTimes(n as real - y, x);
  }

  lemma HalfTimes(d: real, x: real)
    requires -0.5 <= d <= 0.5 && x > 0.0
    ensures -x / 2.0 <= d * x <= x / 2.0
  {
    assert (0.5 - d) * x >= 0.0 && (0.5 + d) * x >= 0.0;
  }

  // ----- Walking down the rungs

  /** One rung further. */
  lemma Chain(m: Mode, ratio: real)
    requires ratio > 0.0
    ensures NoneBefore(m, ratio, 0)
    ensures NoneBefore(m, ratio, 0) && !Candidate(m, ratio, 0) ==> NoneBefore(m, ratio, 1)
    ensures NoneBefore(m, ratio, 1) && !Candidate(m, ratio, 1) ==> NoneBefore(m, ratio, 2)
    ensures NoneBefore(m, ratio, 2) && !Candidate(m, ratio, 2) ==> NoneBefore(m, ratio, 3)
    ensures NoneBefore(m, ratio, 3) && !Candidate(m, ratio, 3) ==> NoneBefore(m, ratio, 4)
    ensures NoneBefore(m, ratio, 4) && !Candidate(m, ratio, 4) ==> NoneBefore(m, ratio, 5)
    ensures NoneBefore(m, ratio, 5) && !Candidate(m, ratio, 5) ==> NoneBefore(m, ratio, 6)
    ensures NoneBefore(m, ratio, 6) && !Candidate(m, ratio, 6) ==> NoneBefore(m, ratio, 7)
    ensures NoneBefore(m, ratio, 7) && !Candidate(m, ratio, 7) ==> NoneBefore(m, ratio, 8)
    ensures NoneBefore(m, ratio, 8) && !Candidate(m, ratio, 8) ==> NoneBefore(m, ratio, 9)
    ensures NoneBefore(m, ratio, 9) && !Candidate(m, ratio, 9) ==> NoneBefore(m, ratio, 10)
    ensures NoneBefore(m, ratio, 10) && !Candidate(m, ratio, 10) ==> NoneBefore(m, ratio, 11)
  {
    hide Candidate;
  }

  /** A combination whose increments fit their fields is set up consistently. */
  lemma Accept(format: int, given: real, ratio: real, p1: nat, p23: nat, x1: real, x2: real)
    requires given > 0.0 && Supported(format) && ratio == Clamped(format, given)
    requires p1 <= 5 && p23 <= 5
    requires x1 == ratio * StepSize(p1) as real && x2 == ratio * SubSample(format) as real * StepSize(p23) as real
    requires 8192.0 < 24577.0 * x1 && 8192.0 < 16385.0 * x2
    ensures var g := if format == 3 || format == 4 || p1 == 0 then 2 else 4;
            Consistent(format, given, Setup(Inc(x1), p1, Inc(x2), p23, g, StepSize(p1), StepSize(p23)))
  {
    hide Round, Inc, Rounded;
    IncBounds(x1);
    IncBounds(x2);
  }

  // ----- 16 bits per pixel: formats 3 and 4

  /** Clocks of the combinations considered. */
  lemma Clocks16(format: int)
    requires format == 3 || format == 4
    ensures Clocks(format, 1, 1) == 8.0
    ensures Clocks(format, 2, 2) == 4.0
    ensures Clocks(format, 3, 3) == 2.0
    ensures Clocks(format, 4, 4) == 1.0
    ensures Clocks(format, 5, 5) == 0.5
  {}

  lemma Guards16(m: Mode, ratio: real)
    requires (m.format == 3 || m.format == 4) && ratio > 0.0
    ensures !Candidate(m, ratio, 0)
    ensures !Candidate(m, ratio, 1)
    ensures !Candidate(m, ratio, 2)
    ensures Candidate(m, ratio, 3) <==> (ratio >= 0.5)
    ensures !Candidate(m, ratio, 4)
    ensures Candidate(m, ratio, 5) <==> (ratio >= 0.25)
    ensures !Candidate(m, ratio, 6)
    ensures Candidate(m, ratio, 7) <==> (ratio >= 0.125)
    ensures !Candidate(m, ratio, 8)
    ensures Candidate(m, ratio, 9) <==> (ratio >= 0.0625)
    ensures !Candidate(m, ratio, 10)
    ensures Candidate(m, ratio, 11) <==> (ratio >= 0.03125)
  {
    hide Inc, Clocks, Cost;
    Clocks16(m.format);
  }

  /** All components are fetched in pairs and two taps are the most. */
  method Cascade16(m: Mode, hScaleRatio: real) returns (s: Setup, ghost rung: nat)
    requires (m.format == 3 || m.format == 4) && hScaleRatio > 0.0
    ensures Consistent(m.format, hScaleRatio, s)
    ensures (s.p1Code, s.p23Code) == Rung(rung) && FirstChoice(m, hScaleRatio, rung)
  {
    hide Round, Inc, Consistent, Candidate, NoneBefore;
    s, rung := UNSET, 0;
    var ratio := hScaleRatio;
    Guards16(m, ratio);
    Chain(m, ratio);
    if ratio >= 0.5 {
      Accept(m.format, hScaleRatio, ratio, 1, 1, ratio, ratio);
      s := Setup(Inc(ratio), 1, Inc(ratio), 1, 2, 1, 1);
      rung := 3;
    } else if ratio >= 0.25 {
      Accept(m.format, hScaleRatio, ratio, 2, 2, ratio * 2.0, ratio * 2.0);
      s := Setup(Inc(ratio * 2.0), 2, Inc(ratio * 2.0), 2, 2, 2, 2);
      rung := 5;
    } else if ratio >= 0.125 {
      Accept(m.format, hScaleRatio, ratio, 3, 3, ratio * 4.0, ratio * 4.0);
      s := Setup(Inc(ratio * 4.0), 3, Inc(ratio * 4.0), 3, 2, 4, 4);
      rung := 7;
    } else if ratio >= 0.0625 {
      Accept(m.format, hScaleRatio, ratio, 4, 4, ratio * 8.0, ratio * 8.0);
      s := Setup(Inc(ratio * 8.0), 4, Inc(ratio * 8.0), 4, 2, 8, 8);
      rung := 9;
    } else if ratio >= 0.03125 {
      Accept(m.format, hScaleRatio, ratio, 5, 5, ratio * 16.0, ratio * 16.0);
      s := Setup(Inc(ratio * 16.0), 5, Inc(ratio * 16.0), 5, 2, 16, 16);
      rung := 11;
    } else {
      ratio := 0.03125;
      Guards16(m, ratio);
      Chain(m, ratio);
      Accept(m.format, hScaleRatio, ratio, 5, 5, ratio * 16.0, ratio * 16.0);
      s := Setup(Inc(ratio * 16.0), 5, Inc(ratio * 16.0), 5, 2, 16, 16);
      rung := 11;
    }
  }

  // ----- 32 bits per pixel: format 6

  /** Clocks of the combinations considered. */
  lemma Clocks32(format: int)
    requires format == 6
    ensures Clocks(format, 0, 0) == 24.0
    ensures Clocks(format, 1, 1) == 12.0
    ensures Clocks(format, 2, 2) == 6.0
    ensures Clocks(format, 2, 3) == 4.0
    ensures Clocks(format, 3, 3) == 3.0
    ensures Clocks(format, 3, 4) == 2.0
    ensures Clocks(format, 4, 4) == 1.5
    ensures Clocks(format, 5, 5) == 0.75
  {}

  lemma Guards32(m: Mode, ratio: real)
    requires m.format == 6 && ratio > 0.0
    ensures Candidate(m, ratio, 0) <==> (ratio >= 1.5 && !m.noFourTapY)
    ensures !Candidate(m, ratio, 1)
    ensures !Candidate(m, ratio, 2)
    ensures Candidate(m, ratio, 3) <==> (ratio >= 0.75)
    ensures !Candidate(m, ratio, 4)
    ensures Candidate(m, ratio, 5) <==> (ratio >= 0.375)
    ensures Candidate(m, ratio, 6) <==> (ratio >= 0.25)
    ensures Candidate(m, ratio, 7) <==> (ratio >= 0.1875)
    ensures Candidate(m, ratio, 8) <==> (ratio >= 0.125)
    ensures Candidate(m, ratio, 9) <==> (ratio >= 0.09375)
    ensures !Candidate(m, ratio, 10)
    ensures Candidate(m, ratio, 11) <==> (ratio >= 0.046875)
  {
    hide Inc, Clocks, Cost;
    Clocks32(m.format);
  }

  /** The last combination is taken from a sixteenth on, although it would fit earlier. */
  method Cascade32(m: Mode, hScaleRatio: real) returns (s: Setup, ghost rung: nat)
    requires m.format == 6 && hScaleRatio > 0.0
    ensures Consistent(m.format, hScaleRatio, s)
    ensures (s.p1Code, s.p23Code) == Rung(rung) && FirstChoice(m, hScaleRatio, rung)
  {
    hide Round, Inc, Consistent, Candidate, NoneBefore;
    s, rung := UNSET, 0;
    var ratio := hScaleRatio;
    Guards32(m, ratio);
    Chain(m, ratio);
    if ratio >= 1.5 && !m.noFourTapY {
      Accept(m.format, hScaleRatio, ratio, 0, 0, ratio, ratio);
      s := Setup(Inc(ratio), 0, Inc(ratio), 0, 2, 1, 1);
      rung := 0;
    } else if ratio >= 0.75 {
      Accept(m.format, hScaleRatio, ratio, 1, 1, ratio, ratio);
      s := Setup(Inc(ratio), 1, Inc(ratio), 1, 4, 1, 1);
      rung := 3;
    } else if ratio >= 0.375 {
      Accept(m.format, hScaleRatio, ratio, 2, 2, ratio * 2.0, ratio * 2.0);
      s := Setup(Inc(ratio * 2.0), 2, Inc(ratio * 2.0), 2, 4, 2, 2);
      rung := 5;
    } else if ratio >= 0.25 {
      Accept(m.format, hScaleRatio, ratio, 2, 3, ratio * 2.0, ratio * 4.0);
      s := Setup(Inc(ratio * 2.0), 2, Inc(ratio * 4.0), 3, 4, 2, 4);
      rung := 6;
    } else if ratio >= 0.1875 {
      Accept(m.format, hScaleRatio, ratio, 3, 3, ratio * 4.0, ratio * 4.0);
      s := Setup(Inc(ratio * 4.0), 3, Inc(ratio * 4.0), 3, 4, 4, 4);
      rung := 7;
    } else if ratio >= 0.125 {
      Accept(m.format, hScaleRatio, ratio, 3, 4, ratio * 4.0, ratio * 8.0);
      s := Setup(Inc(ratio * 4.0), 3, Inc(ratio * 8.0), 4, 4, 4, 8);
      rung := 8;
    } else if ratio >= 0.09375 {
      Accept(m.format, hScaleRatio, ratio, 4, 4, ratio * 8.0, ratio * 8.0);
      s := Setup(Inc(ratio * 8.0), 4, Inc(ratio * 8.0), 4, 4, 8, 8);
      rung := 9;
    } else if ratio >= 0.0625 {
      Accept(m.format, hScaleRatio, ratio, 5, 5, ratio * 16.0, ratio * 16.0);
      s := Setup(Inc(ratio * 16.0), 5, Inc(ratio * 16.0), 5, 4, 16, 16);
      rung := 11;
    } else {
      ratio := 0.0625;
      Guards32(m, ratio);
      Chain(m, ratio);
      Accept(m.format, hScaleRatio, ratio, 5, 5, ratio * 16.0, ratio * 16.0);
      s := Setup(Inc(ratio * 16.0), 5, Inc(ratio * 16.0), 5, 4, 16, 16);
      rung := 11;
    }
  }

  // ----- Halved chroma: formats 10 to 14

  /** Clocks of the combinations considered. */
  lemma ClocksHalf(format: int)
    requires 10 <= format <= 14
    ensures Clocks(format, 0, 0) == 16.0
    ensures Clocks(format, 1, 0) == 12.0
    ensures Clocks(format, 0, 1) == 12.0
    ensures Clocks(format, 1, 1) == 8.0
    ensures Clocks(format, 1, 2) == 6.0
    ensures Clocks(format, 2, 2) == 4.0
    ensures Clocks(format, 2, 3) == 3.0
    ensures Clocks(format, 3, 3) == 2.0
    ensures Clocks(format, 3, 4) == 1.5
    ensures Clocks(format, 4, 4) == 1.0
    ensures Clocks(format, 4, 5) == 0.75
    ensures Clocks(format, 5, 5) == 0.5
  {}

  lemma GuardsHalf(m: Mode, ratio: real)
    requires 10 <= m.format <= 14 && ratio > 0.0
    ensures Candidate(m, ratio, 0) <==> (ratio >= (8.0 + 4.0 + 4.0) / 16.0 && !m.noFourTapY && !m.noFourTapUV)
    ensures Candidate(m, ratio, 1) <==> (ratio >= (4.0 + 4.0 + 4.0) / 16.0 && m.noFourTapY && !m.noFourTapUV)
    ensures Candidate(m, ratio, 2) <==> (ratio >= (8.0 + 2.0 + 2.0) / 16.0 && !m.noFourTapY)
    ensures Candidate(m, ratio, 3) <==> (ratio >= (4.0 + 2.0 + 2.0) / 16.0)
    ensures Candidate(m, ratio, 4) <==> (ratio >= (4.0 + 1.0 + 1.0) / 16.0)
    ensures Candidate(m, ratio, 5) <==> (ratio >= (2.0 + 1.0 + 1.0) / 16.0)
    ensures Candidate(m, ratio, 6) <==> (ratio >= (2.0 + 0.5 + 0.5) / 16.0)
    ensures Candidate(m, ratio, 7) <==> (ratio >= (1.0 + 0.5 + 0.5) / 16.0)
    ensures Candidate(m, ratio, 8) <==> (ratio >= (1.0 + 0.25 + 0.25) / 16.0 && m.format == 10)
    ensures Candidate(m, ratio, 9) <==> (ratio >= (0.5 + 0.25 + 0.25) / 16.0)
    ensures Candidate(m, ratio, 10) <==> (ratio >= (0.5 + 0.125 + 0.125) / 16.0 && m.format == 10)
    ensures Candidate(m, ratio, 11) <==> (ratio >= (0.25 + 0.125 + 0.125) / 16.0 && m.format == 10)
  {
    hide Inc, Clocks, Cost;
    ClocksHalf(m.format);
  }

  /** Planar and packed formats with half the chroma samples. */
  method CascadeHalf(m: Mode, hScaleRatio: real) returns (s: Setup, ghost rung: nat)
    requires 10 <= m.format <= 14 && hScaleRatio > 0.0
    ensures Consistent(m.format, hScaleRatio, s)
    ensures (s.p1Code, s.p23Code) == Rung(rung) && FirstChoice(m, hScaleRatio, rung)
  {
    hide Round, Inc, Consistent, Candidate, NoneBefore;
    s, rung := UNSET, 0;
    var ratio := hScaleRatio;
    GuardsHalf(m, ratio);
    Chain(m, ratio);
    if ratio >= (8.0 + 4.0 + 4.0) / 16.0 && !m.noFourTapY && !m.noFourTapUV {
      Accept(m.format, hScaleRatio, ratio, 0, 0, ratio, ratio * 2.0);
      s := Setup(Inc(ratio), 0, Inc(ratio * 2.0), 0, 2, 1, 1);
      rung := 0;
    } else if ratio >= (4.0 + 4.0 + 4.0) / 16.0 && m.noFourTapY && !m.noFourTapUV {
      Accept(m.format, hScaleRatio, ratio, 1, 0, ratio, ratio * 2.0);
      s := Setup(Inc(ratio), 1, Inc(ratio * 2.0), 0, 4, 1, 1);
      rung := 1;
    } else if ratio >= (8.0 + 2.0 + 2.0) / 16.0 && !m.noFourTapY {
      Accept(m.format, hScaleRatio, ratio, 0, 1, ratio, ratio * 2.0);
      s := Setup(Inc(ratio), 0, Inc(ratio * 2.0), 1, 2, 1, 1);
      rung := 2;
    } else if ratio >= (4.0 + 2.0 + 2.0) / 16.0 {
      Accept(m.format, hScaleRatio, ratio, 1, 1, ratio, ratio * 2.0);
      s := Setup(Inc(ratio), 1, Inc(ratio * 2.0), 1, 4, 1, 1);
      rung := 3;
    } else if ratio >= (4.0 + 1.0 + 1.0) / 16.0 {
      Accept(m.format, hScaleRatio, ratio, 1, 2, ratio, ratio * 2.0 * 2.0);
      s := Setup(Inc(ratio), 1, Inc(ratio * 2.0 * 2.0), 2, 4, 1, 2);
      rung := 4;
    } else if ratio >= (2.0 + 1.0 + 1.0) / 16.0 {
      Accept(m.format, hScaleRatio, ratio, 2, 2, ratio * 2.0, ratio * 2.0 * 2.0);
      s := Setup(Inc(ratio * 2.0), 2, Inc(ratio * 2.0 * 2.0), 2, 4, 2, 2);
      rung := 5;
    } else if ratio >= (2.0 + 0.5 + 0.5) / 16.0 {
      Accept(m.format, hScaleRatio, ratio, 2, 3, ratio * 2.0, ratio * 2.0 * 4.0);
      s := Setup(Inc(ratio * 2.0), 2, Inc(ratio * 2.0 * 4.0), 3, 4, 2, 4);
      rung := 6;
    } else if ratio >= (1.0 + 0.5 + 0.5) / 16.0 {
      Accept(m.format, hScaleRatio, ratio, 3, 3, ratio * 4.0, ratio * 2.0 * 4.0);
      s := Setup(Inc(ratio * 4.0), 3, Inc(ratio * 2.0 * 4.0), 3, 4, 4, 4);
      rung := 7;
    } else if ratio >= (1.0 + 0.25 + 0.25) / 16.0 && m.format == 10 {
      Accept(m.format, hScaleRatio, ratio, 3, 4, ratio * 4.0, ratio * 2.0 * 8.0);
      s := Setup(Inc(ratio * 4.0), 3, Inc(ratio * 2.0 * 8.0), 4, 4, 4, 8);
      rung := 8;
    } else if ratio >= (0.5 + 0.25 + 0.25) / 16.0 {
      Accept(m.format, hScaleRatio, ratio, 4, 4, ratio * 8.0, ratio * 2.0 * 8.0);
      s := Setup(Inc(ratio * 8.0), 4, Inc(ratio * 2.0 * 8.0), 4, 4, 8, 8);
      rung := 9;
    } else if ratio >= (0.5 + 0.125 + 0.125) / 16.0 && m.format == 10 {
      Accept(m.format, hScaleRatio, ratio, 4, 5, ratio * 8.0, ratio * 2.0 * 16.0);
      s := Setup(Inc(ratio * 8.0), 4, Inc(ratio * 2.0 * 16.0), 5, 4, 8, 16);
      rung := 10;
    } else if ratio >= (0.25 + 0.125 + 0.125) / 16.0 && m.format == 10 {
      Accept(m.format, hScaleRatio, ratio, 5, 5, ratio * 16.0, ratio * 2.0 * 16.0);
      s := Setup(Inc(ratio * 16.0), 5, Inc(ratio * 2.0 * 16.0), 5, 4, 16, 16);
      rung := 11;
    } else {
      if m.format == 10 {
        ratio := (0.25 + 0.125 + 0.125) / 16.0;
        GuardsHalf(m, ratio);
        Chain(m, ratio);
        Accept(m.format, hScaleRatio, ratio, 5, 5, ratio * 16.0, ratio * 2.0 * 16.0);
        s := Setup(Inc(ratio * 16.0), 5, Inc(ratio * 2.0 * 16.0), 5, 4, 16, 16);
        rung := 11;
      } else {
        ratio := (0.5 + 0.25 + 0.25) / 16.0;
        GuardsHalf(m, ratio);
        Chain(m, ratio);
        Accept(m.format, hScaleRatio, ratio, 4, 4, ratio * 8.0, ratio * 2.0 * 8.0);
        s := Setup(Inc(ratio * 8.0), 4, Inc(ratio * 2.0 * 8.0), 4, 4, 8, 8);
        rung := 9;
      }
    }
  }

  // ----- YUV9: format 9

  /** Clocks of the combinations considered. */
  lemma ClocksNine(format: int)
    requires format == 9
    ensures Clocks(format, 0, 0) == 12.0
    ensures Clocks(format, 1, 0) == 8.0
    ensures Clocks(format, 0, 1) == 10.0
    ensures Clocks(format, 1, 1) == 6.0
    ensures Clocks(format, 1, 2) == 5.0
    ensures Clocks(format, 2, 2) == 3.0
    ensures Clocks(format, 2, 3) == 2.5
    ensures Clocks(format, 3, 3) == 1.5
    ensures Clocks(format, 4, 4) == 0.75
    ensures Clocks(format, 4, 5) == 0.625
    ensures Clocks(format, 5, 5) == 0.375
  {}

  /** Large enough scaled ratios leave room in both fields. */
  lemma BothFit(x1: real, x2: real)
    requires 3.0 * x1 > 1.0
    requires x2 >= 0.5
    ensures Inc(x1) <= 0x3000 && Inc(x2) <= 0x2000
  {
    hide Inc, Round;
    IncBounds(x1);
    IncBounds(x2);
  }

  /** The fields of each combination. */
  lemma FieldsNine(ratio: real)
    requires ratio > 0.0
    ensures FieldsFit(ratio, 0) <==> Inc(ratio) <= 0x3000 && Inc(ratio * 4.0) <= 0x2000
    ensures FieldsFit(ratio, 1) <==> Inc(ratio) <= 0x3000 && Inc(ratio * 4.0) <= 0x2000
    ensures FieldsFit(ratio, 2) <==> Inc(ratio) <= 0x3000 && Inc(ratio * 4.0) <= 0x2000
    ensures FieldsFit(ratio, 3) <==> Inc(ratio) <= 0x3000 && Inc(ratio * 4.0) <= 0x2000
    ensures FieldsFit(ratio, 4) <==> Inc(ratio) <= 0x3000 && Inc(ratio * 4.0 * 2.0) <= 0x2000
    ensures FieldsFit(ratio, 5) <==> Inc(ratio * 2.0) <= 0x3000 && Inc(ratio * 4.0 * 2.0) <= 0x2000
    ensures FieldsFit(ratio, 6) <==> Inc(ratio * 2.0) <= 0x3000 && Inc(ratio * 4.0 * 4.0) <= 0x2000
    ensures FieldsFit(ratio, 7) <==> Inc(ratio * 4.0) <= 0x3000 && Inc(ratio * 4.0 * 4.0) <= 0x2000
    ensures FieldsFit(ratio, 9) <==> Inc(ratio * 8.0) <= 0x3000 && Inc(ratio * 4.0 * 8.0) <= 0x2000
    ensures FieldsFit(ratio, 10) <==> Inc(ratio * 8.0) <= 0x3000 && Inc(ratio * 4.0 * 16.0) <= 0x2000
    ensures FieldsFit(ratio, 11) <==> Inc(ratio * 16.0) <= 0x3000 && Inc(ratio * 4.0 * 16.0) <= 0x2000
  {
    hide Inc;
  }

  /** Whatever ratio can be programmed, the fields of the last combination fit. */
  lemma LastFieldsNine(ratio: real)
    requires ratio > 0.0
    ensures ratio >= (0.25 + 0.0625 + 0.0625) / 16.0 ==>
            Inc(ratio * 16.0) <= 0x3000 && Inc(ratio * 4.0 * 16.0) <= 0x2000
  {
    hide Inc, Round;
    if ratio >= (0.25 + 0.0625 + 0.0625) / 16.0 {
      BothFit(ratio * 16.0, ratio * 4.0 * 16.0);
    }
  }

  lemma GuardsNine(m: Mode, ratio: real)
    requires m.format == 9 && ratio > 0.0
    ensures Candidate(m, ratio, 0)
            <==> (ratio >= (8.0 + 2.0 + 2.0) / 16.0 && Inc(ratio) <= 0x3000 && Inc(ratio * 4.0) <= 0x2000
                && !m.noFourTapY && !m.noFourTapUV)
    ensures Candidate(m, ratio, 1)
            <==> (ratio >= (4.0 + 2.0 + 2.0) / 16.0 && Inc(ratio) <= 0x3000 && Inc(ratio * 4.0) <= 0x2000
                && m.noFourTapY && !m.noFourTapUV)
    ensures Candidate(m, ratio, 2)
            <==> (ratio >= (8.0 + 1.0 + 1.0) / 16.0 && Inc(ratio) <= 0x3000 && Inc(ratio * 4.0) <= 0x2000
                && !m.noFourTapY)
    ensures Candidate(m, ratio, 3)
            <==> (ratio >= (4.0 + 1.0 + 1.0) / 16.0 && Inc(ratio) <= 0x3000 && Inc(ratio * 4.0) <= 0x2000)
    ensures Candidate(m, ratio, 4)
            <==> (ratio >= (4.0 + 0.5 + 0.5) / 16.0 && Inc(ratio) <= 0x3000 && Inc(ratio * 4.0 * 2.0) <= 0x2000)
    ensures Candidate(m, ratio, 5)
            <==> (ratio >= (2.0 + 0.5 + 0.5) / 16.0 && Inc(ratio * 2.0) <= 0x3000 && Inc(ratio * 4.0 * 2.0) <= 0x2000)
    ensures !Candidate(m, ratio, 6)
    ensures Candidate(m, ratio, 7)
            <==> (ratio >= (1.0 + 0.25 + 0.25) / 16.0 && Inc(ratio * 4.0) <= 0x3000 && Inc(ratio * 4.0 * 4.0) <= 0x2000)
    ensures !Candidate(m, ratio, 8)
    ensures Candidate(m, ratio, 9)
            <==> (ratio >= (0.5 + 0.125 + 0.125) / 16.0 && Inc(ratio * 8.0) <= 0x3000
                && Inc(ratio * 4.0 * 8.0) <= 0x2000)
    ensures Candidate(m, ratio, 10)
            <==> (ratio >= (0.5 + 0.0625 + 0.0625) / 16.0 && Inc(ratio * 8.0) <= 0x3000
                && Inc(ratio * 4.0 * 16.0) <= 0x2000)
    ensures Candidate(m, ratio, 11)
            <==> (ratio >= (0.25 + 0.0625 + 0.0625) / 16.0 && Inc(ratio * 16.0) <= 0x3000
                && Inc(ratio * 4.0 * 16.0) <= 0x2000)
  {
    hide Inc, Clocks, Cost, FieldsFit;
    ClocksNine(m.format);
    FieldsNine(ratio);
  }

  /** A quarter of the chroma samples; here the guards check the increment fields as well. */
  method CascadeNine(m: Mode, hScaleRatio: real) returns (s: Setup, ghost rung: nat)
    requires m.format == 9 && hScaleRatio > 0.0
    ensures Consistent(m.format, hScaleRatio, s)
    ensures (s.p1Code, s.p23Code) == Rung(rung) && FirstChoice(m, hScaleRatio, rung)
  {
    hide Round, Inc, Consistent, Candidate, NoneBefore;
    s, rung := UNSET, 0;
    var ratio := hScaleRatio;
    GuardsNine(m, ratio);
    Chain(m, ratio);
    if ratio >= (8.0 + 2.0 + 2.0) / 16.0 && Inc(ratio) <= 0x3000 && Inc(ratio * 4.0) <= 0x2000 && !m.noFourTapY
        && !m.noFourTapUV {
      IncBounds(ratio);
      IncBounds(ratio * 4.0);
      Accept(m.format, hScaleRatio, ratio, 0, 0, ratio, ratio * 4.0);
      s := Setup(Inc(ratio), 0, Inc(ratio * 4.0), 0, 2, 1, 1);
      rung := 0;
    } else if ratio >= (4.0 + 2.0 + 2.0) / 16.0 && Inc(ratio) <= 0x3000 && Inc(ratio * 4.0) <= 0x2000 && m.noFourTapY
        && !m.noFourTapUV {
      IncBounds(ratio);
      IncBounds(ratio * 4.0);
      Accept(m.format, hScaleRatio, ratio, 1, 0, ratio, ratio * 4.0);
      s := Setup(Inc(ratio), 1, Inc(ratio * 4.0), 0, 4, 1, 1);
      rung := 1;
    } else if ratio >= (8.0 + 1.0 + 1.0) / 16.0 && Inc(ratio) <= 0x3000 && Inc(ratio * 4.0) <= 0x2000 && !m.noFourTapY {
      IncBounds(ratio);
      IncBounds(ratio * 4.0);
      Accept(m.format, hScaleRatio, ratio, 0, 1, ratio, ratio * 4.0);
      s := Setup(Inc(ratio), 0, Inc(ratio * 4.0), 1, 2, 1, 1);
      rung := 2;
    } else if ratio >= (4.0 + 1.0 + 1.0) / 16.0 && Inc(ratio) <= 0x3000 && Inc(ratio * 4.0) <= 0x2000 {
      IncBounds(ratio);
      IncBounds(ratio * 4.0);
      Accept(m.format, hScaleRatio, ratio, 1, 1, ratio, ratio * 4.0);
      s := Setup(Inc(ratio), 1, Inc(ratio * 4.0), 1, 4, 1, 1);
      rung := 3;
    } else if ratio >= (4.0 + 0.5 + 0.5) / 16.0 && Inc(ratio) <= 0x3000 && Inc(ratio * 4.0 * 2.0) <= 0x2000 {
      IncBounds(ratio);
      IncBounds(ratio * 4.0 * 2.0);
      Accept(m.format, hScaleRatio, ratio, 1, 2, ratio, ratio * 4.0 * 2.0);
      s := Setup(Inc(ratio), 1, Inc(ratio * 4.0 * 2.0), 2, 4, 1, 2);
      rung := 4;
    } else if ratio >= (2.0 + 0.5 + 0.5) / 16.0 && Inc(ratio * 2.0) <= 0x3000 && Inc(ratio * 4.0 * 2.0) <= 0x2000 {
      IncBounds(ratio * 2.0);
      IncBounds(ratio * 4.0 * 2.0);
      Accept(m.format, hScaleRatio, ratio, 2, 2, ratio * 2.0, ratio * 4.0 * 2.0);
      s := Setup(Inc(ratio * 2.0), 2, Inc(ratio * 4.0 * 2.0), 2, 4, 2, 2);
      rung := 5;
    } else if ratio >= (2.0 + 0.25 + 0.25) / 16.0 && Inc(ratio) <= 0x3000 && Inc(ratio * 4.0 * 4.0) <= 0x2000 {
      // The guard asks the unstepped luma increment to fit, and the fifth combination
      // was already there for that.
      IncBounds(ratio);
      IncBounds(ratio * 4.0 * 2.0);
      assert false;
    } else if ratio >= (1.0 + 0.25 + 0.25) / 16.0 && Inc(ratio * 4.0) <= 0x3000 && Inc(ratio * 4.0 * 4.0) <= 0x2000 {
      IncBounds(ratio * 4.0);
      IncBounds(ratio * 4.0 * 4.0);
      Accept(m.format, hScaleRatio, ratio, 3, 3, ratio * 4.0, ratio * 4.0 * 4.0);
      s := Setup(Inc(ratio * 4.0), 3, Inc(ratio * 4.0 * 4.0), 3, 4, 4, 4);
      rung := 7;
    } else if ratio >= (0.5 + 0.125 + 0.125) / 16.0 && Inc(ratio * 8.0) <= 0x3000 && Inc(ratio * 4.0 * 8.0) <= 0x2000 {
      IncBounds(ratio * 8.0);
      IncBounds(ratio * 4.0 * 8.0);
      Accept(m.format, hScaleRatio, ratio, 4, 4, ratio * 8.0, ratio * 4.0 * 8.0);
      s := Setup(Inc(ratio * 8.0), 4, Inc(ratio * 4.0 * 8.0), 4, 4, 8, 8);
      rung := 9;
    } else if ratio >= (0.5 + 0.0625 + 0.0625) / 16.0 && Inc(ratio * 8.0) <= 0x3000
        && Inc(ratio * 4.0 * 16.0) <= 0x2000 {
      IncBounds(ratio * 8.0);
      IncBounds(ratio * 4.0 * 16.0);
      Accept(m.format, hScaleRatio, ratio, 4, 5, ratio * 8.0, ratio * 4.0 * 16.0);
      s := Setup(Inc(ratio * 8.0), 4, Inc(ratio * 4.0 * 16.0), 5, 4, 8, 16);
      rung := 10;
    } else if ratio >= (0.25 + 0.0625 + 0.0625) / 16.0 && Inc(ratio * 16.0) <= 0x3000
        && Inc(ratio * 4.0 * 16.0) <= 0x2000 {
      IncBounds(ratio * 16.0);
      IncBounds(ratio * 4.0 * 16.0);
      Accept(m.format, hScaleRatio, ratio, 5, 5, ratio * 16.0, ratio * 4.0 * 16.0);
      s := Setup(Inc(ratio * 16.0), 5, Inc(ratio * 4.0 * 16.0), 5, 4, 16, 16);
      rung := 11;
    } else {
      LastFieldsNine(ratio);
      LastFieldsNine((0.25 + 0.0625 + 0.0625) / 16.0);
      ratio := (0.25 + 0.0625 + 0.0625) / 16.0;
      GuardsNine(m, ratio);
      Chain(m, ratio);
      Accept(m.format, hScaleRatio, ratio, 5, 5, ratio * 16.0, ratio * 4.0 * 16.0);
      s := Setup(Inc(ratio * 16.0), 5, Inc(ratio * 4.0 * 16.0), 5, 4, 16, 16);
      rung := 11;
    }
  }

  // ----- All formats

  /** The masks of the packed registers keep what the cascade produces. */
  lemma MasksKeep(format: int, ratio: real, s: Setup)
    requires ratio > 0.0 && (Consistent(format, ratio, s) || s == UNSET)
    ensures s.p1Inc % 0x4000 == s.p1Inc && s.p23Inc % 0x4000 == s.p23Inc
    ensures s.p1Code % 8 == s.p1Code && s.p23Code % 8 == s.p23Code
  {
    hide Round, Clamped, StepSize, SubSample;
  }

  /** The overlay registers the cascade fills. */
  class Besr {
    var hInc: int
    var stepBy: int

    /** Sets up both increments and step codes; a format outside the table leaves zeros.
        Masking to 14 and 3 bits loses nothing. */
    method CalcHIncStepBy(m: Mode, hScaleRatio: real) returns (s: Setup, ghost rung: nat)
      requires hScaleRatio > 0.0
      modifies this
      ensures Supported(m.format) ==> Consistent(m.format, hScaleRatio, s) && FirstChoice(m, hScaleRatio, rung)
                                      && (s.p1Code, s.p23Code) == Rung(rung)
      ensures !Supported(m.format) ==> s == UNSET
      ensures Supported(m.format) ==>
                Cost(s.p1Code) <= Clocks(m.format, s.p1Code, s.p23Code) <= 16.0 * Clamped(m.format, hScaleRatio)
      ensures m.format == 11 || m.format == 12 ==>
                s.p1Code <= 4 && s.p23Code <= 4 && (s.p1Code, s.p23Code) != (3, 4)
      // four taps only where they are permitted, and never at 16 bits per pixel
      ensures m.noFourTapY || m.format == 3 || m.format == 4 ==> s == UNSET || s.p1Code != 0
      ensures (m.noFourTapUV && 9 <= m.format <= 14) || m.format == 3 || m.format == 4 ==> s.p23Code != 0
      ensures hInc == s.p1Inc + s.p23Inc * 0x10000 && stepBy == s.p1Code + s.p23Code * 0x100
    {
      hide FirstChoice, Consistent, Rung;
      s, rung := UNSET, 0;
      if m.format == 3 || m.format == 4 {
        s, rung := Cascade16(m, hScaleRatio);
      } else if m.format == 6 {
        s, rung := Cascade32(m, hScaleRatio);
      } else if m.format == 9 {
        s, rung := CascadeNine(m, hScaleRatio);
      } else if 10 <= m.format <= 14 {
        s, rung := CascadeHalf(m, hScaleRatio);
      }
      if Supported(m.format) {
        BudgetKept(m, hScaleRatio, rung);
        FlagsKept(m, hScaleRatio, rung);
      }
      if m.format == 11 || m.format == 12 {
        PackedCodes(m, hScaleRatio, rung);
      }
      MasksKeep(m.format, hScaleRatio, s);
      hInc := s.p1Inc % 0x4000 + s.p23Inc % 0x4000 * 0x10000;
      stepBy := s.p1Code % 8 + s.p23Code % 8 * 0x100;
    }
  }

  // ----- What the choice means

  /** Clocks of a rung. */
  function RungClocks(format: int, i: nat): real {
    Clocks(format, Rung(i).0, Rung(i).1)
  }

  /** Of two allowed rungs the later one costs less and has no smaller codes. */
  lemma RungsDescend(m: Mode, i: nat, j: nat)
    requires Supported(m.format) && i < j < RUNGS && Allowed(m, i) && Allowed(m, j)
    ensures RungClocks(m.format, j) < RungClocks(m.format, i)
    ensures Rung(i).0 <= Rung(j).0 && Rung(i).1 <= Rung(j).1
  {
    if m.format == 3 || m.format == 4 {
      Clocks16(m.format);
    } else if m.format == 6 {
      Clocks32(m.format);
    } else if m.format == 9 {
      ClocksNine(m.format);
    } else {
      ClocksHalf(m.format);
    }
    hide Clocks, Cost;
  }

  /** The choice is the candidate that makes the most of the budget. */
  lemma FirstIsCostliest(m: Mode, ratio: real, i: nat)
    requires ratio > 0.0 && Supported(m.format) && i < RUNGS
    ensures FirstChoice(m, ratio, i) <==>
            && Candidate(m, Clamped(m.format, ratio), i)
            && forall j: nat | j < RUNGS && Candidate(m, Clamped(m.format, ratio), j) ::
                 RungClocks(m.format, j) <= RungClocks(m.format, i)
  {
    hide Allowed, Affordable, RungClocks, Rung;
    var r := Clamped(m.format, ratio);
    if Candidate(m, r, i) {
      forall j: nat | j < RUNGS && j != i && Candidate(m, r, j)
        ensures RungClocks(m.format, j) < RungClocks(m.format, i) <==> i < j
        ensures RungClocks(m.format, j) > RungClocks(m.format, i) <==> j < i
      {
        if i < j {
          RungsDescend(m, i, j);
        } else {
          RungsDescend(m, j, i);
        }
      }
    }
  }

  /** No combination is set up that takes longer than the pixels last. */
  lemma BudgetKept(m: Mode, ratio: real, i: nat)
    requires ratio > 0.0 && FirstChoice(m, ratio, i)
    ensures Cost(Rung(i).0) <= RungClocks(m.format, i) <= 16.0 * Clamped(m.format, ratio)
    ensures ratio >= MinRatio(m.format) ==> RungClocks(m.format, i) <= 16.0 * ratio
  {
    hide Rung, Allowed, FieldsFit, NoneBefore, MinRatio;
  }

  /** Products with the step sizes grow with the ratio and stay above a quarter when the
      clocks are affordable. */
  lemma ScaledRatios(r1: real, r2: real, p: nat, k: real)
    requires 0.0 < r1 <= r2 && k >= 1.0 && Cost(p) <= 16.0 * r1 * k
    ensures 0.25 <= r1 * k * StepSize(p) as real <= r2 * k * StepSize(p) as real
  {
    assert r1 * k <= r2 * k by {
      assert r2 * k - r1 * k == (r2 - r1) * k;
    }
  }

  /** A larger ratio never makes an increment outgrow its field. */
  lemma FieldUp(x1: real, x2: real)
    requires 0.25 <= x1 <= x2
    ensures Inc(x1) <= 0x3000 ==> Inc(x2) <= 0x3000
    ensures Inc(x1) <= 0x2000 ==> Inc(x2) <= 0x2000
  {
    hide Inc, Round;
    IncBounds(x1);
    IncBounds(x2);
  }

  lemma CostsInClocks(p1: nat, p23: nat)
    ensures Cost(p1) <= Clocks(9, p1, p23) && Cost(p23) <= 4.0 * Clocks(9, p1, p23)
  {}

  lemma FieldsUp(r1: real, r2: real, i: nat)
    requires 0.0 < r1 <= r2 && FieldsFit(r1, i) && RungClocks(9, i) <= 16.0 * r1
    ensures FieldsFit(r2, i)
  {
    hide Inc, Rung, Cost, Clocks;
    var p1, p23 := Rung(i).0, Rung(i).1;
    CostsInClocks(p1, p23);
    ScaledRatios(r1, r2, p1, 1.0);
    ScaledRatios(r1, r2, p23, 4.0);
    FieldUp(r1 * StepSize(p1) as real, r2 * StepSize(p1) as real);
    FieldUp(r1 * 4.0 * StepSize(p23) as real, r2 * 4.0 * StepSize(p23) as real);
  }

  /** What is affordable at some ratio is so at a larger one. */
  lemma AffordableUp(format: int, r1: real, r2: real, i: nat)
    requires 0.0 < r1 <= r2 && Affordable(format, r1, i)
    ensures Affordable(format, r2, i)
  {
    hide FieldsFit, Rung, Clocks;
    if format == 9 {
      FieldsUp(r1, r2, i);
    }
  }

  /** A larger ratio never gets a larger step code, and the same ratio gets the same codes. */
  lemma CodesFall(m: Mode, r1: real, r2: real, i1: nat, i2: nat)
    requires Supported(m.format) && 0.0 < r1 <= r2
    requires FirstChoice(m, r1, i1) && FirstChoice(m, r2, i2)
    ensures Rung(i2).0 <= Rung(i1).0 && Rung(i2).1 <= Rung(i1).1
    ensures r1 == r2 ==> i1 == i2
  {
    hide Affordable, Rung, Allowed;
    AffordableUp(m.format, Clamped(m.format, r1), Clamped(m.format, r2), i1);
    assert Candidate(m, Clamped(m.format, r2), i1);
    if i2 < i1 {
      RungsDescend(m, i2, i1);
    }
  }

  lemma FlagsKept(m: Mode, ratio: real, i: nat)
    requires ratio > 0.0 && FirstChoice(m, ratio, i)
    ensures m.noFourTapY || m.format == 3 || m.format == 4 ==> Rung(i).0 != 0
    ensures (m.noFourTapUV && 9 <= m.format <= 14) || m.format == 3 || m.format == 4 ==> Rung(i).1 != 0
  {
    hide Affordable;
  }

  /** Packed formats never skip sixteen pixels nor mix codes 3 and 4. */
  lemma PackedCodes(m: Mode, ratio: real, i: nat)
    requires ratio > 0.0 && (m.format == 11 || m.format == 12) && FirstChoice(m, ratio, i)
    ensures Rung(i).0 <= 4 && Rung(i).1 <= 4 && Rung(i) != (3, 4)
  {
    hide Affordable;
  }

  /** The guard of luma by two and chroma by four in YUV9 tests the wrong luma increment:
      the driver steps luma by four although by two would do at exactly these ratios. */
  lemma NineLosesLuma(m: Mode, ratio: real, i: nat)
    requires ratio > 0.0 && m.format == 9 && FirstChoice(m, ratio, i)
    ensures Rung(i) != (2, 3)
    ensures RungClocks(9, i) < RungClocks(9, 6) && Affordable(9, Clamped(9, ratio), 6)
            <==> 8192.0 < 49154.0 * ratio && ratio < 0.1875
  {
    hide Inc, Clocks, Cost, FieldsFit;
    var r := Clamped(9, ratio);
    ClocksNine(9);
    SixthFieldsNine(r);
    FieldsNine(r);
    GuardsNine(m, r);
    if r >= 0.1875 {
      SixthFieldsNine(r);
      assert Candidate(m, r, 5);
    }
  }

  /** At a ratio of 0.17, for one. */
  lemma NineLosesLumaAt17(m: Mode)
    requires m == Mode(9, false, false)
    ensures FirstChoice(m, 0.17, 7) && Affordable(9, 0.17, 6) && RungClocks(9, 7) < RungClocks(9, 6)
  {
    hide Inc, Round, FieldsFit, Clocks, Cost;
    GuardsNine(m, 0.17);
    Chain(m, 0.17);
    BothFit(0.68, 2.72);
    SixthFieldsNine(0.17);
    ClocksNine(9);
    hide Candidate, NoneBefore;
  }

  lemma SixthFieldsNine(ratio: real)
    requires ratio > 0.0
    ensures ratio >= 0.15625 ==> (FieldsFit(ratio, 6) <==> 8192.0 < 49154.0 * ratio)
    ensures ratio >= 0.1875 ==> FieldsFit(ratio, 5)
  {
    hide Inc, Round, FieldsFit;
    if ratio >= 0.15625 {
      FieldsNine(ratio);
      IncBounds(ratio * 2.0);
      BothFit(1.0, ratio * 4.0 * 4.0);
      BothFit(1.0, ratio * 4.0 * 2.0);
    }
  }
}
