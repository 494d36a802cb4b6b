/** Filter coefficients for shrinking: a table of 76 rows, one for each hundredth of the
    down-scale ratio from 0.25 to 1, with four taps for each of five phases. */
module RadeonFilter {
  import Scaler = RadeonScaler

  datatype Taps = Taps(t0: int, t1: int, t2: int, t3: int)

  const ROWS := 76

  /** The taps fit the register fields and add up to one. */
  predicate Unity(t: Taps) {
    && -8 <= t.t0 < 8 && -64 <= t.t1 < 64 && -64 <= t.t2 < 64 && -8 <= t.t3 < 8
    && t.t0 + t.t1 + t.t2 + t.t3 == 32
  }

  // ----- The table, one function a phase; runs of equal rows are written once

  function Phase0(e: int): (t: Taps)
    ensures Unity(t)
  {
    if e <= 25 then Taps(7, 16, 9, 0) else if e <= 29 then Taps(7, 17, 8, 0) else
    if e <= 34 then Taps(7, 18, 7, 0) else if e <= 41 then Taps(7, 18, 8, -1) else
    if e <= 48 then Taps(7, 20, 7, -2) else if e <= 52 then Taps(6, 22, 6, -2) else
    if e <= 53 then Taps(6, 21, 6, -1) else if e <= 58 then Taps(5, 23, 5, -1) else
    if e <= 60 then Taps(4, 25, 4, -1) else if e <= 62 then Taps(4, 24, 4, 0) else
    if e <= 66 then Taps(3, 26, 3, 0) else if e <= 69 then Taps(2, 28, 2, 0) else
    if e <= 73 then Taps(1, 30, 1, 0) else Taps(0, 32, 0, 0)
  }

  function Phase1(e: int): (t: Taps)
    ensures Unity(t)
  {
    if e <= 25 then Taps(7, 16, 9, 0) else if e <= 30 then Taps(6, 17, 9, 0) else
    if e <= 34 then Taps(5, 18, 9, 0) else if e <= 40 then Taps(6, 17, 10, -1) else
    if e <= 41 then Taps(6, 18, 10, -2) else if e <= 44 then Taps(5, 19, 10, -2) else
    if e <= 47 then Taps(5, 20, 9, -2) else if e <= 51 then Taps(4, 21, 9, -2) else
    if e <= 54 then Taps(3, 22, 9, -2) else if e <= 55 then Taps(3, 23, 8, -2) else
    if e <= 58 then Taps(2, 24, 8, -2) else if e <= 60 then Taps(1, 25, 8, -2) else
    if e <= 62 then Taps(1, 25, 7, -1) else if e <= 65 then Taps(0, 26, 7, -1) else
    if e <= 67 then Taps(0, 27, 6, -1) else if e <= 69 then Taps(0, 26, 6, 0) else
    if e <= 72 then Taps(-1, 28, 5, 0) else Taps(-2, 29, 5, 0)
  }

  function Phase2(e: int): (t: Taps)
    ensures Unity(t)
  {
    if e <= 26 then Taps(5, 15, 11, 1) else if e <= 28 then Taps(5, 16, 11, 0) else
    if e <= 38 then Taps(4, 17, 11, 0) else if e <= 41 then Taps(4, 17, 12, -1) else
    if e <= 42 then Taps(3, 18, 12, -1) else if e <= 46 then Taps(3, 19, 12, -2) else
    if e <= 49 then Taps(2, 20, 12, -2) else if e <= 51 then Taps(1, 21, 12, -2) else
    if e <= 53 then Taps(1, 22, 12, -3) else if e <= 57 then Taps(0, 23, 12, -3) else
    if e <= 60 then Taps(0, 23, 11, -2) else if e <= 64 then Taps(-1, 24, 11, -2) else
    if e <= 67 then Taps(-2, 25, 11, -2) else if e <= 69 then Taps(-2, 25, 10, -1) else
    if e <= 72 then Taps(-3, 26, 10, -1) else Taps(-3, 27, 9, -1)
  }

  function Phase3(e: int): (t: Taps)
    ensures Unity(t)
  {
    if e <= 26 then Taps(4, 15, 12, 1) else if e <= 30 then Taps(3, 15, 13, 1) else
    if e <= 42 then Taps(2, 17, 13, 0) else if e <= 46 then Taps(1, 18, 14, -1) else
    if e <= 53 then Taps(0, 19, 15, -2) else if e <= 57 then Taps(-1, 21, 15, -3) else
    if e <= 62 then Taps(-2, 22, 15, -3) else if e <= 69 then Taps(-3, 23, 15, -3) else
    if e <= 73 then Taps(-3, 23, 14, -2) else Taps(-4, 24, 14, -2)
  }

  function Phase4(e: int): (t: Taps)
    ensures Unity(t)
    ensures t.t0 == t.t3 && t.t1 == t.t2
  {
    if e <= 25 then Taps(3, 13, 13, 3) else if e <= 29 then Taps(2, 14, 14, 2) else
    if e <= 39 then Taps(1, 15, 15, 1) else if e <= 46 then Taps(0, 16, 16, 0) else
    if e <= 51 then Taps(-1, 17, 17, -1) else if e <= 56 then Taps(-2, 18, 18, -2) else Taps(-3, 19, 19, -3)
  }

  /** ArrayOfSets[e].CoefSet[phase] */
  function CoefSet(e: int, phase: nat): Taps {
    if phase == 0 then Phase0(e) else if phase == 1 then Phase1(e) else if phase == 2 then Phase2(e)
    else if phase == 3 then Phase3(e) else Phase4(e)
  }

  /** ArrayOfSets[e].Range */
  function Range(e: int): real {
    0.25 + e as real / 100.0
  }

  // ----- A register of four signed fields

  /** Fields of 4, 7, 7 and 4 bits at bits 0, 8, 16 and 24. */
  function Pack(t: Taps): (word: int) {
    t.t0 % 0x10 + t.t1 % 0x80 * 0x100 + t.t2 % 0x80 * 0x10000 + t.t3 % 0x10 * 0x1000000
  }

  function SignExtend(field: int, half: int): int {
    if field < half then field else field - 2 * half
  }

  /** What the hardware reads back from a register. */
  function Unpack(word: int): Taps {
    Taps(SignExtend(word % 0x10, 8), SignExtend(word / 0x100 % 0x80, 64),
         SignExtend(word / 0x10000 % 0x80, 64), SignExtend(word / 0x1000000 % 0x10, 8))
  }

  /** Taps that fit their fields survive the packing, which keeps below 32 bits. */
  lemma UnpackPack(t: Taps)
    requires -8 <= t.t0 < 8 && -64 <= t.t1 < 64 && -64 <= t.t2 < 64 && -8 <= t.t3 < 8
    ensures Unpack(Pack(t)) == t && 0 <= Pack(t) < 0x1_0000_0000
  {
    Fields(t.t0 % 0x10, t.t1 % 0x80, t.t2 % 0x80, t.t3 % 0x10, Pack(t));
    hide Pack;
  }

  lemma Fields(a: int, b: int, c: int, d: int, word: int)
    requires 0 <= a < 0x10 && 0 <= b < 0x80 && 0 <= c < 0x80 && 0 <= d < 0x10
    requires word == a + b * 0x100 + c * 0x10000 + d * 0x1000000
    ensures word % 0x10 == a && word / 0x100 % 0x80 == b && word / 0x10000 % 0x80 == c && word / 0x1000000 % 0x10 == d
  {
    assert word / 0x100 == b + c * 0x100 + d * 0x10000;
    assert word / 0x10000 == c + d * 0x100;
  }

  /** Every set of taps fits its fields and adds up to one, and the middle phase is symmetric. */
  lemma TapsAddUp(e: int, phase: nat)
    ensures Unity(CoefSet(e, phase))
    ensures phase >= 4 ==> CoefSet(e, phase).t0 == CoefSet(e, phase).t3 && CoefSet(e, phase).t1 == CoefSet(e, phase).t2
  {
    hide Phase0, Phase1, Phase2, Phase3, Phase4, Unity;
  }

  /** A set of taps samples its weighted centre, here in 32nds of a pixel from the second tap:
      phase `p` lies `p` eighths of a pixel on, within one eighth, and the middle phase exactly
      half-way.  From phase to phase neither the place nor the weight of the next pixel goes back. */
  lemma TapsCentred(e: int, phase: nat)
    requires phase <= 4
    ensures var t := CoefSet(e, phase); 4 * phase - 4 <= -t.t0 + t.t2 + 2 * t.t3 <= 4 * phase + 4
    ensures var t := CoefSet(e, 4); -t.t0 + t.t2 + 2 * t.t3 == 16
    ensures phase < 4 ==>
              var t, u := CoefSet(e, phase), CoefSet(e, phase + 1);
              -t.t0 + t.t2 + 2 * t.t3 <= -u.t0 + u.t2 + 2 * u.t3 && t.t2 <= u.t2
  {
    hide Phase0, Phase1, Phase2, Phase3, Phase4, Unity;
    OnFrom0(e);
    OnFrom1(e);
    OnFrom2(e);
    OnFrom3(e);
  }

  lemma OnFrom0(e: int)
    ensures var t, u := Phase0(e), Phase1(e);
            -4 <= -t.t0 + t.t2 + 2 * t.t3 <= -u.t0 + u.t2 + 2 * u.t3 <= 8 && t.t2 <= u.t2
    ensures var t := Phase0(e); -t.t0 + t.t2 + 2 * t.t3 <= 4
    ensures var u := Phase1(e); -u.t0 + u.t2 + 2 * u.t3 >= 0
  {
    hide Unity;
  }

  lemma OnFrom1(e: int)
    ensures var t, u := Phase1(e), Phase2(e);
            -t.t0 + t.t2 + 2 * t.t3 <= -u.t0 + u.t2 + 2 * u.t3 <= 12 && t.t2 <= u.t2
  {
    hide Unity;
  }

  lemma OnFrom2(e: int)
    ensures var t, u := Phase2(e), Phase3(e);
            4 <= -t.t0 + t.t2 + 2 * t.t3 <= -u.t0 + u.t2 + 2 * u.t3 <= 16 && t.t2 <= u.t2
  {
    hide Unity;
  }

  lemma OnFrom3(e: int)
    ensures var t, u := Phase3(e), Phase4(e);
            8 <= -t.t0 + t.t2 + 2 * t.t3 <= -u.t0 + u.t2 + 2 * u.t3 == 16 && t.t2 <= u.t2
  {
    hide Unity;
  }

  /** The larger the ratio the sharper the filter: the weight of the pixel sampled grows, but for
      one 32nd, and so for the last three phases without exception. */
  lemma TapsSharpen(e: int, f: int, phase: nat)
    requires e <= f && phase <= 4
    ensures CoefSet(e, phase).t1 - 1 <= CoefSet(f, phase).t1
    ensures phase >= 2 ==> CoefSet(e, phase).t1 <= CoefSet(f, phase).t1
  {
    if {
      case phase == 0 =>
      case phase == 1 =>
      case phase == 2 =>
      case phase == 3 =>
      case phase == 4 =>
    }
  }

  // ----- Choosing the row

  /** The down-scale ratio an increment stands for, between a quarter and one.  A quotient
      of doubles by zero is infinite. */
  function Dsr(p1Inc: nat): real {
    if p1Inc == 0 then 1.0 else CutToTable(4096.0 / p1Inc as real)
  }

  function CutToTable(q: real): real {
    if q < 0.25 then 0.25 else if q > 1.0 then 1.0 else q
  }

  /** The row for a ratio. */
  function Row(q: real): int {
    ((CutToTable(q) - 0.25) * 100.0).Floor
  }

  function ArrayElement(p1Inc: nat): int {
    ((Dsr(p1Inc) - 0.25) * 100.0).Floor
  }

  /** The row exists and its range is the last one not above the ratio. */
  lemma RowOfIncrement(p1Inc: nat)
    ensures 0 <= ArrayElement(p1Inc) < ROWS
    ensures Range(ArrayElement(p1Inc)) <= Dsr(p1Inc) < Range(ArrayElement(p1Inc) + 1)
    ensures var e := ArrayElement(p1Inc) as real; 25.0 + e <= 100.0 * Dsr(p1Inc) < 26.0 + e
    ensures p1Inc >= 0x4000 ==> Dsr(p1Inc) == 0.25
    ensures p1Inc <= 0x1000 ==> Dsr(p1Inc) == 1.0
    ensures 0x1000 <= p1Inc <= 0x4000 ==> Dsr(p1Inc) * p1Inc as real == 4096.0
  {
    DsrRange(p1Inc);
    assert 0.25 <= Dsr(p1Inc) <= 1.0;
    hide Dsr;
  }

  lemma DsrRange(n: nat)
    ensures n >= 0x4000 ==> Dsr(n) == 0.25
    ensures n <= 0x1000 ==> Dsr(n) == 1.0
    ensures 0x1000 <= n <= 0x4000 ==> Dsr(n) * n as real == 4096.0
  {
    if n > 0 {
      var q := 4096.0 / n as real;
      assert q * n as real == 4096.0;
      if n >= 0x4000 {
        Times(n as real, 16384.0, q);
      } else if n <= 0x1000 {
        Times(4096.0, n as real, q);
      } else {
        Times(16384.0, n as real, q);
        Times(n as real, 4096.0, q);
      }
    }
  }

  class Besr {
    const fourTapCoeff: array<int>

    constructor ()
      ensures fresh(fourTapCoeff) && fourTapCoeff.Length == 5
    {
      fourTapCoeff := new int[5];
    }

    /** Each of the five registers reads back the taps of the increment's row. */
    method FilterSetup(p1Inc: nat)
      requires fourTapCoeff.Length == 5
      modifies fourTapCoeff
      ensures forall phase :: 0 <= phase < 5 ==>
                Unpack(fourTapCoeff[phase]) == CoefSet(ArrayElement(p1Inc), phase) && Unity(Unpack(fourTapCoeff[phase]))
      // four, seven, seven and four bits, each in a byte of its own
      ensures forall phase :: 0 <= phase < 5 ==>
                var t := CoefSet(ArrayElement(p1Inc), phase);
                fourTapCoeff[phase] == t.t0 % 16 + t.t1 % 128 * 256 + t.t2 % 128 * 65536 + t.t3 % 16 * 16777216
    {
      hide CoefSet, Pack, Unpack, Unity;
      var e := ArrayElement(p1Inc);
      fourTapCoeff[0] := Pack(CoefSet(e, 0));
      fourTapCoeff[1] := Pack(CoefSet(e, 1));
      fourTapCoeff[2] := Pack(CoefSet(e, 2));
      fourTapCoeff[3] := Pack(CoefSet(e, 3));
      fourTapCoeff[4] := Pack(CoefSet(e, 4));
      RowReadsBack(e, 0);
      RowReadsBack(e, 1);
      RowReadsBack(e, 2);
      RowReadsBack(e, 3);
      RowReadsBack(e, 4);
    }
  }

  lemma RowReadsBack(e: int, phase: nat)
    ensures Unpack(Pack(CoefSet(e, phase))) == CoefSet(e, phase) && Unity(CoefSet(e, phase))
    ensures var t := CoefSet(e, phase);
            Pack(t) == t.t0 % 16 + t.t1 % 128 * 256 + t.t2 % 128 * 65536 + t.t3 % 16 * 16777216
  {
    hide CoefSet, Unpack;
    TapsAddUp(e, phase);
    UnpackPack(CoefSet(e, phase));
  }

  // ----- From the cascade to the filter

  /** The ratio at which the sampled luma pixels are scaled. */
  function Sampled(format: int, ratio: real, s: Scaler.Setup): real {
    Scaler.Clamped(format, ratio) * s.p1StepSize as real
  }

  /** Up to three quarters the cascade leaves an increment the filter can divide by, which
      times the sampled ratio is one in 12 fractional bits, up to rounding. */
  lemma IncrementNotZero(format: int, ratio: real, s: Scaler.Setup)
    requires 0.0 < ratio <= 0.75 && Scaler.Supported(format) && Scaler.Consistent(format, ratio, s)
    ensures 340 < s.p1Inc <= 0x3000
    ensures var x := Sampled(format, ratio, s);
            4096.0 - x / 2.0 <= s.p1Inc as real * x <= 4096.0 + x / 2.0
  {
    hide Scaler.SubSample, Scaler.Rounded;
    var x := Sampled(format, ratio, s);
    assert 1 <= s.p1StepSize <= 16;
    assert 0.0 < x <= 12.0;
    RoundedTimes(x, s.p1Inc);
  }

  lemma RoundedTimes(x: real, n: nat)
    requires 0.0 < x <= 12.0 && n == Scaler.Rounded(x)
    ensures n > 340 && 4096.0 - x / 2.0 <= n as real * x <= 4096.0 + x / 2.0
  {
    Scaler.RoundNear(x, n);
    Scaler.RoundBound(x, 340, 340.5, 340.5 * x);
  }

  lemma AtLeastAThird(p1Inc: nat)
    requires 0 < p1Inc <= 0x3000
    ensures 4096.0 / p1Inc as real >= 1.0 / 3.0
  {}

  /** The row in use is that of the ratio the rounded increment stands for, at most one away
      from that of the ratio the pixels are really scaled by; the lower end of the table is never
      reached and needs no clamp. */
  lemma FilterOfRatio(format: int, ratio: real, s: Scaler.Setup)
    requires 0.0 < ratio <= 0.75 && Scaler.Supported(format) && Scaler.Consistent(format, ratio, s)
    ensures s.p1Inc > 0 && 8 <= ArrayElement(s.p1Inc) < ROWS
    ensures var q := 4096.0 / s.p1Inc as real; Dsr(s.p1Inc) == if q > 1.0 then 1.0 else q
    ensures Range(ArrayElement(s.p1Inc)) <= Dsr(s.p1Inc) < Range(ArrayElement(s.p1Inc) + 1)
    ensures Row(Sampled(format, ratio, s)) - 1 <= ArrayElement(s.p1Inc) <= Row(Sampled(format, ratio, s)) + 1
  {
    hide Scaler.Consistent;
    IncrementNotZero(format, ratio, s);
    AtLeastAThird(s.p1Inc);
    RowOfIncrement(s.p1Inc);
    hide Sampled;
    SampledBound(format, ratio, s);
    NearRatio(Sampled(format, ratio, s), s.p1Inc);
  }

  lemma SampledBound(format: int, ratio: real, s: Scaler.Setup)
    requires 0.0 < ratio <= 0.75 && Scaler.Supported(format) && Scaler.Consistent(format, ratio, s)
    ensures 0.0 < Sampled(format, ratio, s) <= 12.0
  {
    hide Scaler.SubSample, Scaler.Rounded;
    assert 1 <= s.p1StepSize <= 16;
  }

  /** Rounding the increment moves the ratio by less than a hundredth. */
  lemma NearRatio(x: real, n: nat)
    requires 0.0 < x && n > 340 && 4096.0 - x / 2.0 <= n as real * x <= 4096.0 + x / 2.0
    ensures -0.01 < CutToTable(4096.0 / n as real) - CutToTable(x) < 0.01
  {
    var a, q := n as real, 4096.0 / n as real;
    assert a * q == 4096.0;
    if x > 1.1 {
      AboveOne(x, n, a * x);
      QuotientAboveOne(a, q);
    } else {
      CloseQuotient(x, a, q, a * x, 4096.0);
    }
  }

  lemma QuotientAboveOne(a: real, q: real)
    requires 0.0 < a < 4096.0 && a * q == 4096.0
    ensures q > 1.0
  {
    assert a * (q - 1.0) == 4096.0 - a;
  }

  lemma AboveOne(x: real, n: nat, p: real)
    requires x > 1.1 && p == n as real * x && p <= 4096.0 + x / 2.0
    ensures n < 4096
  {
    if n >= 4096 {
      Times(n as real, 4096.0, x);
    }
  }

  lemma CloseQuotient(x: real, a: real, q: real, p: real, o: real)
    requires a > 340.0 && p == a * x && o == a * q && -0.55 <= p - o <= 0.55
    ensures -0.01 < q - x < 0.01
  {
    assert a * (x - q) == p - o && a * (q - x) == o - p;
    Times(a, 340.0, x - q);
    Times(a, 340.0, q - x);
  }

  lemma Times(a: real, b: real, d: real)
    requires a >= b > 0.0
    ensures d > 0.0 ==> a * d >= b * d
  {
    assert a * d - b * d == (a - b) * d;
  }

  /** The path of the set-up for ratios up to three quarters, the only ones that reach the
      programmable filter. */
  method SetUpShrinking(scaler: Scaler.Besr, filter: Besr, m: Scaler.Mode, hScaleRatio: real)
    returns (s: Scaler.Setup, ghost rung: nat)
    requires 0.0 < hScaleRatio <= 0.75 && filter.fourTapCoeff.Length == 5
    modifies scaler, filter.fourTapCoeff
    ensures scaler.hInc == s.p1Inc + s.p23Inc * 0x10000 && scaler.stepBy == s.p1Code + s.p23Code * 0x100
    ensures Scaler.Supported(m.format) ==>
              && Scaler.Consistent(m.format, hScaleRatio, s) && s.p1Inc > 340
              && Scaler.FirstChoice(m, hScaleRatio, rung) && (s.p1Code, s.p23Code) == Scaler.Rung(rung)
              && Row(Sampled(m.format, hScaleRatio, s)) - 1 <= ArrayElement(s.p1Inc)
                 <= Row(Sampled(m.format, hScaleRatio, s)) + 1
    ensures !Scaler.Supported(m.format) ==> s == Scaler.UNSET
    ensures s.p1Inc >= 0
    ensures forall phase :: 0 <= phase < 5 ==>
              Unpack(filter.fourTapCoeff[phase]) == CoefSet(ArrayElement(s.p1Inc), phase)
  {
    hide Scaler.Consistent, Scaler.FirstChoice, Scaler.Rung, Sampled, Row, CoefSet, Unpack, ArrayElement;
    s, rung := scaler.CalcHIncStepBy(m, hScaleRatio);
    if Scaler.Supported(m.format) {
      IncrementNotZero(m.format, hScaleRatio, s);
      FilterOfRatio(m.format, hScaleRatio, s);
    }
    filter.FilterSetup(s.p1Inc);
  }
}
