/** host/src/cvt.cpp: display timings with reduced blanking, over exact reals. */
module Cvt {
  datatype Timing = Timing(
    pixelClockKhz: int,
    hActive: int, hFront: int, hSync: int, hBlank: int,
    vActive: int, vFront: int, vSync: int, vBlank: int,
    hMm: int, vMm: int)

  const CELL: int := 8
  const CLOCK_STEP_KHZ: real := 250.0
  const MIN_VBLANK_US: real := 460.0
  const H_BLANK: int := 160
  const H_FRONT: int := 48
  const H_SYNC: int := 32
  const V_FRONT: int := 3

  function Abs(x: real): real {
    if x < 0.0 then -x else x
  }

  function Ceil(x: real): (n: int)
    ensures x <= n as real < x + 1.0
  {
    -((-x).Floor)
  }

  function Round(x: real): int
    requires x >= 0.0
  {
    (x + 0.5).Floor
  }

  /** The vertical sync width names the aspect ratio. */
  const VSYNC_TABLE: seq<(real, int)> :=
    [(4.0 / 3.0, 4), (16.0 / 9.0, 5), (16.0 / 10.0, 6), (5.0 / 4.0, 7), (15.0 / 9.0, 7)]

  function VSyncIn(table: seq<(real, int)>, ar: real): int {
    if table == [] then 10
    else if Abs(ar - table[0].0) < 0.02 then table[0].1
    else VSyncIn(table[1..], ar)
  }

  function VSyncFor(w: int, h: int): int
    requires h > 0
  {
    VSyncIn(VSYNC_TABLE, w as real / h as real)
  }

  /** The estimated time of one line. */
  function HPeriodUs(height: int, refresh: int): real
    requires height > 0 && refresh > 0
  {
    (1000000.0 / refresh as real - MIN_VBLANK_US) / (height + V_FRONT) as real
  }

  function VBlankLines(height: int, vs: int, hperiod: real): int
    requires hperiod != 0.0
  {
    var lines := Ceil(MIN_VBLANK_US / hperiod);
    if lines < V_FRONT + vs + 1 then V_FRONT + vs + 1 else lines
  }

  /** Pixels a second, blanking included. */
  function PixelRate(hTotal: int, vTotal: int, refresh: int): real {
    hTotal as real * vTotal as real * refresh as real
  }

  /** The pixel clock for so many pixels a second, rounded down to the clock step. */
  function ClockKhz(pixels: real): int {
    ((pixels / 1000.0 / CLOCK_STEP_KHZ).Floor as real * CLOCK_STEP_KHZ).Floor
  }

  function CvtTiming(width: int, height: int, refresh: int): Timing
    requires width > 0 && height > 0 && refresh > 0
  {
    var hActive := width / CELL * CELL;
    var vs := VSyncFor(width, height);
    HPeriodNonZero(height, refresh);
    var vbi := VBlankLines(height, vs, HPeriodUs(height, refresh));
    Timing(
      ClockKhz(PixelRate(hActive + H_BLANK, height + vbi, refresh)),
      hActive, H_FRONT, H_SYNC, H_BLANK,
      height, V_FRONT, vs, vbi,
      Round(width as real * 25.4 / 96.0), Round(height as real * 25.4 / 96.0))
  }

  const TIMING_1080P60: Timing := Timing(148500, 1920, 88, 44, 280, 1080, 4, 5, 45, 480, 270)

  function ModeTiming(width: int, height: int, refresh: int): Timing
    requires width > 0 && height > 0 && refresh > 0
  {
    if width == 1920 && height == 1080 && refresh == 60 then TIMING_1080P60
    else CvtTiming(width, height, refresh)
  }

  /** The frame time in microseconds is never the blanking time exactly. */
  lemma HPeriodNonZero(height: int, refresh: int)
    requires height > 0 && refresh > 0
    ensures HPeriodUs(height, refresh) != 0.0
    ensures refresh <= 2173 ==> HPeriodUs(height, refresh) > 0.0
  {
    var r := refresh as real;
    var t := 1000000.0 / r;
    assert t * r == 1000000.0;
    var lines := (height + V_FRONT) as real;
    if refresh <= 2173 {
      assert t > 460.0 by {
        TimesGrows(460.0, t, r);
      }
      Quotient(t - 460.0, lines);
    } else {
      assert t < 460.0 by {
        TimesGrows(t, 460.0, r);
      }
      Quotient(460.0 - t, lines);
      assert HPeriodUs(height, refresh) == -((460.0 - t) / lines);
    }
  }

  lemma TimesGrows(a: real, b: real, c: real)
    requires c > 0.0
    ensures a < b <==> a * c < b * c
    ensures a <= b <==> a * c <= b * c
  {
  }

  lemma Quotient(a: real, b: real)
    requires a > 0.0 && b > 0.0
    ensures a / b > 0.0 && a / b * b == a
  {
  }

  // ---- What the display does with a timing

  function HTotal(t: Timing): int { t.hActive + t.hBlank }
  function VTotal(t: Timing): int { t.vActive + t.vBlank }

  function RefreshHz(t: Timing): real
    requires HTotal(t) > 0 && VTotal(t) > 0
  {
    t.pixelClockKhz as real * 1000.0 / (HTotal(t) as real * VTotal(t) as real)
  }

  /** How long the beam spends outside the picture, in microseconds. */
  function VBlankUs(t: Timing): real
    requires t.pixelClockKhz > 0
  {
    t.vBlank as real * HTotal(t) as real * 1000.0 / t.pixelClockKhz as real
  }

  lemma WholeFloor(n: int, step: int)
    ensures (n as real * step as real).Floor == n * step
  {
    assert n as real * step as real == (n * step) as real;
  }

  lemma ClockBounds(p: real)
    requires p >= 0.0
    ensures var clk := ClockKhz(p);
            && clk >= 0 && clk % 250 == 0
            && clk as real * 1000.0 <= p < clk as real * 1000.0 + 250000.0
            && (clk > 0 <==> p >= 250000.0)
  {
    var n := (p / 1000.0 / CLOCK_STEP_KHZ).Floor;
    WholeFloor(n, 250);
    assert ClockKhz(p) == 250 * n;
    assert 250000.0 * n as real <= p < 250000.0 * (n + 1) as real;
  }

  /** So many blanking lines outlast the minimum even at the full line rate. */
  predicate LongEnough(vBlank: int, vTotal: int, refresh: int) {
    vBlank as real * 1000000.0 >= vTotal as real * (460.0 * refresh as real)
  }

  lemma EnoughLines(height: int, vs: int, refresh: int)
    requires height > 0 && 0 < refresh <= 2173
    requires HPeriodUs(height, refresh) != 0.0
    ensures var vbi := VBlankLines(height, vs, HPeriodUs(height, refresh));
            LongEnough(vbi, height + vbi, refresh) && vbi >= V_FRONT + vs + 1
  {
    hide VBlankLines, HPeriodUs, LongEnough;
    HPeriodNonZero(height, refresh);
    PeriodTimes(height, refresh);
    FewestLines(height, vs, HPeriodUs(height, refresh));
    Lasting(VBlankLines(height, vs, HPeriodUs(height, refresh)), height, refresh, HPeriodUs(height, refresh));
  }

  lemma PeriodTimes(height: int, refresh: int)
    requires height > 0 && refresh > 0
    ensures (HPeriodUs(height, refresh) * (height + V_FRONT) as real + 460.0) * refresh as real == 1000000.0
  {
  }

  /** The fewest lines that, at the estimated line time, fill the minimum and hold the porches. */
  lemma FewestLines(height: int, vs: int, hp: real)
    requires hp > 0.0
    ensures var vbi := VBlankLines(height, vs, hp);
            && Fills(vbi, hp) && vbi >= vs + 4
            && forall n | n < vbi :: !(Fills(n, hp) && n >= vs + 4)
  {
    hide Fills;
    var q := MIN_VBLANK_US / hp;
    forall n: int ensures Fills(n, hp) <==> n as real >= q { FillsFrom(n, hp); }
  }

  predicate Fills(lines: int, hp: real) {
    lines as real * hp >= 460.0
  }

  lemma FillsFrom(n: int, hp: real)
    requires hp > 0.0
    ensures Fills(n, hp) <==> n as real >= MIN_VBLANK_US / hp
  {
    var q := MIN_VBLANK_US / hp;
    assert q * hp == MIN_VBLANK_US;
    TimesGrows(q, n as real, hp);
  }

  lemma Lasting(vbi: int, height: int, refresh: int, hp: real)
    requires height > 0 && refresh > 0 && Fills(vbi, hp)
    requires (hp * (height + V_FRONT) as real + 460.0) * refresh as real == 1000000.0
    ensures LongEnough(vbi, height + vbi, refresh)
  {
    var r := refresh as real;
    Outlasting(vbi as real, hp, (height + V_FRONT) as real, r);
    TimesGrows((height + vbi) as real, (height + V_FRONT) as real + vbi as real, 460.0 * r);
  }

  lemma Outlasting(v: real, hp: real, lines: real, r: real)
    requires v * hp >= 460.0 && (hp * lines + 460.0) * r == 1000000.0 && lines > 0.0 && r > 0.0
    ensures v * 1000000.0 >= (lines + v) * (460.0 * r)
  {
    TimesGrows(460.0, v * hp, lines);
    Group(v, hp, lines);
    var t := hp * lines;
    TimesGrows(460.0 * lines + 460.0 * v, v * t + 460.0 * v, r);
    Group(v, t + 460.0, r);
    Group(460.0, lines + v, r);
  }

  lemma Group(a: real, b: real, c: real)
    ensures a * b * c == a * (b * c) == b * (a * c)
  {
  }

  /** The timing keeps every promise of reduced blanking: whole cells, positive back porches, at
      least 460 us outside the picture, and a refresh rate below the requested one by less than
      one clock step. The clock is positive for all but modes of less than one clock step. */
  predicate Sound(t: Timing, refresh: int) {
    && HTotal(t) > 0 && VTotal(t) > 0 && t.hActive % 8 == 0
    && t.hBlank - t.hFront - t.hSync > 0 && t.vBlank - t.vFront - t.vSync > 0
    && refresh as real - 250000.0 / (HTotal(t) as real * VTotal(t) as real) < RefreshHz(t) <= refresh as real
    && (t.pixelClockKhz > 0 <==> PixelRate(HTotal(t), VTotal(t), refresh) >= 250000.0)
    && (t.pixelClockKhz > 0 ==> VBlankUs(t) >= 460.0)
  }

  lemma {:induction false} VSyncRange(table: seq<(real, int)>, ar: real)
    requires forall e <- table :: 4 <= e.1 <= 7
    ensures 4 <= VSyncIn(table, ar) <= 10
  {
    if table != [] { VSyncRange(table[1..], ar); }
  }

  lemma CvtShape(width: int, height: int, refresh: int)
    requires width > 0 && height > 0 && refresh > 0
    ensures var t := CvtTiming(width, height, refresh);
            && t.hActive >= 0 && t.hActive % CELL == 0 && t.hBlank == 160 && t.hFront == 48 && t.hSync == 32
            && t.vActive == height && t.vFront == 3 && 4 <= t.vSync <= 10
            && HPeriodUs(height, refresh) != 0.0
            && t.vBlank == VBlankLines(height, t.vSync, HPeriodUs(height, refresh))
            && t.pixelClockKhz == ClockKhz(PixelRate(HTotal(t), VTotal(t), refresh))
  {
    hide ClockKhz, PixelRate, VSyncIn, HPeriodUs, VBlankLines, Round;
    VSyncRange(VSYNC_TABLE, width as real / height as real);
    HPeriodNonZero(height, refresh);
  }

  lemma CvtSound(width: int, height: int, refresh: int)
    requires width > 0 && height > 0 && 0 < refresh <= 2173
    ensures Sound(CvtTiming(width, height, refresh), refresh)
  {
    hide CvtTiming, ClockKhz, PixelRate, HPeriodUs, VBlankLines, LongEnough, Sound;
    var t := CvtTiming(width, height, refresh);
    CvtShape(width, height, refresh);
    EnoughLines(height, t.vSync, refresh);
    RateAboveZero(HTotal(t), VTotal(t), refresh);
    ClockBounds(PixelRate(HTotal(t), VTotal(t), refresh));
    TimingSound(t, refresh);
  }

  lemma RateAboveZero(hTotal: int, vTotal: int, refresh: int)
    requires hTotal > 0 && vTotal > 0 && refresh > 0
    ensures PixelRate(hTotal, vTotal, refresh) > 0.0
  {
    TimesGrows(0.0, hTotal as real, vTotal as real);
    TimesGrows(0.0, hTotal as real * vTotal as real, refresh as real);
  }

  lemma TimingSound(t: Timing, refresh: int)
    requires refresh > 0 && HTotal(t) > 0 && VTotal(t) > 0 && t.hActive % CELL == 0
    requires t.hBlank - t.hFront - t.hSync > 0 && t.vBlank - t.vFront - t.vSync > 0
    requires LongEnough(t.vBlank, VTotal(t), refresh)
    requires var p := PixelRate(HTotal(t), VTotal(t), refresh);
             && t.pixelClockKhz >= 0
             && t.pixelClockKhz as real * 1000.0 <= p < t.pixelClockKhz as real * 1000.0 + 250000.0
             && (t.pixelClockKhz > 0 <==> p >= 250000.0)
    ensures Sound(t, refresh)
  {
    var ht, vt := HTotal(t) as real, VTotal(t) as real;
    TimesGrows(0.0, ht, vt);
    RefreshBounds(t.pixelClockKhz as real * 1000.0, ht * vt, refresh as real);
    if t.pixelClockKhz > 0 {
      Outlast(t.vBlank as real, vt, ht, refresh as real, t.pixelClockKhz as real);
    }
  }

  lemma RefreshBounds(clock: real, area: real, r: real)
    requires area > 0.0 && clock <= area * r < clock + 250000.0
    ensures r - 250000.0 / area < clock / area <= r
  {
    var actual, step := clock / area, 250000.0 / area;
    assert actual * area == clock && step * area == 250000.0;
    TimesGrows(actual, r, area);
    TimesGrows(r, actual + step, area);
  }

  lemma Outlast(vbi: real, vt: real, ht: real, r: real, clk: real)
    requires vbi * 1000000.0 >= vt * (460.0 * r) && ht > 0.0 && clk > 0.0
    requires clk * 1000.0 <= ht * vt * r
    ensures vbi * ht * 1000.0 / clk >= 460.0
  {
    var us := vbi * ht * 1000.0 / clk;
    assert us * clk == vbi * ht * 1000.0;
    TimesGrows(vt * (460.0 * r), vbi * 1000000.0, ht);
    assert vt * (460.0 * r) * ht == 460.0 * (ht * vt * r);
    TimesGrows(460.0, us, clk);
  }

  lemma ModeSound(width: int, height: int, refresh: int)
    requires width > 0 && height > 0 && 0 < refresh <= 2173
    ensures Sound(ModeTiming(width, height, refresh), refresh)
  {
    hide CvtTiming;
    CvtSound(width, height, refresh);
  }

  // ----- In figures --------------------------------------------------------

  predicate Off(ar: real, w: real, h: real)
    requires h > 0.0
  {
    ar <= w / h - 0.02 || ar >= w / h + 0.02
  }

  /** The vertical sync width by aspect ratio, to within 0.02: 4 lines for 4:3, 5 for 16:9, 6 for
      16:10, 7 for 5:4 and 15:9, 10 for all others. */
  lemma VSyncByAspect(w: int, h: int)
    requires h > 0
    ensures var ar := w as real / h as real;
            VSyncFor(w, h) == if !Off(ar, 4.0, 3.0) then 4 else if !Off(ar, 16.0, 9.0) then 5
                              else if !Off(ar, 16.0, 10.0) then 6 else if !Off(ar, 5.0, 4.0) || !Off(ar, 15.0, 9.0) then 7
                              else 10
  {
    var ar := w as real / h as real;
    var t := VSYNC_TABLE;
    assert t[1..][1..] == t[2..] && t[2..][1..] == t[3..] && t[3..][1..] == t[4..] && t[4..][1..] == [];
    assert VSyncIn(t[4..], ar) == if !Off(ar, 15.0, 9.0) then 7 else 10;
    assert VSyncIn(t[3..], ar) == if !Off(ar, 5.0, 4.0) then 7 else VSyncIn(t[4..], ar);
    assert VSyncIn(t[2..], ar) == if !Off(ar, 16.0, 10.0) then 6 else VSyncIn(t[3..], ar);
    assert VSyncIn(t[1..], ar) == if !Off(ar, 16.0, 9.0) then 5 else VSyncIn(t[2..], ar);
  }

  /** Whole cells of 8 pixels, none missing; the size in millimetres at 96 dots an inch, to the
      nearest; the preset for the default mode, at exactly 60 Hz. */
  lemma SizesInFigures(width: int, height: int, refresh: int)
    requires width > 0 && height > 0 && refresh > 0
    ensures var t := CvtTiming(width, height, refresh);
            && width - 8 < t.hActive <= width && t.hActive % 8 == 0 && t.vActive == height
            && -48.0 < t.hMm as real * 96.0 - width as real * 25.4 <= 48.0
            && -48.0 < t.vMm as real * 96.0 - height as real * 25.4 <= 48.0
    ensures var t := ModeTiming(1920, 1080, 60);
            && RefreshHz(t) == 60.0 && t.pixelClockKhz == 148500 && (t.hMm, t.vMm) == (480, 270)
            && (t.hActive, t.hFront, t.hSync, t.hBlank) == (1920, 88, 44, 280)
            && (t.vActive, t.vFront, t.vSync, t.vBlank) == (1080, 4, 5, 45)
  {
    hide VSyncIn, HPeriodUs, VBlankLines, ClockKhz, PixelRate;
  }
}
