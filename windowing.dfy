/** The intensity window applied to every extracted plane before display
    (the per-pixel loop of `MainFrame::UpdateOneView`): width clamped to at
    least 1, lower = level - width/2, samples at or below `lower` black, at
    or above `lower + width` white, and the linear ramp in between truncated
    to a byte. This is the viewer's own simplification, not the linear VOI
    function of DICOM PS3.3 section C.11.2.1.2 (which offsets by 0.5 and
    divides by width - 1). */
module Windowing {
  import opened Basics

  /** The width actually used: `if (ww < 1) ww = 1;`. */
  function ClampWidth(ww: int): (w: int)
    ensures w >= 1
    ensures ww >= 1 ==> w == ww
  {
    if ww < 1 then 1 else ww
  }

  /** `lower = wl - ww / 2.0` in exact arithmetic. */
  function Lower(wl: int, ww: int): real
  {
    wl as real - ww as real / 2.0
  }

  /** The linear ramp `((val - lower) / range) * 255.0` of the source. */
  function Ramp(v: int, wl: int, ww: int): real
    requires ww >= 1
  {
    ((v as real - Lower(wl, ww)) / ww as real) * 255.0
  }

  /** The display byte for sample `v`, as the source computes it with
      `double` evaluated exactly and the `(unsigned char)` cast truncating. */
  function WindowSample(v: int, wl: int, ww: int): (p: Byte)
    requires ww >= 1
  {
    var lower := Lower(wl, ww);
    if v as real <= lower then 0
    else if v as real >= lower + ww as real then 255
    else
      RampInside(v, wl, ww);
      Ramp(v, wl, ww).Floor
  }

  /** Inside the window the ramp lies strictly between 0 and 255. */
  lemma RampInside(v: int, wl: int, ww: int)
    requires ww >= 1
    requires Lower(wl, ww) < v as real < Lower(wl, ww) + ww as real
    ensures 0.0 < Ramp(v, wl, ww) < 255.0
  {
    var t := (v as real - Lower(wl, ww)) / ww as real;
    assert t * ww as real == v as real - Lower(wl, ww);
    assert 0.0 < t < 1.0;
  }

  /** The integer closed form of the window: `lower` is a half-integer, so
      with everything doubled the map is exact in integers. */
  function IntegerWindow(v: int, wl: int, ww: int): int
    requires ww >= 1
  {
    if 2 * v <= 2 * wl - ww then 0
    else if 2 * v >= 2 * wl + ww then 255
    else (255 * (2 * v - 2 * wl + ww)) / (2 * ww)
  }

  /** The source's floating-point formula agrees with the integer closed
      form everywhere. */
  lemma {:induction false} WindowClosedForm(v: int, wl: int, ww: int)
    requires ww >= 1
    ensures WindowSample(v, wl, ww) == IntegerWindow(v, wl, ww)
  {
    var lower := Lower(wl, ww);
    assert (v as real <= lower) == (2 * v <= 2 * wl - ww);
    assert (v as real >= lower + ww as real) == (2 * v >= 2 * wl + ww);
    if lower < v as real < lower + ww as real {
      var n := 255 * (2 * v - 2 * wl + ww);
      var d := 2 * ww;
      var q, r := n / d, n % d;
      assert n == q * d + r && 0 <= r < d;
      assert Ramp(v, wl, ww) == n as real / d as real;
      assert n as real / d as real == q as real + r as real / d as real;
      FractionBounds(r, d);
    }
  }

  lemma FractionBounds(r: int, d: int)
    requires 0 <= r < d
    ensures 0.0 <= r as real / d as real < 1.0
  {
    var f := r as real / d as real;
    assert f * d as real == r as real;
  }

  /** Below or at `lower` the output is black, at or above `lower + width`
      it is white, and in between it is the truncated ramp: the largest
      byte `p` with `p * 2ww <= 255 * (2v - 2wl + ww)`. */
  lemma WindowShape(v: int, wl: int, ww: int)
    requires ww >= 1
    ensures 2 * v <= 2 * wl - ww ==> WindowSample(v, wl, ww) == 0
    ensures 2 * v >= 2 * wl + ww ==> WindowSample(v, wl, ww) == 255
    ensures 2 * wl - ww < 2 * v < 2 * wl + ww ==>
      var p := WindowSample(v, wl, ww);
      p * (2 * ww) <= 255 * (2 * v - 2 * wl + ww) < (p + 1) * (2 * ww)
  {
    WindowClosedForm(v, wl, ww);
  }

  /** A brighter sample never displays darker. */
  lemma {:induction false} WindowMonotonic(v1: int, v2: int, wl: int, ww: int)
    requires ww >= 1
    requires v1 <= v2
    ensures WindowSample(v1, wl, ww) <= WindowSample(v2, wl, ww)
  {
    WindowClosedForm(v1, wl, ww);
    WindowClosedForm(v2, wl, ww);
    var d := 2 * ww;
    var n1 := 255 * (2 * v1 - 2 * wl + ww);
    var n2 := 255 * (2 * v2 - 2 * wl + ww);
    if 2 * wl - ww < 2 * v1 && 2 * v2 < 2 * wl + ww {
      DivMonotonic(n1, n2, d);
    }
  }

  lemma DivMonotonic(a: int, b: int, d: int)
    requires 0 < d && a <= b
    ensures a / d <= b / d
  {
    var k := a / d - b / d;
    assert a - b == k * d + a % d - b % d;
    assert k * d < d;
    FactorBelowOne(k, d);
  }

  lemma FactorBelowOne(k: int, d: int)
    requires 0 < d && k * d < d
    ensures k < 1
  {
    assert (k - 1) * d == k * d - d < 0;
  }

  /** With level 40 and width 400 (the viewer's defaults) the window is
      [-160, 240]; sample 40 sits at the exact middle, 127.5, and is
      truncated to 127. */
  lemma DefaultWindowExamples()
    ensures WindowSample(-160, 40, 400) == 0
    ensures WindowSample(240, 40, 400) == 255
    ensures WindowSample(40, 40, 400) == 127
  {
    WindowClosedForm(40, 40, 400);
  }

  /** Three equal channels for one display pixel. */
  function Grey(p: Byte): (rgb: seq<Byte>)
  {
    [p, p, p]
  }

  /** The RGB buffer the source writes into the `wxImage`: for pixel `i`,
      bytes `3i`, `3i+1`, `3i+2` all carry the windowed sample. */
  function Windowed(buf: seq<Sample>, wl: int, ww: int): seq<Byte>
  {
    Concat(seq(|buf|, i requires 0 <= i < |buf| => Grey(WindowSample(buf[i], wl, ClampWidth(ww)))))
  }

  /** Every pixel's three channels are equal and carry the windowed sample. */
  lemma WindowedAt(buf: seq<Sample>, wl: int, ww: int, i: nat, c: nat)
    requires i < |buf| && c < 3
    ensures |Windowed(buf, wl, ww)| == 3 * |buf|
    ensures Windowed(buf, wl, ww)[3 * i + c] == WindowSample(buf[i], wl, ClampWidth(ww))
  {
    var rows := seq(|buf|, k requires 0 <= k < |buf| => Grey(WindowSample(buf[k], wl, ClampWidth(ww))));
    ConcatAt(rows, 3, i, c);
  }

  /** The per-pixel loop of the source: clamp the width, then write three
      equal bytes per sample. */
  method ApplyWindow(buf: seq<Sample>, wl: int, ww: int) returns (rgb: seq<Byte>)
    ensures rgb == Windowed(buf, wl, ww)
  {
    var width := ClampWidth(ww);
    ghost var rows := seq(|buf|, k requires 0 <= k < |buf| => Grey(WindowSample(buf[k], wl, width)));
    rgb := [];
    var i := 0;
    while i < |buf|
      invariant 0 <= i <= |buf|
      invariant rgb == Concat(rows[..i])
    {
      var p := WindowSample(buf[i], wl, width);
      rgb := rgb + [p, p, p];
      assert rows[..i + 1][..i] == rows[..i];
      i := i + 1;
    }
    assert rows[..|buf|] == rows;
  }
}
