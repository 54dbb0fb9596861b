/** The automap's Bresenham rasteriser (roth_c/src/engine/automap.c). */
module AutomapDraw {
  import opened MachineInt
  import opened AutomapClip

  // ------------------------------------------------------------- the decision variable

  /** How many minor steps an ideal line has taken after `k` major steps, rounded to the nearest
      integer with halves rounded up. */
  function MinorAt(M: nat, m: nat, k: nat): nat {
    if M == 0 then 0 else (2 * k * m + M) / (2 * M)
  }

  /** The decision variable after `k` major and `s` minor steps. */
  function Err(M: nat, m: nat, k: nat, s: nat): int { 2 * m * (k + 1) - M - 2 * M * s }

  lemma QuotientUnique(a: int, b: int, q: int)
    requires 0 < b && q * b <= a < (q + 1) * b
    ensures a / b == q
  {
    assert a == (a / b) * b + a % b;
    Cancel(a / b, q + 1, b);
    Cancel(q, a / b + 1, b);
  }

  /** MinorAt is the only rounding of the ideal line: it misses the exact height k*m/M by at most
      one half. */
  lemma MinorNearest(M: nat, m: nat, k: nat, s: int)
    requires 0 < M
    ensures s == MinorAt(M, m, k) <==> Neg(M) <= 2 * k * m - s * (2 * M) < M
  {
    var a, b := 2 * k * m + M, 2 * M;
    assert a == (a / b) * b + a % b;
    if Neg(M) <= 2 * k * m - s * b < M {
      assert (s + 1) * b == s * b + b;
      QuotientUnique(a, b, s);
    }
  }

  /** The sign of the decision variable decides the next step exactly, and the variable never leaves
      [2*m - 2*M, 2*m). */
  lemma MinorStep(M: nat, m: nat, k: nat)
    requires 0 < M && m <= M
    ensures var s := MinorAt(M, m, k);
      && 2 * m - 2 * M <= Err(M, m, k, s) < 2 * m
      && MinorAt(M, m, k + 1) == (if Err(M, m, k, s) >= 0 then s + 1 else s)
  {
    var s := MinorAt(M, m, k);
    MinorNearest(M, m, k, s);
    var e := Err(M, m, k, s);
    ErrForms(M, m, k, s);
    var s' := if e >= 0 then s + 1 else s;
    MinorNearest(M, m, k + 1, s');
  }

  lemma ErrForms(M: nat, m: nat, k: nat, s: nat)
    ensures Err(M, m, k, s) == (2 * k * m - s * (2 * M)) + 2 * m - M
    ensures 2 * (k + 1) * m - s * (2 * M) == Err(M, m, k, s) + M
    ensures 2 * (k + 1) * m - (s + 1) * (2 * M) == Err(M, m, k, s) - M
  {
    assert 2 * m * (k + 1) == 2 * k * m + 2 * m;
    assert 2 * (k + 1) * m == 2 * k * m + 2 * m;
    assert (s + 1) * (2 * M) == s * (2 * M) + 2 * M;
    assert 2 * M * s == s * (2 * M);
  }

  lemma MinorEnds(M: nat, m: nat)
    requires m <= M
    ensures MinorAt(M, m, 0) == 0 && MinorAt(M, m, M) == m
  {
    if 0 < M {
      MinorNearest(M, m, 0, 0);
      assert 2 * M * m == m * (2 * M);
      MinorNearest(M, m, M, m);
    }
  }

  lemma MinorRange(M: nat, m: nat, k: nat)
    requires m <= M && k <= M
    ensures MinorAt(M, m, k) <= m
  {
    if 0 < M {
      var s := MinorAt(M, m, k);
      MinorNearest(M, m, k, s);
      MinorProducts(M, m, k);
      Cancel(s, m + 1, 2 * M);
    }
  }

  lemma MinorProducts(M: nat, m: nat, k: nat)
    requires k <= M
    ensures 2 * k * m <= m * (2 * M) && (m + 1) * (2 * M) == m * (2 * M) + 2 * M
  {
    Scale(k, M, 2 * m);
    assert k * (2 * m) == 2 * k * m && M * (2 * m) == m * (2 * M);
  }

  // ---------------------------------------------------------------------- the pixels

  /** The line as the rasteriser plans it: from the start pixel, `M` steps along the major axis and
      `m` steps of direction `dir` along the minor one. */
  datatype Line = Line(x: int16, y: int16, xMajor: bool, M: nat, m: nat, dir: int) {
    function X(k: nat): int { if xMajor then x + k else x + dir * MinorAt(M, m, k) }
    function Y(k: nat): int { if xMajor then y + dir * MinorAt(M, m, k) else y + k }
    /** The start column is added as an unsigned word, which shifts a line that starts left of column zero. */
    function Skew(): int { x % 0x10000 - x }
    function Offset(pitch: int, k: nat): int { Y(k) * pitch + X(k) + Skew() }
    function Offsets(pitch: int): seq<int> { seq(M + 1, k requires 0 <= k => Offset(pitch, k)) }
  }

  lemma NoSkew(l: Line)
    requires 0 <= l.x
    ensures l.Skew() == 0
  {
  }

  function Delta(a: int16, b: int16): nat { Abs(I16(b - a)) }

  lemma DeltaSymmetric(a: int16, b: int16)
    ensures Delta(a, b) == Delta(b, a) && (Delta(a, b) == 0 <==> a == b)
  {
  }

  function Plan(s: Seg): Line {
    var adx, ady := Delta(s.ax, s.cx), Delta(s.bx, s.dx);
    if ady < adx then
      if s.ax >= s.cx then Line(s.cx, s.dx, true, adx, ady, if s.bx >= s.dx then 1 else -1)
      else Line(s.ax, s.bx, true, adx, ady, if s.bx <= s.dx then 1 else -1)
    else
      if s.bx >= s.dx then Line(s.cx, s.dx, false, ady, adx, if s.ax < s.cx then -1 else 1)
      else Line(s.ax, s.bx, false, ady, adx, if s.ax > s.cx then -1 else 1)
  }

  /** The drawing order is canonical: exchanging the endpoints plans the same pixels, for every
      16-bit input. */
  lemma PlanOrderIndependent(s: Seg)
    ensures Plan(s).(dir := 0) == Plan(s.Swap()).(dir := 0)
    ensures Plan(s).m > 0 ==> Plan(s) == Plan(s.Swap())
  {
    DeltaSymmetric(s.ax, s.cx);
    DeltaSymmetric(s.bx, s.dx);
  }

  /** With exact differences the line joins the two endpoints and stays in their bounding box. */
  lemma PlanJoins(s: Seg)
    requires s.Exact()
    ensures var l := Plan(s);
      && l.m <= l.M
      && ((l.X(0) == s.ax && l.Y(0) == s.bx && l.X(l.M) == s.cx && l.Y(l.M) == s.dx)
          || (l.X(0) == s.cx && l.Y(0) == s.dx && l.X(l.M) == s.ax && l.Y(l.M) == s.bx))
  {
    MinorEnds(Plan(s).M, Plan(s).m);
  }

  lemma PlanInBox(s: Seg, k: nat)
    requires s.Exact() && k <= Plan(s).M
    ensures Between(Plan(s).X(k), s.ax, s.cx) && Between(Plan(s).Y(k), s.bx, s.dx)
  {
    MinorRange(Plan(s).M, Plan(s).m, k);
  }

  // -------------------------------------------------------------- writing to a buffer

  function Ink(old8: bv8, color: bv8, xor: bool): bv8 { if xor then old8 ^ color else color }

  predicate InBuffer(offsets: seq<int>, size: nat) { forall i | 0 <= i < |offsets| :: 0 <= offsets[i] < size }

  /** The buffer after writing the offsets in order. */
  function Plot(buf: seq<bv8>, offsets: seq<int>, color: bv8, xor: bool): (r: seq<bv8>)
    requires InBuffer(offsets, |buf|)
    ensures |r| == |buf|
  {
    if offsets == [] then buf
    else
      var done := Plot(buf, offsets[..|offsets| - 1], color, xor);
      var o := offsets[|offsets| - 1];
      done[o := Ink(done[o], color, xor)]
  }

  lemma {:induction false} PlotStep(buf: seq<bv8>, offsets: seq<int>, k: nat, color: bv8, xor: bool)
    requires InBuffer(offsets, |buf|) && k < |offsets|
    ensures InBuffer(offsets[..k], |buf|) && InBuffer(offsets[..k + 1], |buf|)
    ensures var done := Plot(buf, offsets[..k], color, xor);
      Plot(buf, offsets[..k + 1], color, xor) == done[offsets[k] := Ink(done[offsets[k]], color, xor)]
  {
    assert offsets[..k + 1][..k] == offsets[..k];
  }

  /** The exclusive-or of everything written at offset `o`. */
  function Toggled(offsets: seq<int>, o: int, color: bv8): bv8 {
    if offsets == [] then 0
    else
      var t := Toggled(offsets[..|offsets| - 1], o, color);
      if offsets[|offsets| - 1] == o then t ^ color else t
  }

  lemma {:induction false} PlotXor(buf: seq<bv8>, offsets: seq<int>, color: bv8, o: nat)
    requires InBuffer(offsets, |buf|) && o < |buf|
    ensures Plot(buf, offsets, color, true)[o] == buf[o] ^ Toggled(offsets, o, color)
  {
    if offsets != [] {
      var rest, last := offsets[..|offsets| - 1], offsets[|offsets| - 1];
      PlotXor(buf, rest, color, o);
      if last == o { XorAssociative(buf[o], Toggled(rest, o, color), color); }
    } else {
      XorZero(buf[o]);
    }
  }

  /** In XOR mode a pixel that is listed an odd number of times is toggled with the colour, and no other changes. */
  lemma XorByParity(buf: seq<bv8>, offsets: seq<int>, color: bv8, o: nat)
    requires InBuffer(offsets, |buf|) && o < |buf|
    ensures Plot(buf, offsets, color, true)[o] == buf[o] ^ (if multiset(offsets)[o] % 2 == 1 then color else 0)
  {
    PlotXor(buf, offsets, color, o);
    ToggledByParity(offsets, o, color);
  }

  lemma {:induction false} ToggledByParity(offsets: seq<int>, o: int, color: bv8)
    ensures Toggled(offsets, o, color) == if multiset(offsets)[o] % 2 == 1 then color else 0
  {
    if offsets != [] {
      var rest, last := offsets[..|offsets| - 1], offsets[|offsets| - 1];
      assert offsets == rest + [last];
      ToggledByParity(rest, o, color);
      XorTwice(0, color);
      assert (0 as bv8) ^ color == color;
    }
  }

  lemma XorAssociative(a: bv8, b: bv8, c: bv8)
    ensures (a ^ b) ^ c == a ^ (b ^ c)
  {
  }

  lemma XorZero(a: bv8)
    ensures a ^ 0 == a
  {
  }

  lemma XorTwice(a: bv8, b: bv8)
    ensures (a ^ b) ^ b == a
  {
  }

  /** Drawing the same line twice in XOR mode restores every byte of the buffer. */
  lemma PlotTwiceRestores(buf: seq<bv8>, offsets: seq<int>, color: bv8)
    requires InBuffer(offsets, |buf|)
    ensures Plot(Plot(buf, offsets, color, true), offsets, color, true) == buf
  {
    var once := Plot(buf, offsets, color, true);
    forall o: nat | o < |buf| ensures Plot(once, offsets, color, true)[o] == buf[o] {
      PlotXor(buf, offsets, color, o);
      PlotXor(once, offsets, color, o);
      XorTwice(buf[o], Toggled(offsets, o, color));
    }
  }

  /** Exactly the listed offsets change: a byte that is not listed keeps its value, and in solid mode
      a listed byte has the colour. */
  lemma {:induction false} PlotFrame(buf: seq<bv8>, offsets: seq<int>, color: bv8, xor: bool, o: nat)
    requires InBuffer(offsets, |buf|) && o < |buf|
    ensures o !in offsets ==> Plot(buf, offsets, color, xor)[o] == buf[o]
    ensures o in offsets && !xor ==> Plot(buf, offsets, color, xor)[o] == color
  {
    if offsets != [] {
      PlotFrame(buf, offsets[..|offsets| - 1], color, xor, o);
    }
  }

  /** The address of pixel `k` from the start offset and the two address steps of the run loop. */
  function RunOffset(start: int, majorStep: int, minorStep: int, M: nat, m: nat, k: nat): int {
    start + k * majorStep + MinorAt(M, m, k) * minorStep
  }

  lemma RunOffsetNext(start: int, majorStep: int, minorStep: int, M: nat, m: nat, k: nat)
    requires 0 < M && m <= M
    ensures RunOffset(start, majorStep, minorStep, M, m, k + 1) == RunOffset(start, majorStep, minorStep, M, m, k)
      + majorStep + (if Err(M, m, k, MinorAt(M, m, k)) >= 0 then minorStep else 0)
  {
    MinorStep(M, m, k);
    var s := MinorAt(M, m, k);
    assert (k + 1) * majorStep == k * majorStep + majorStep;
    assert (s + 1) * minorStep == s * minorStep + minorStep;
  }

  /** The offsets are those of the run loop with these address steps. */
  ghost predicate IsRun(offsets: seq<int>, majorStep: int, minorStep: int, M: nat, m: nat) {
    && |offsets| == M + 1
    && forall k: nat | k <= M :: offsets[k] == RunOffset(offsets[0], majorStep, minorStep, M, m, k)
  }

  /** `err` is the decision variable of step `k`. */
  predicate AtStep(err: int, M: nat, m: nat, k: nat) { err == Err(M, m, k, MinorAt(M, m, k)) }

  /** The sign test is right at every step that depends on it. */
  ghost predicate SignRight(M: nat, m: nat) { forall k: nat | k < M :: SignAt(M, m, k) }

  predicate SignAt(M: nat, m: nat, k: nat) {
    var e := Err(M, m, k, MinorAt(M, m, k));
    I16(e) >= 0 <==> e >= 0
  }

  /** Deltas for which the decision variable always fits the 16-bit sign test. */
  predicate SignSafe(M: int, m: int) { 0 <= m <= M <= 0x7fff && m <= 0x4000 && M - m <= 0x4000 }

  lemma SafeIsRight(M: nat, m: nat)
    requires SignSafe(M, m)
    ensures SignRight(M, m)
  {
    forall k: nat | k < M ensures SignAt(M, m, k) {
      MinorStep(M, m, k);
    }
  }

  /** Just beyond either bound the promise fails: at these steps the true sign and the tested sign
      differ. */
  lemma SignTestWraps()
    ensures var e := Err(32767, 16385, 10922, MinorAt(32767, 16385, 10922)); e == 32769 && I16(e) < 0
    ensures var e := Err(32767, 16382, 10922, MinorAt(32767, 16382, 10922)); e == -32769 && I16(e) >= 0
  {
    MinorNearest(32767, 16385, 10922, 5461);
    MinorNearest(32767, 16382, 10922, 5461);
  }

  /** The sign test is exact and every pixel is mapped. */
  ghost predicate CanDraw(l: Line, pitch: int, size: nat) {
    l.m <= l.M <= 0x7fff && SignRight(l.M, l.m) && InBuffer(l.Offsets(pitch), size)
  }

  class Framebuffer {
    /** The address of the first pixel, the distance between rows, and the bytes. */
    const base: uint32
    const pitch: int
    const pixels: array<bv8>

    constructor (base: uint32, pitch: int, pixels: array<bv8>)
      ensures this.base == base && this.pitch == pitch && this.pixels == pixels
    {
      this.base, this.pitch, this.pixels := base, pitch, pixels;
    }

    ghost predicate Mapped() { base + pixels.Length <= 0x1_0000_0000 && 0 <= pitch < 0x1_0000_0000 }

    /** One step of the span loop: the major step always, the minor step by the sign of the low 16
        bits of the decision variable. */
    static method Advance(pix0: uint32, err0: int, errStep: int, errNostep: int, majorStep: int, minorStep: int)
      returns (pix: uint32, err: int)
      ensures pix == U32(pix0 + majorStep + (if I16(err0) >= 0 then minorStep else 0))
      ensures err == err0 + (if I16(err0) >= 0 then errStep else errNostep)
    {
      pix, err := U32(pix0 + U32(majorStep)), err0;
      if I16(err) >= 0 {
        pix := U32(pix + U32(minorStep));
        err := err + errStep;
      } else {
        err := err + errNostep;
      }
    }

    method Touch(pix: uint32, color: bv8, xor: bool)
      requires base <= pix < base + pixels.Length
      modifies pixels
      ensures pixels[..] == old(pixels[..])[pix - base := Ink(old(pixels[pix - base]), color, xor)]
    {
      if xor { pixels[pix - base] := pixels[pix - base] ^ color; }
      else { pixels[pix - base] := color; }
    }

    /** The inner span loop: `count + 1` pixels. */
    method BresRun(pix0: uint32, count: int, err0: int, errStep: int, errNostep: int,
                   majorStep: int, minorStep: int, color: bv8, xor: bool, ghost m: nat, ghost offsets: seq<int>)
      requires Mapped() && m <= count <= 0x7fff && SignRight(count, m)
      requires err0 == 2 * m - count && errStep == 2 * (m - count) && errNostep == 2 * m
      requires IsRun(offsets, majorStep, minorStep, count, m)
      requires InBuffer(offsets, pixels.Length) && pix0 == base + offsets[0]
      modifies pixels
      ensures pixels[..] == Plot(old(pixels[..]), offsets, color, xor)
    {
      var pix, err, c: int := pix0, err0, I16(count);
      ghost var k := 0;
      if 0 < count { FirstStep(count, m); }
      while true
        invariant 0 <= k <= count && c == count - k
        invariant pixels[..] == Plot(old(pixels[..]), offsets[..k], color, xor)
        invariant pix == base + offsets[k]
        invariant 0 < count ==> AtStep(err, count, m, k)
        decreases count - k
      {
        PlotStep(old(pixels[..]), offsets, k, color, xor);
        Touch(pix, color, xor);
        if k < count { RunInvariant(count, m, k, err, offsets, majorStep, minorStep); }
        pix, err := Advance(pix, err, errStep, errNostep, majorStep, minorStep);
        c := I16(c - 1);
        if c < 0 { break; }
        k := k + 1;
      }
      assert offsets[..k + 1] == offsets;
    }

    /** The segment can be drawn: the sign test is exact and every pixel is mapped. */
    ghost predicate Drawable(s: Seg) {
      CanDraw(Plan(s), pitch, pixels.Length)
    }

    method DrawLine(x0: int16, y0: int16, x1: int16, y1: int16, color: bv8, xor: bool)
      requires Mapped() && Drawable(Seg(x0, y0, x1, y1))
      modifies pixels
      ensures pixels[..] == Plot(old(pixels[..]), Plan(Seg(x0, y0, x1, y1)).Offsets(pitch), color, xor)
    {
      var adx: int := I16(x1 - x0);
      if adx < 0 { adx := -adx; }
      var ady: int := I16(y1 - y0);
      if ady < 0 { ady := -ady; }
      var startX: int, startY: int, minor: int, count: int, err: int, errStep: int, errNostep: int, major: int;
      if ady < adx {
        if x0 >= x1 {
          minor := if ady == 0 then 0 else if y0 >= y1 then pitch else -pitch;
          startX, startY := x1, y1;
        } else {
          minor := if ady == 0 then 0 else if y0 <= y1 then pitch else -pitch;
          startX, startY := x0, y0;
        }
        count, err, errStep, errNostep := adx, 2 * ady - adx, 2 * (ady - adx), 2 * ady;
        major := 1;
      } else {
        if y0 >= y1 {
          minor := if ady == 0 then 0 else if x0 < x1 then -1 else 1;
          startX, startY := x1, y1;
        } else {
          minor := if ady == 0 then 0 else if x0 > x1 then -1 else 1;
          startX, startY := x0, y0;
        }
        count, err, errStep, errNostep := ady, 2 * adx - ady, 2 * (adx - ady), 2 * adx;
        major := pitch;
      }
      ghost var l := Plan(Seg(x0, y0, x1, y1));
      ghost var offsets := l.Offsets(pitch);
      assert count == l.M && startX == l.x && startY == l.y;
      OffsetsAsRun(l, pitch, minor);
      StartAddress(base, startY * pitch, startX % 0x10000, pixels.Length);
      var pix := U32(base + U32(startY * pitch) + startX % 0x10000);
      BresRun(pix, count, err, errStep, errNostep, major, minor, color, xor, l.m, offsets);
    }
  }

  lemma StartAddress(base: uint32, row: int, x: int, size: nat)
    requires 0 <= row + x < size && base + size <= 0x1_0000_0000
    ensures U32(base + U32(row) + x) == base + row + x
  {
  }

  lemma OffsetsAsRun(l: Line, pitch: int, minorStep: int)
    requires l.m <= l.M
    requires l.m > 0 ==> minorStep == if l.xMajor then l.dir * pitch else l.dir
    ensures l.Offsets(pitch)[0] == l.y * pitch + l.x % 0x10000
    ensures IsRun(l.Offsets(pitch), if l.xMajor then 1 else pitch, minorStep, l.M, l.m)
  {
    MinorEnds(l.M, l.m);
    forall k: nat | k <= l.M
      ensures l.Offset(pitch, k) == RunOffset(l.y * pitch + l.x % 0x10000, if l.xMajor then 1 else pitch, minorStep, l.M, l.m, k)
    {
      OffsetAsRun(l, pitch, minorStep, k);
    }
  }

  lemma OffsetAsRun(l: Line, pitch: int, minorStep: int, k: nat)
    requires l.m <= l.M && k <= l.M
    requires l.m > 0 ==> minorStep == if l.xMajor then l.dir * pitch else l.dir
    ensures l.Offset(pitch, k) == RunOffset(l.y * pitch + l.x % 0x10000, if l.xMajor then 1 else pitch, minorStep, l.M, l.m, k)
  {
    MinorRange(l.M, l.m, k);
    OffsetProducts(l.y, l.dir, pitch, MinorAt(l.M, l.m, k), k);
  }

  lemma OffsetProducts(y: int, dir: int, pitch: int, s: int, k: int)
    ensures (y + dir * s) * pitch == y * pitch + s * (dir * pitch)
    ensures (y + k) * pitch == y * pitch + k * pitch
  {
  }

  /** One step of the loop keeps its invariant: the 16-bit sign is the true sign, and the address and the decision
      variable of the next step follow. */
  lemma RunInvariant(M: nat, m: nat, k: nat, err: int, offsets: seq<int>, majorStep: int, minorStep: int)
    requires m <= M && SignRight(M, m) && k < M && AtStep(err, M, m, k) && IsRun(offsets, majorStep, minorStep, M, m)
    ensures offsets[k + 1] == offsets[k] + majorStep + (if I16(err) >= 0 then minorStep else 0)
    ensures AtStep(err + (if I16(err) >= 0 then 2 * (m - M) else 2 * m), M, m, k + 1)
  {
    assert SignAt(M, m, k);
    MinorStep(M, m, k);
    RunOffsetNext(offsets[0], majorStep, minorStep, M, m, k);
    ErrNext(M, m, k, MinorAt(M, m, k));
  }

  lemma FirstStep(M: nat, m: nat)
    requires 0 < M && m <= M
    ensures AtStep(2 * m - M, M, m, 0)
  {
    MinorEnds(M, m);
  }

  lemma ErrNext(M: nat, m: nat, k: nat, s: nat)
    ensures Err(M, m, k + 1, s) == Err(M, m, k, s) + 2 * m
    ensures Err(M, m, k + 1, s + 1) == Err(M, m, k, s) + 2 * (m - M)
  {
  }
}
