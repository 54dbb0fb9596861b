/** The automap's segment clipper: a two-axis clip with 16-bit registers and truncating
    interpolation (roth_c/src/engine/automap.c). */
module AutomapClip {
  import opened MachineInt

  /** A segment held in the four coordinate registers: (ax,bx) to (cx,dx). */
  datatype Seg = Seg(ax: int16, bx: int16, cx: int16, dx: int16) {
    /** The same segment with its endpoints exchanged. */
    function Swap(): Seg { Seg(cx, dx, ax, bx) }

    /** The segment with the roles of the two axes exchanged. */
    function Turn(): Seg { Seg(bx, ax, dx, cx) }

    /** Every 16-bit difference between the endpoints is exact. */
    predicate Exact() { Abs(cx - ax) <= 0x7fff && Abs(dx - bx) <= 0x7fff }
  }

  datatype Rect = Rect(left: int16, top: int16, right: int16, bottom: int16) {
    predicate Contains(x: int, y: int) { left <= x <= right && top <= y <= bottom }
  }

  /** The carry flag (set = reject) and the registers the clipper leaves. */
  datatype Clip = Clip(reject: bool, s: Seg)

  // ---------------------------------------------------------------- specification

  function MoveLow(s: Seg, lo: int16): Seg {
    if s.ax != s.cx then
      var span := I16(s.cx - s.ax);
      var q := I16(TruncDiv(I16(s.ax - lo) * I16(s.bx - s.dx), span));
      s.(ax := lo, bx := I16(s.bx + q))
    else s.(ax := lo)
  }

  function MoveHigh(s: Seg, hi: int16): Seg {
    if s.ax != s.cx then
      var span := I16(s.cx - s.ax);
      var q := I16(TruncDiv(I16(s.dx - s.bx) * I16(s.cx - hi), span));
      s.(cx := hi, dx := I16(s.dx - q))
    else s.(cx := hi)
  }

  function Ascending(s: Seg): Seg { if s.ax > s.cx then s.Swap() else s }

  function LowStage(s: Seg, lo: int16): Seg { if s.ax < lo then MoveLow(s, lo) else s }

  function HighStage(s: Seg, hi: int16): Seg { if s.cx > hi then MoveHigh(s, hi) else s }

  function LineClip(s: Seg, lo: int16, hi: int16): Clip {
    var s0 := Ascending(s);
    var s1 := LowStage(s0, lo);
    if s0.ax < lo && s1.ax > s1.cx then Clip(true, s1)
    else
      var s2 := HighStage(s1, hi);
      Clip(s1.cx > hi && s2.ax > s2.cx, s2)
  }

  function XDescending(s: Seg): Seg { if s.ax > s.cx then s else s.Swap() }

  function YDescending(s: Seg): Seg { if s.bx > s.dx then s else s.Swap() }

  /** A rejected segment leaves the caller's coordinates as they were. */
  function ClipMapLine(s: Seg, r: Rect): Clip {
    var s1 := XDescending(s);
    if s1.ax < r.left || s1.cx > r.right then Clip(true, s)
    else
      var s2 := YDescending(s1);
      if s2.bx < r.top || s2.dx > r.bottom then Clip(true, s)
      else
        var x := LineClip(XDescending(s2), r.left, r.right);
        if x.reject then Clip(true, s)
        else
          var y := LineClip(x.s.Turn(), r.top, r.bottom);
          if y.reject then Clip(true, s) else Clip(false, y.s.Turn())
  }

  // --------------------------------------------------------------- implementation

  /** The low half of the test: interpolate the first endpoint onto the bound `lo`. */
  method ClipLow(ax0: int16, bx0: int16, cx: int16, dx: int16, lo: int16) returns (ax: int16, bx: int16)
    ensures Seg(ax, bx, cx, dx) == MoveLow(Seg(ax0, bx0, cx, dx), lo)
  {
    ax, bx := ax0, bx0;
    if ax != cx {
      var span: int, da: int, dy: int := I16(cx - ax), I16(ax - lo), I16(bx - dx);
      var q := I16(TruncDiv(da * dy, span));
      bx := I16(bx + q);
    }
    ax := lo;
  }

  /** The high half: interpolate the second endpoint onto the bound `hi`. */
  method ClipHigh(ax: int16, bx: int16, cx0: int16, dx0: int16, hi: int16) returns (cx: int16, dx: int16)
    ensures Seg(ax, bx, cx, dx) == MoveHigh(Seg(ax, bx, cx0, dx0), hi)
  {
    cx, dx := cx0, dx0;
    if ax != cx {
      var over: int, span: int, dy: int := I16(cx - hi), I16(cx - ax), I16(dx - bx);
      var q := I16(TruncDiv(dy * over, span));
      dx := I16(dx - q);
    }
    cx := hi;
  }

  method LineClipTest(ax0: int16, bx0: int16, cx0: int16, dx0: int16, lo: int16, hi: int16)
    returns (reject: bool, ax: int16, bx: int16, cx: int16, dx: int16)
    ensures Clip(reject, Seg(ax, bx, cx, dx)) == LineClip(Seg(ax0, bx0, cx0, dx0), lo, hi)
  {
    ax, bx, cx, dx := ax0, bx0, cx0, dx0;
    if ax > cx { ax, bx, cx, dx := cx, dx, ax, bx; }
    if ax < lo {
      ax, bx := ClipLow(ax, bx, cx, dx, lo);
      if ax > cx { return true, ax, bx, cx, dx; }
    }
    if cx > hi {
      cx, dx := ClipHigh(ax, bx, cx, dx, hi);
      if ax > cx { return true, ax, bx, cx, dx; }
    }
    reject := false;
  }

  method ClipLine(ax0: int16, bx0: int16, cx0: int16, dx0: int16, r: Rect)
    returns (reject: bool, ax: int16, bx: int16, cx: int16, dx: int16)
    ensures Clip(reject, Seg(ax, bx, cx, dx)) == ClipMapLine(Seg(ax0, bx0, cx0, dx0), r)
  {
    ax, bx, cx, dx := ax0, bx0, cx0, dx0;
    if !(ax > cx) { ax, bx, cx, dx := cx, dx, ax, bx; }
    if ax < r.left || cx > r.right { return true, ax0, bx0, cx0, dx0; }
    if !(bx > dx) { ax, bx, cx, dx := cx, dx, ax, bx; }
    if bx < r.top || dx > r.bottom { return true, ax0, bx0, cx0, dx0; }
    if !(ax > cx) { ax, bx, cx, dx := cx, dx, ax, bx; }
    reject, ax, bx, cx, dx := LineClipTest(ax, bx, cx, dx, r.left, r.right);
    if reject { return true, ax0, bx0, cx0, dx0; }
    ax, bx, cx, dx := bx, ax, dx, cx;
    reject, ax, bx, cx, dx := LineClipTest(ax, bx, cx, dx, r.top, r.bottom);
    if reject { return true, ax0, bx0, cx0, dx0; }
    ax, bx, cx, dx := bx, ax, dx, cx;
  }

  // ------------------------------------------------- exactness of one interpolation

  predicate Between(v: int, a: int, b: int) { a <= v <= b || b <= v <= a }

  /** Both endpoints of `m` lie in the bounding box of `s`. */
  predicate Within(m: Seg, s: Seg) {
    && Between(m.ax, s.ax, s.cx) && Between(m.cx, s.ax, s.cx)
    && Between(m.bx, s.bx, s.dx) && Between(m.dx, s.bx, s.dx)
  }

  lemma WithinTransitive(m: Seg, x: Seg, s: Seg)
    requires Within(m, x) && Within(x, s)
    ensures Within(m, s)
  {
  }

  /** `n/span` of the way is never more than the whole way. */
  lemma QuotientBound(n: nat, d: int, span: int)
    requires n <= span && 0 < span
    ensures Between(TruncDiv(n * d, span), 0, d)
    ensures var e := n * d - TruncDiv(n * d, span) * span; Abs(e) < span && (d >= 0 ==> e >= 0) && (d <= 0 ==> e <= 0)
  {
    var a, q := n * d, TruncDiv(n * d, span);
    TruncDivRemainder(a, span);
    if d >= 0 {
      Scale(n, span, d);
      Scale(0, n, d);
      AtMost(q, a, d, span);
      AtMost(-q, -a, 0, span);
    } else {
      Scale(n, span, -d);
      Scale(0, n, -d);
      Signs(n, d, span, q);
      AtMost(-q, -a, -d, span);
      AtMost(q, a, 0, span);
    }
  }

  lemma Signs(n: int, d: int, span: int, q: int)
    ensures n * -d == -(n * d) && span * -d == -(d * span) && -q * span == -(q * span)
  {
  }

  /** A rounded quotient of no more than `d` is no more than `d`. */
  lemma AtMost(q: int, a: int, d: int, span: int)
    requires 0 < span && a <= d * span && q * span < a + span
    ensures q <= d
  {
    assert (d + 1) * span == d * span + span;
    Cancel(q, d + 1, span);
  }

  lemma MoveLowExact(s: Seg, lo: int16)
    requires s.Exact() && s.ax < lo <= s.cx
    ensures var m := MoveLow(s, lo);
      && m == s.(ax := lo, bx := m.bx)
      && Between(m.bx, s.bx, s.dx)
      && var e := (lo - s.ax) * (s.dx - s.bx) - (m.bx - s.bx) * (s.cx - s.ax);
         Abs(e) < s.cx - s.ax && (s.dx >= s.bx ==> e >= 0) && (s.dx <= s.bx ==> e <= 0)
  {
    QuotientBound(lo - s.ax, s.dx - s.bx, s.cx - s.ax);
    BothNegated(lo - s.ax, s.dx - s.bx);
    assert s.ax - lo == Neg(lo - s.ax) && s.bx - s.dx == Neg(s.dx - s.bx);
  }

  lemma BothNegated(a: int, b: int)
    ensures Neg(a) * Neg(b) == a * b
  {
  }

  lemma MoveHighExact(s: Seg, hi: int16)
    requires s.Exact() && s.ax <= hi < s.cx
    ensures var m := MoveHigh(s, hi);
      && m == s.(cx := hi, dx := m.dx)
      && Between(m.dx, s.bx, s.dx)
      && var e := (s.cx - hi) * (s.dx - s.bx) - (s.dx - m.dx) * (s.cx - s.ax);
         Abs(e) < s.cx - s.ax && (s.dx >= s.bx ==> e >= 0) && (s.dx <= s.bx ==> e <= 0)
  {
    QuotientBound(s.cx - hi, s.dx - s.bx, s.cx - s.ax);
    assert (s.dx - s.bx) * (s.cx - hi) == (s.cx - hi) * (s.dx - s.bx);
  }

  // -------------------------------------------------------------------- acceptance

  lemma LowStageFacts(s: Seg, lo: int16)
    requires s.Exact() && s.ax <= s.cx && (s.ax < lo ==> lo <= s.cx)
    ensures var m := LowStage(s, lo);
      && Within(m, s) && m.Exact()
      && lo <= m.ax <= m.cx && m.cx == s.cx && m.dx == s.dx
  {
    if s.ax < lo { MoveLowExact(s, lo); }
  }

  lemma HighStageFacts(s: Seg, hi: int16)
    requires s.Exact() && s.ax <= s.cx && (s.cx > hi ==> s.ax <= hi)
    ensures var m := HighStage(s, hi);
      && Within(m, s) && m.Exact()
      && m.ax <= m.cx <= hi && m.ax == s.ax && m.bx == s.bx
  {
    if s.cx > hi { MoveHighExact(s, hi); }
  }

  /** An accepted clip passed through both stages. */
  lemma LineClipStages(s: Seg, lo: int16, hi: int16)
    requires !LineClip(s, lo, hi).reject
    ensures var s0 := Ascending(s); var s1 := LowStage(s0, lo);
      && s0.ax <= s0.cx && (s0.ax < lo ==> lo <= s0.cx)
      && (s1.cx > hi ==> s1.ax <= hi)
      && LineClip(s, lo, hi).s == HighStage(s1, hi)
  {
  }

  /** What acceptance of one axis means: the axis is inside the bounds, and neither coordinate
      left the span of the original endpoints. */
  lemma LineClipAccepts(s: Seg, lo: int16, hi: int16)
    requires s.Exact() && !LineClip(s, lo, hi).reject
    ensures var m := LineClip(s, lo, hi).s;
      lo <= m.ax <= m.cx <= hi && Within(m, s) && m.Exact()
  {
    LineClipStages(s, lo, hi);
    var s0 := Ascending(s);
    var s1 := LowStage(s0, lo);
    LowStageFacts(s0, lo);
    HighStageFacts(s1, hi);
    WithinTransitive(HighStage(s1, hi), s1, s0);
  }

  /** An affine form over (u, v), given by its coefficients. */
  datatype Affine = Affine(J: int, K: int, c: int) {
    function At(u: int, v: int): int { J * u + K * v + c }
  }

  /** Moving to `u` on the first axis with `v` rounded by less than one unit adds at most `|K|`
      to the largest value of the form at the two endpoints. */
  lemma InterpolateDrift(f: Affine, u0: int, v0: int, u1: int, v1: int, u: int, v: int, bound: nat)
    requires u0 <= u <= u1 && u0 < u1
    requires Abs((u - u0) * (v1 - v0) - (v - v0) * (u1 - u0)) < u1 - u0
    requires Abs(f.At(u0, v0)) <= bound && Abs(f.At(u1, v1)) <= bound
    ensures Abs(f.At(u, v)) <= bound + Abs(f.K)
  {
    WeightedForm(f.J, f.K, f.c, u0, v0, u1, v1, u, v);
    WeightedBound(f.At(u, v), f.At(u0, v0), f.At(u1, v1), f.K,
                  (u - u0) * (v1 - v0) - (v - v0) * (u1 - u0), u1 - u, u - u0, bound);
  }

  lemma WeightedBound(g: int, f0: int, f1: int, k: int, e: int, p: nat, q: nat, bound: nat)
    requires 0 < p + q && Abs(e) < p + q && Abs(f0) <= bound && Abs(f1) <= bound
    requires g * (p + q) == f0 * p + f1 * q - k * e
    ensures Abs(g) <= bound + Abs(k)
  {
    WeightedSum(f0, f1, p, q, bound);
    ProductBound(e, k, p + q);
    BoundFromProduct(g, bound + Abs(k), bound, Abs(k), p + q);
  }

  lemma WeightedSum(f0: int, f1: int, p: nat, q: nat, bound: int)
    requires -bound <= f0 <= bound && -bound <= f1 <= bound
    ensures -(bound * (p + q)) <= f0 * p + f1 * q <= bound * (p + q)
  {
    Scale(f0, bound, p); Scale(-bound, f0, p);
    Scale(f1, bound, q); Scale(-bound, f1, q);
  }

  lemma BoundFromProduct(g: int, top: int, b: int, k: int, n: int)
    requires 0 < n && top == b + k
    requires -(b * n) - k * n <= g * n <= b * n + k * n
    ensures -top <= g <= top
  {
    assert top * n == b * n + k * n;
    if g > top { Scale(top + 1, g, n); }
    if g < -top { Scale(g, -top - 1, n); }
  }

  lemma ProductBound(e: int, k: int, span: int)
    requires Abs(e) < span
    ensures Abs(k * e) <= Abs(k) * span
  {
    Scale(Abs(e), span, Abs(k));
    assert Abs(k * e) == Abs(k) * Abs(e);
  }

  lemma WeightedForm(J: int, K: int, c: int, u0: int, v0: int, u1: int, v1: int, u: int, v: int)
    ensures (J * u + K * v + c) * (u1 - u0)
         == (J * u0 + K * v0 + c) * (u1 - u) + (J * u1 + K * v1 + c) * (u - u0)
            - K * ((u - u0) * (v1 - v0) - (v - v0) * (u1 - u0))
  {
  }

  lemma MoveLowDrift(s: Seg, lo: int16, f: Affine, bound: nat)
    requires s.Exact() && s.ax < lo <= s.cx
    requires Abs(f.At(s.ax, s.bx)) <= bound && Abs(f.At(s.cx, s.dx)) <= bound
    ensures var m := MoveLow(s, lo); Abs(f.At(m.ax, m.bx)) <= bound + Abs(f.K)
  {
    MoveLowExact(s, lo);
    InterpolateDrift(f, s.ax, s.bx, s.cx, s.dx, lo, MoveLow(s, lo).bx, bound);
  }

  lemma MoveHighDrift(s: Seg, hi: int16, f: Affine, bound: nat)
    requires s.Exact() && s.ax <= hi < s.cx
    requires Abs(f.At(s.ax, s.bx)) <= bound && Abs(f.At(s.cx, s.dx)) <= bound
    ensures var m := MoveHigh(s, hi); Abs(f.At(m.cx, m.dx)) <= bound + Abs(f.K)
  {
    MoveHighExact(s, hi);
    var v := MoveHigh(s, hi).dx;
    FromTheOtherEnd(s.ax, s.bx, s.cx, s.dx, hi, v);
    InterpolateDrift(f, s.ax, s.bx, s.cx, s.dx, hi, v, bound);
  }

  /** Both endpoints that one accepted axis clip leaves stay close to any line the endpoints were
      close to. */
  lemma LineClipDrift(s: Seg, lo: int16, hi: int16, f: Affine, bound: nat)
    requires s.Exact() && !LineClip(s, lo, hi).reject
    requires Abs(f.At(s.ax, s.bx)) <= bound && Abs(f.At(s.cx, s.dx)) <= bound
    ensures var m := LineClip(s, lo, hi).s;
      Abs(f.At(m.ax, m.bx)) <= bound + Abs(f.K) && Abs(f.At(m.cx, m.dx)) <= bound + 2 * Abs(f.K)
  {
    LineClipStages(s, lo, hi);
    var s0 := Ascending(s);
    var s1 := LowStage(s0, lo);
    LowStageFacts(s0, lo);
    if s0.ax < lo { MoveLowDrift(s0, lo, f, bound); }
    if s1.cx > hi { MoveHighDrift(s1, hi, f, bound + Abs(f.K)); }
  }

  lemma FromTheOtherEnd(u0: int, v0: int, u1: int, v1: int, u: int, v: int)
    ensures (u - u0) * (v1 - v0) - (v - v0) * (u1 - u0) == -((u1 - u) * (v1 - v0) - (v1 - v) * (u1 - u0))
  {
  }

  /** Twice the area between (x, y) and the line through the endpoints of `s`. */
  function Drift(s: Seg, x: int, y: int): int {
    (y - s.bx) * (s.cx - s.ax) - (x - s.ax) * (s.dx - s.bx)
  }

  function DriftForm(s: Seg): (f: Affine)
    ensures f.At(s.ax, s.bx) == 0 && f.At(s.cx, s.dx) == 0
    ensures forall x: int, y: int :: f.At(x, y) == Drift(s, x, y)
  {
    Affine(s.bx - s.dx, s.cx - s.ax, s.ax * (s.dx - s.bx) - (s.cx - s.ax) * s.bx)
  }

  /** The x clip as ClipMapLine calls it, on the segment with its larger x first. */
  function XClip(s: Seg, r: Rect): Clip { LineClip(XDescending(YDescending(XDescending(s))), r.left, r.right) }

  function YClip(x: Seg, r: Rect): Clip { LineClip(x.Turn(), r.top, r.bottom) }

  lemma AcceptedStages(s: Seg, r: Rect)
    requires !ClipMapLine(s, r).reject
    ensures !XClip(s, r).reject && !YClip(XClip(s, r).s, r).reject
    ensures ClipMapLine(s, r).s == YClip(XClip(s, r).s, r).s.Turn()
  {
  }

  lemma SameBox(m: Seg, s0: Seg, s: Seg)
    requires Within(m, s0) && (s0 == s || s0 == s.Swap())
    ensures Within(m, s)
  {
  }

  lemma XClipAccepts(s: Seg, r: Rect)
    requires s.Exact() && !XClip(s, r).reject
    ensures var x := XClip(s, r).s; r.left <= x.ax <= x.cx <= r.right && Within(x, s) && x.Exact()
  {
    var s0 := XDescending(YDescending(XDescending(s)));
    assert s0 == s || s0 == s.Swap();
    LineClipAccepts(s0, r.left, r.right);
    SameBox(LineClip(s0, r.left, r.right).s, s0, s);
  }

  lemma YClipAccepts(x: Seg, r: Rect)
    requires x.Exact() && !YClip(x, r).reject
    ensures var y := YClip(x, r).s; r.top <= y.ax <= y.cx <= r.bottom && Within(y, x.Turn())
  {
    LineClipAccepts(x.Turn(), r.top, r.bottom);
  }

  /** `y` is the turned segment after the second axis: its own axis is inside [top, bottom], and its
      other coordinate stayed between two values inside [left, right]. */
  lemma InsideBoth(y: Seg, x: Seg, s: Seg, r: Rect)
    requires r.left <= x.ax <= x.cx <= r.right && Within(x, s)
    requires r.top <= y.ax <= y.cx <= r.bottom && Within(y, x.Turn())
    ensures r.Contains(y.bx, y.ax) && r.Contains(y.dx, y.cx) && Within(y.Turn(), s)
  {
    WithinTransitive(y.Turn(), x, s);
  }

  /** Acceptance is correct: both endpoints are in the rectangle and within the bounding box of the
      segment. */
  lemma AcceptedInside(s: Seg, r: Rect)
    requires s.Exact() && !ClipMapLine(s, r).reject
    ensures var m := ClipMapLine(s, r).s;
      r.Contains(m.ax, m.bx) && r.Contains(m.cx, m.dx) && Within(m, s)
  {
    AcceptedStages(s, r);
    var x := XClip(s, r).s;
    XClipAccepts(s, r);
    YClipAccepts(x, r);
    InsideBoth(YClip(x, r).s, x, s, r);
  }

  lemma AcceptedForm(s: Seg, r: Rect, f: Affine)
    requires s.Exact() && !ClipMapLine(s, r).reject
    requires f.At(s.ax, s.bx) == 0 && f.At(s.cx, s.dx) == 0
    ensures var m := ClipMapLine(s, r).s;
      && Abs(f.At(m.ax, m.bx)) <= 2 * Abs(f.K) + Abs(f.J)
      && Abs(f.At(m.cx, m.dx)) <= 2 * Abs(f.K) + 2 * Abs(f.J)
  {
    AcceptedStages(s, r);
    var s0, x := XDescending(YDescending(XDescending(s))), XClip(s, r).s;
    LineClipAccepts(s0, r.left, r.right);
    LineClipDrift(s0, r.left, r.right, f, 0);
    LineClipDrift(x.Turn(), r.top, r.bottom, Affine(f.K, f.J, f.c), 2 * Abs(f.K));
  }

  /** Up to four truncated interpolations move the accepted endpoints off the line of the segment by
      a bounded amount. */
  lemma AcceptedDrift(s: Seg, r: Rect)
    requires s.Exact() && !ClipMapLine(s, r).reject
    ensures var m, dx, dy := ClipMapLine(s, r).s, Abs(s.cx - s.ax), Abs(s.dx - s.bx);
      && Abs(Drift(s, m.ax, m.bx)) <= 2 * dx + dy
      && Abs(Drift(s, m.cx, m.dx)) <= 2 * dx + 2 * dy
  {
    AcceptedForm(s, r, DriftForm(s));
  }

  // -------------------------------------------------------------------- visibility

  /** The point a fraction `t` along the exact segment lies in the closed rectangle. */
  ghost predicate OnScreen(s: Seg, r: Rect, t: real) {
    && 0.0 <= t <= 1.0
    && r.left as real <= s.ax as real + t * (s.cx - s.ax) as real <= r.right as real
    && r.top as real <= s.bx as real + t * (s.dx - s.bx) as real <= r.bottom as real
  }

  ghost predicate Visible(s: Seg, r: Rect) { exists t: real :: OnScreen(s, r, t) }

  lemma OnScreenSwap(s: Seg, r: Rect, t: real)
    requires OnScreen(s, r, t)
    ensures OnScreen(s.Swap(), r, 1.0 - t)
  {
    var dx, dy := (s.cx - s.ax) as real, (s.dx - s.bx) as real;
    assert (s.ax - s.cx) as real == -dx && (s.bx - s.dx) as real == -dy;
    assert (1.0 - t) * -dx == -dx + t * dx;
    assert (1.0 - t) * -dy == -dy + t * dy;
  }

  /** A point between 0 and 1 along a rising axis, compared with integer bounds. */
  lemma RisingPoint(a: int, d: nat, t: real, lo: int, hi: int)
    requires 0.0 <= t <= 1.0 && lo as real <= a as real + t * d as real <= hi as real
    ensures a <= hi && lo <= a + d
  {
    assert 0.0 <= t * d as real <= d as real;
  }

  /** Where a rising second axis stands when the first axis is inside [lo, hi], without fractions. */
  lemma CrossPoint(a: int, span: nat, lo: int, hi: int, b: int, d: nat, T: int, B: int, t: real)
    requires 0.0 <= t <= 1.0
    requires lo as real <= a as real + t * span as real <= hi as real
    requires T as real <= b as real + t * d as real <= B as real
    ensures (T - b) * span <= d * (hi - a) && d * (lo - a) <= (B - b) * span
  {
    CrossReal((T - b) as real, t, d as real, span as real, (hi - a) as real);
    CrossReal((lo - a) as real, t, span as real, d as real, (B - b) as real);
    assert ((T - b) * span) as real == (T - b) as real * span as real;
    assert (d * (hi - a)) as real == (hi - a) as real * d as real;
    assert (d * (lo - a)) as real == (lo - a) as real * d as real;
    assert ((B - b) * span) as real == (B - b) as real * span as real;
  }

  lemma CrossReal(p: real, t: real, d: real, span: real, q: real)
    requires 0.0 <= d && 0.0 <= span && p <= t * d && t * span <= q
    ensures p * span <= q * d
  {
    assert p * span <= (t * d) * span == (t * span) * d <= q * d;
  }

  /** A rising segment that meets [lo, hi] x [T, B], said without fractions. */
  predicate Crosses(ax: int, bx: int, cx: int, dx: int, lo: int, hi: int, T: int, B: int) {
    && ax <= cx && bx <= dx && ax <= hi && lo <= cx && lo <= hi && T <= dx && bx <= B
    && (T - bx) * (cx - ax) <= (dx - bx) * (hi - ax)
    && (dx - bx) * (lo - ax) <= (B - bx) * (cx - ax)
  }

  lemma PointCrosses(ax: int, bx: int, cx: int, dx: int, lo: int, hi: int, T: int, B: int, t: real)
    requires ax <= cx && bx <= dx && 0.0 <= t <= 1.0
    requires lo as real <= ax as real + t * (cx - ax) as real <= hi as real
    requires T as real <= bx as real + t * (dx - bx) as real <= B as real
    ensures Crosses(ax, bx, cx, dx, lo, hi, T, B)
  {
    RisingPoint(ax, cx - ax, t, lo, hi);
    RisingPoint(bx, dx - bx, t, T, B);
    CrossPoint(ax, cx - ax, lo, hi, bx, dx - bx, T, B, t);
  }

  lemma FlipPoint(b: int, d: int, t: real, T: int, B: int)
    requires T as real <= b as real + t * (d - b) as real <= B as real
    ensures Neg(B) as real <= Neg(b) as real + t * (Neg(d) - Neg(b)) as real <= Neg(T) as real
  {
    assert (Neg(d) - Neg(b)) as real == -((d - b) as real);
    assert t * -((d - b) as real) == -(t * (d - b) as real);
  }

  lemma OnScreenCrosses(s: Seg, r: Rect, t: real)
    requires OnScreen(s, r, t) && s.ax <= s.cx
    ensures s.bx <= s.dx ==> Crosses(s.ax, s.bx, s.cx, s.dx, r.left, r.right, r.top, r.bottom)
    ensures s.bx >= s.dx ==> Crosses(s.ax, Neg(s.bx), s.cx, Neg(s.dx), r.left, r.right, Neg(r.bottom), Neg(r.top))
  {
    if s.bx <= s.dx {
      PointCrosses(s.ax, s.bx, s.cx, s.dx, r.left, r.right, r.top, r.bottom, t);
    }
    if s.bx >= s.dx {
      FlipPoint(s.bx, s.dx, t, r.top, r.bottom);
      PointCrosses(s.ax, Neg(s.bx), s.cx, Neg(s.dx), r.left, r.right, Neg(r.bottom), Neg(r.top), t);
    }
  }

  /** Where the low clip leaves the first endpoint. */
  function Start(ax: int, lo: int): int { if ax < lo then lo else ax }

  /** What the two interpolations of a rising line compute: the low clip rounds `v0` down and the high
      clip rounds `v1` up, by less than one unit each. */
  predicate RisingRounded(ax: int, bx: int, cx: int, dx: int, lo: int, hi: int, v0: int, v1: int) {
    && (if ax < lo then 0 <= (lo - ax) * (dx - bx) - (v0 - bx) * (cx - ax) < cx - ax else v0 == bx)
    && (if cx > hi then 0 <= (cx - hi) * (dx - v0) - (dx - v1) * (cx - Start(ax, lo)) < cx - Start(ax, lo) else v1 == dx)
  }

  /** The heart of the argument: that rounding never loses an integer bound the exact line met. */
  lemma RisingClipKeepsBounds(ax: int, bx: int, cx: int, dx: int, lo: int, hi: int, v0: int, v1: int, T: int, B: int)
    requires Crosses(ax, bx, cx, dx, lo, hi, T, B)
    requires RisingRounded(ax, bx, cx, dx, lo, hi, v0, v1)
    ensures v1 >= T && v0 <= B
  {
    if ax < lo { AtMost(v0 - bx, (v0 - bx) * (cx - ax), B - bx, cx - ax); }
    if cx > hi {
      if ax < lo { RisingBothEnds(dx - bx, cx - ax, cx - lo, cx - hi, dx - v0, dx - T, dx - v1); }
      else { AtMost(dx - v1, (dx - v1) * (cx - ax), dx - T, cx - ax); }
    }
  }

  /** `w` is the height left above the low clip, `drop` how far the true line falls below the top
      end at `hi`, `q` the high clip's quotient: the quotient cannot exceed the true drop by one. */
  lemma RisingBothEnds(d: nat, span: int, rest: int, over: int, w: int, drop: int, q: int)
    requires 0 < over <= rest && 0 < span
    requires w * span < d * rest + span
    requires d * over <= drop * span
    requires q * rest <= over * w
    ensures q <= drop
  {
    Scale(w * span + 1, d * rest + span, over);
    Scale(d * over, drop * span, rest);
    Scale(over, rest, span);
    BothEndsChain(d, span, rest, over, w, drop);
    Cancel(over * w, (drop + 1) * rest, span);
    Cancel(q, drop + 1, rest);
  }

  lemma BothEndsChain(d: nat, span: int, rest: int, over: int, w: int, drop: int)
    requires (w * span + 1) * over <= (d * rest + span) * over
    requires (d * over) * rest <= (drop * span) * rest
    requires over * span <= rest * span && 0 < over
    ensures (over * w) * span < ((drop + 1) * rest) * span
  {
    Regroup(d, span, rest, over, w, drop);
  }

  lemma Regroup(d: int, span: int, rest: int, over: int, w: int, drop: int)
    ensures (w * span + 1) * over == (over * w) * span + over
    ensures (d * rest + span) * over == (d * over) * rest + over * span
    ensures ((drop + 1) * rest) * span == (drop * span) * rest + rest * span
  {
  }

  predicate Rounded(e: int, span: int, rises: bool, falls: bool) {
    Abs(e) < span && (rises ==> e >= 0) && (falls ==> e <= 0)
  }

  /** The rounding of both interpolations, in the direction the second axis has. */
  predicate ClipErrors(s: Seg, lo: int, hi: int, m: Seg) {
    var rises, falls := s.dx >= s.bx, s.dx <= s.bx;
    && (if s.ax < lo then Rounded((lo - s.ax) * (s.dx - s.bx) - (m.bx - s.bx) * (s.cx - s.ax), s.cx - s.ax, rises, falls)
        else m.bx == s.bx)
    && (if s.cx > hi then
          Rounded((s.cx - hi) * (s.dx - m.bx) - (s.dx - m.dx) * (s.cx - Start(s.ax, lo)), s.cx - Start(s.ax, lo), rises, falls)
        else m.dx == s.dx)
  }

  lemma LineClipErrors(s: Seg, lo: int16, hi: int16)
    requires s.Exact() && s.ax <= s.cx && s.ax <= hi && lo <= s.cx && lo <= hi
    ensures !LineClip(s, lo, hi).reject && ClipErrors(s, lo, hi, LineClip(s, lo, hi).s)
  {
    LineClipVerdict(s, lo, hi);
    LineClipStages(s, lo, hi);
    var s1 := LowStage(s, lo);
    LowStageFacts(s, lo);
    if s.ax < lo { MoveLowExact(s, lo); }
    if s1.cx > hi { MoveHighExact(s1, hi); }
  }

  lemma LineClipRounds(s: Seg, lo: int16, hi: int16)
    requires s.Exact() && s.ax <= s.cx && s.ax <= hi && lo <= s.cx && lo <= hi
    ensures !LineClip(s, lo, hi).reject
    ensures var m := LineClip(s, lo, hi).s;
      && (s.bx <= s.dx ==> RisingRounded(s.ax, s.bx, s.cx, s.dx, lo, hi, m.bx, m.dx))
      && (s.bx >= s.dx ==> RisingRounded(s.ax, Neg(s.bx), s.cx, Neg(s.dx), lo, hi, Neg(m.bx), Neg(m.dx)))
  {
    LineClipErrors(s, lo, hi);
    ErrorsRound(s, lo, hi, LineClip(s, lo, hi).s);
  }

  lemma ErrorsRound(s: Seg, lo: int, hi: int, m: Seg)
    requires ClipErrors(s, lo, hi, m)
    ensures s.bx <= s.dx ==> RisingRounded(s.ax, s.bx, s.cx, s.dx, lo, hi, m.bx, m.dx)
    ensures s.bx >= s.dx ==> RisingRounded(s.ax, Neg(s.bx), s.cx, Neg(s.dx), lo, hi, Neg(m.bx), Neg(m.dx))
  {
    Mirror(s.ax, s.bx, s.cx, s.dx, lo, hi, m.bx, m.dx, Start(s.ax, lo));
  }

  lemma Mirror(ax: int, bx: int, cx: int, dx: int, lo: int, hi: int, v0: int, v1: int, u0: int)
    ensures (lo - ax) * (-dx - -bx) - (-v0 - -bx) * (cx - ax) == -((lo - ax) * (dx - bx) - (v0 - bx) * (cx - ax))
    ensures (cx - hi) * (-dx - -v0) - (-dx - -v1) * (cx - u0) == -((cx - hi) * (dx - v0) - (dx - v1) * (cx - u0))
  {
  }

  /** One axis of the clip, applied to a visible segment: it accepts, and the other axis still meets
      the integer bounds that the exact segment met. */
  lemma AxisKeepsVisible(s: Seg, r: Rect, t: real)
    requires s.Exact() && s.ax <= s.cx && OnScreen(s, r, t)
    ensures var m := LineClip(s, r.left, r.right);
      && !m.reject
      && (r.top <= m.s.bx || r.top <= m.s.dx) && (m.s.bx <= r.bottom || m.s.dx <= r.bottom)
  {
    OnScreenCrosses(s, r, t);
    LineClipRounds(s, r.left, r.right);
    var m := LineClip(s, r.left, r.right).s;
    if s.bx <= s.dx {
      RisingClipKeepsBounds(s.ax, s.bx, s.cx, s.dx, r.left, r.right, m.bx, m.dx, r.top, r.bottom);
    } else {
      RisingClipKeepsBounds(s.ax, Neg(s.bx), s.cx, Neg(s.dx), r.left, r.right, Neg(m.bx), Neg(m.dx), Neg(r.bottom), Neg(r.top));
    }
  }

  /** The verdict of one axis never depends on the interpolated coordinate, even when a quotient of a
      segment about to be rejected wraps. */
  lemma LineClipVerdict(s: Seg, lo: int16, hi: int16)
    ensures LineClip(s, lo, hi).reject <==>
      (s.ax < lo && s.cx < lo) || ((s.ax > hi || s.ax < lo) && (s.cx > hi || s.cx < lo) && hi < lo)
      || (s.ax > hi && s.cx > hi)
  {
  }

  lemma VisibleReachesBothSides(s: Seg, r: Rect, t: real)
    requires OnScreen(s, r, t)
    ensures (s.ax <= r.right || s.cx <= r.right) && (s.ax >= r.left || s.cx >= r.left) && r.left <= r.right
    ensures (s.bx <= r.bottom || s.dx <= r.bottom) && (s.bx >= r.top || s.dx >= r.top) && r.top <= r.bottom
  {
    OnScreenSwap(s, r, t);
    if s.ax <= s.cx { RisingPoint(s.ax, s.cx - s.ax, t, r.left, r.right); }
    else { RisingPoint(s.cx, s.ax - s.cx, 1.0 - t, r.left, r.right); }
    if s.bx <= s.dx { RisingPoint(s.bx, s.dx - s.bx, t, r.top, r.bottom); }
    else { RisingPoint(s.dx, s.bx - s.dx, 1.0 - t, r.top, r.bottom); }
  }

  /** The verdict of the whole clip, in terms of its stages. */
  lemma ClipVerdict(s: Seg, r: Rect)
    requires s.ax <= r.right || s.cx <= r.right
    requires s.ax >= r.left || s.cx >= r.left
    requires s.bx <= r.bottom || s.dx <= r.bottom
    requires s.bx >= r.top || s.dx >= r.top
    ensures ClipMapLine(s, r).reject <==> XClip(s, r).reject || YClip(XClip(s, r).s, r).reject
  {
  }

  lemma XClipAscending(s: Seg, r: Rect)
    requires s.ax != s.cx || s.bx <= s.dx
    ensures XClip(s, r) == LineClip(if s.ax <= s.cx then s else s.Swap(), r.left, r.right)
  {
  }

  /** No visible line is dropped: whenever the exact segment meets the closed rectangle, the
      clipper accepts it. */
  lemma NoVisibleLineDropped(s: Seg, r: Rect)
    requires s.Exact() && Visible(s, r)
    ensures !ClipMapLine(s, r).reject
  {
    var t: real :| OnScreen(s, r, t);
    VisibleReachesBothSides(s, r, t);
    ClipVerdict(s, r);
    OnScreenSwap(s, r, t);
    if s.ax < s.cx || (s.ax == s.cx && s.bx <= s.dx) {
      AxisKeepsVisible(s, r, t);
      XClipAscending(s, r);
    } else {
      AxisKeepsVisible(s.Swap(), r, 1.0 - t);
      XClipAscending(s.Swap(), r);
    }
    LineClipVerdict(XClip(s, r).s.Turn(), r.top, r.bottom);
  }

  /** The clip does not depend on which endpoint comes first, for every 16-bit input. */
  lemma ClipOrderIndependent(s: Seg, r: Rect)
    ensures ClipMapLine(s, r).reject == ClipMapLine(s.Swap(), r).reject
    ensures !ClipMapLine(s, r).reject ==> ClipMapLine(s, r) == ClipMapLine(s.Swap(), r)
  {
    assert XDescending(s) == XDescending(s.Swap()) || s.ax == s.cx;
    assert s.ax == s.cx ==> YDescending(s) == YDescending(s.Swap());
  }

  /** A segment inside the rectangle is accepted with its own endpoints, for every 16-bit input. */
  lemma InsideUnchanged(s: Seg, r: Rect)
    requires r.Contains(s.ax, s.bx) && r.Contains(s.cx, s.dx)
    ensures !ClipMapLine(s, r).reject
    ensures ClipMapLine(s, r).s == s || ClipMapLine(s, r).s == s.Swap()
  {
  }

  /** The other half of exactness is not promised: a segment that just misses a corner can be
      accepted, because the endpoints are rounded. */
  lemma NearMissAccepted()
    ensures var s, r := Seg(-3, 0, 3, 7), Rect(0, 0, 3, 3);
      !Visible(s, r) && !ClipMapLine(s, r).reject
  {
    var s, r := Seg(-3, 0, 3, 7), Rect(0, 0, 3, 3);
    NearMissX(s, r);
    LineClipVerdict(Seg(3, 0, 7, 3), 0, 3);
    ClipVerdict(s, r);
    forall t: real ensures !OnScreen(s, r, t) { NearMissInvisible(t); }
  }

  lemma NearMissX(s: Seg, r: Rect)
    requires s == Seg(-3, 0, 3, 7) && r == Rect(0, 0, 3, 3)
    ensures XClip(s, r) == Clip(false, Seg(0, 3, 3, 7))
  {
    assert MoveLow(s, 0) == Seg(0, 3, 3, 7);
  }

  lemma NearMissInvisible(t: real)
    ensures !OnScreen(Seg(-3, 0, 3, 7), Rect(0, 0, 3, 3), t)
  {
    assert t * 6.0 == 6.0 * t && t * 7.0 == 7.0 * t;
  }

  /** Outside `Exact` the 16-bit differences wrap, and both promises fail: this line crosses the
      320x200 screen and is dropped... */
  lemma WideLineDropped()
    ensures var s, r := Seg(-16384, 0, 20000, 111), Rect(0, 0, 319, 199);
      Visible(s, r) && ClipMapLine(s, r).reject
  {
    var s, r := Seg(-16384, 0, 20000, 111), Rect(0, 0, 319, 199);
    assert OnScreen(s, r, 0.4504);
    WideLineMoves(s);
    assert XClip(s, r) == Clip(false, Seg(0, -62, 319, -59));
    LineClipVerdict(Seg(-62, 0, -59, 319), 0, 199);
    ClipVerdict(s, r);
  }

  lemma WideLineMoves(s: Seg)
    requires s == Seg(-16384, 0, 20000, 111)
    ensures MoveLow(s, 0) == Seg(0, -62, 20000, 111)
    ensures MoveHigh(Seg(0, -62, 20000, 111), 319) == Seg(0, -62, 319, -59)
  {
    assert I16(36384) == -29152;
    assert TruncDiv(-16384 * -111, -29152) == -62;
    assert TruncDiv(173 * 19681, 20000) == 170;
  }

  /** ...and this one is accepted with an endpoint left of the screen. */
  lemma TallLineEscapes()
    ensures var s, r := Seg(0, -20000, 285, 20000), Rect(0, 0, 319, 199);
      !ClipMapLine(s, r).reject && !r.Contains(ClipMapLine(s, r).s.ax, ClipMapLine(s, r).s.bx)
  {
    var s, r := Seg(0, -20000, 285, 20000), Rect(0, 0, 319, 199);
    assert XClip(s, r) == Clip(false, s);
    TallLineMoves();
    LineClipVerdict(s.Turn(), 0, 199);
    ClipVerdict(s, r);
    TallLineFirst(r);
  }

  lemma TallLineFirst(r: Rect)
    requires r == Rect(0, 0, 319, 199)
    ensures LineClip(Seg(-20000, 0, 20000, 285), r.top, r.bottom).s.bx == -223
  {
    TallLineMoves();
    HighKeepsFirst(Seg(0, -223, 20000, 285), r.bottom);
  }

  lemma TallLineMoves()
    ensures MoveLow(Seg(-20000, 0, 20000, 285), 0) == Seg(0, -223, 20000, 285)
  {
    assert I16(40000) == -25536;
    assert TruncDiv(-20000 * -285, -25536) == -223;
  }

  lemma HighKeepsFirst(s: Seg, hi: int16)
    ensures HighStage(s, hi).ax == s.ax && HighStage(s, hi).bx == s.bx
  {
  }
}
