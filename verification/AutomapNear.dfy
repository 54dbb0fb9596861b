/** What acceptance by the clipper means: the exact segment comes less than one unit near the rectangle, above or
    below (roth_c/src/engine/automap.c). */
module AutomapNear {
  import opened MachineInt
  import opened AutomapClip

  /** The point a fraction `t` along the exact segment lies between the columns, and less than one unit above or
      below the rows. */
  ghost predicate Near(s: Seg, r: Rect, t: real) {
    NearPoint(s.ax, s.bx, s.cx, s.dx, r.left, r.right, r.top, r.bottom, t)
  }

  ghost predicate NearVisible(s: Seg, r: Rect) { exists t: real :: Near(s, r, t) }

  ghost predicate NearPoint(ax: int, bx: int, cx: int, dx: int, lo: int, hi: int, T: int, B: int, t: real) {
    && 0.0 <= t <= 1.0
    && lo as real <= ax as real + t * (cx - ax) as real <= hi as real
    && (T - 1) as real < bx as real + t * (dx - bx) as real < (B + 1) as real
  }

  /** The same of a rising segment without fractions. */
  predicate RisingNear(ax: int, bx: int, cx: int, dx: int, lo: int, hi: int, T: int, B: int) {
    && ax <= cx && bx <= dx && ax <= hi && lo <= cx && lo <= hi && T <= B && bx <= B && T <= dx
    && EntersBelow(ax, bx, cx, dx, lo, B) && LeavesAbove(ax, bx, cx, dx, hi, T)
  }

  /** A segment that starts left of the columns is below row B + 1 where it enters them... */
  predicate EntersBelow(ax: int, bx: int, cx: int, dx: int, lo: int, B: int) {
    ax < lo ==> (dx - bx) * (lo - ax) < (B + 1 - bx) * (cx - ax)
  }

  /** ...and one that ends right of them is above row T - 1 where it leaves them. */
  predicate LeavesAbove(ax: int, bx: int, cx: int, dx: int, hi: int, T: int) {
    cx > hi ==> (dx - bx) * (cx - hi) < (dx + 1 - T) * (cx - ax)
  }

  // -------------------------------------------------------------- points and integers

  lemma StrictCross(p: int, t: real, span: nat, d: nat, q: int)
    requires p as real <= t * span as real && t * d as real < q as real && 0 < span
    ensures d * p < q * span
  {
    var pr, sr, dr, qr := p as real, span as real, d as real, q as real;
    assert pr * dr <= (t * sr) * dr;
    assert (t * sr) * dr == (t * dr) * sr;
    assert (t * dr) * sr < qr * sr;
    assert (d * p) as real == pr * dr;
    assert (q * span) as real == qr * sr;
  }

  lemma NearIsRising(ax: int, bx: int, cx: int, dx: int, lo: int, hi: int, T: int, B: int, t: real)
    requires NearPoint(ax, bx, cx, dx, lo, hi, T, B, t) && ax <= cx && bx <= dx && T <= B
    ensures RisingNear(ax, bx, cx, dx, lo, hi, T, B)
  {
    RisingPoint(ax, cx - ax, t, lo, hi);
    RowsReached(bx, dx - bx, t, T, B);
    PointEnters(ax, bx, cx, dx, lo, B, t);
    PointLeaves(ax, bx, cx, dx, hi, T, t);
  }

  lemma PointEnters(ax: int, bx: int, cx: int, dx: int, lo: int, B: int, t: real)
    requires ax <= cx && bx <= dx && lo <= cx && lo as real <= ax as real + t * (cx - ax) as real
    requires bx as real + t * (dx - bx) as real < (B + 1) as real
    ensures EntersBelow(ax, bx, cx, dx, lo, B)
  {
    if ax < lo { LowCross(ax, bx, cx - ax, dx - bx, lo, B, t); }
  }

  lemma PointLeaves(ax: int, bx: int, cx: int, dx: int, hi: int, T: int, t: real)
    requires ax <= cx && bx <= dx && ax <= hi && ax as real + t * (cx - ax) as real <= hi as real
    requires (T - 1) as real < bx as real + t * (dx - bx) as real
    ensures LeavesAbove(ax, bx, cx, dx, hi, T)
  {
    if cx > hi { HighCross(ax, bx, cx - ax, dx - bx, hi, T, t); }
  }

  lemma RowsReached(b: int, d: nat, t: real, T: int, B: int)
    requires 0.0 <= t <= 1.0 && (T - 1) as real < b as real + t * d as real < (B + 1) as real
    ensures b <= B && T <= b + d
  {
    Pinch(0.0, t, 1.0, d as real, 0.0, d as real);
  }

  lemma Pinch(t0: real, t: real, t1: real, w: real, e0: real, e1: real)
    requires t0 <= t <= t1 && 0.0 <= w && t0 * w == e0 && t1 * w == e1
    ensures e0 <= t * w <= e1
  {
  }

  lemma LowCross(a: int, b: int, span: nat, d: nat, lo: int, B: int, t: real)
    requires 0 < span && lo as real <= a as real + t * span as real && b as real + t * d as real < (B + 1) as real
    ensures d * (lo - a) < (B + 1 - b) * span
  {
    StrictCross(lo - a, t, span, d, B + 1 - b);
  }

  lemma HighCross(a: int, b: int, span: nat, d: nat, hi: int, T: int, t: real)
    requires 0 < span && a as real + t * span as real <= hi as real && (T - 1) as real < b as real + t * d as real
    ensures d * (a + span - hi) < (b + d + 1 - T) * span
  {
    Complement(t, span as real);
    Complement(t, d as real);
    StrictCross(a + span - hi, 1.0 - t, span, d, b + d + 1 - T);
  }

  lemma Complement(t: real, x: real)
    ensures (1.0 - t) * x == x - t * x
  {
  }

  /** A rising line that is below `upper` first and above `lower` last has a point strictly between. */
  lemma PickPoint(b: real, d: real, t0: real, t1: real, lower: real, mid: real, upper: real) returns (t: real)
    requires 0.0 <= d && t0 <= t1 && lower < mid < upper && b + t0 * d < upper && lower < b + t1 * d
    ensures t0 <= t <= t1 && lower < b + t * d < upper
  {
    if lower < b + t0 * d {
      t := t0;
    } else if b + t1 * d < mid {
      t := t1;
    } else {
      t := HeightAt(b, d, t0, t1, mid);
    }
  }

  lemma HeightAt(b: real, d: real, t0: real, t1: real, y: real) returns (t: real)
    requires t0 <= t1 && b + t0 * d < y <= b + t1 * d && 0.0 <= d
    ensures t0 <= t <= t1 && b + t * d == y
  {
    Slope(t0, t1, d);
    t := (y - b) / d;
    assert t * d == y - b;
    RealOrder(t0, t, d);
    RealOrder(t1, t, d);
  }

  lemma Slope(t0: real, t1: real, d: real)
    requires t0 * d < t1 * d
    ensures d != 0.0
  {
  }

  lemma RealOrder(a: real, b: real, k: real)
    requires 0.0 < k
    ensures a * k < b * k <==> a < b
  {
  }

  lemma RisingHasPoint(ax: int, bx: int, cx: int, dx: int, lo: int, hi: int, T: int, B: int) returns (t: real)
    requires RisingNear(ax, bx, cx, dx, lo, hi, T, B)
    ensures NearPoint(ax, bx, cx, dx, lo, hi, T, B, t)
  {
    var t0 := EnterAt(ax, bx, cx, dx, lo, hi, B);
    var t1 := LeaveAt(ax, bx, cx, dx, lo, hi, T);
    OrderedEnds(ax, cx, lo, hi, t0, t1);
    t := PickOnRows(bx, dx, t0, t1, T, B);
    BetweenEnds(ax, cx, lo, hi, t0, t, t1);
  }

  lemma PickOnRows(bx: int, dx: int, t0: real, t1: real, T: int, B: int) returns (t: real)
    requires bx <= dx && t0 <= t1 && T <= B
    requires bx as real + t0 * (dx - bx) as real < (B + 1) as real
    requires (T - 1) as real < bx as real + t1 * (dx - bx) as real
    ensures t0 <= t <= t1 && (T - 1) as real < bx as real + t * (dx - bx) as real < (B + 1) as real
  {
    t := PickPoint(bx as real, (dx - bx) as real, t0, t1, (T - 1) as real, T as real, (B + 1) as real);
  }

  lemma BetweenEnds(ax: int, cx: int, lo: int, hi: int, t0: real, t: real, t1: real)
    requires ax <= cx && ax <= hi && lo <= cx && t0 <= t <= t1
    requires t0 * (cx - ax) as real == (if ax < lo then lo - ax else 0) as real
    requires t1 * (cx - ax) as real == (if cx > hi then hi - ax else cx - ax) as real
    ensures lo as real <= ax as real + t * (cx - ax) as real <= hi as real
  {
    Pinch(t0, t, t1, (cx - ax) as real, (if ax < lo then lo - ax else 0) as real, (if cx > hi then hi - ax else cx - ax) as real);
  }

  /** The fraction at which the segment enters the columns. */
  lemma EnterAt(ax: int, bx: int, cx: int, dx: int, lo: int, hi: int, B: int) returns (t0: real)
    requires ax <= cx && bx <= dx && ax <= hi && lo <= cx && lo <= hi && bx <= B
    requires ax < lo ==> (dx - bx) * (lo - ax) < (B + 1 - bx) * (cx - ax)
    ensures 0.0 <= t0 <= 1.0 && bx as real + t0 * (dx - bx) as real < (B + 1) as real
    ensures t0 * (cx - ax) as real == (if ax < lo then lo - ax else 0) as real && (ax >= lo ==> t0 == 0.0)
  {
    if ax < lo {
      t0 := FractionBelow(lo - ax, cx - ax, dx - bx, B + 1 - bx);
    } else {
      t0 := 0.0;
    }
  }

  /** ...and leaves them. */
  lemma LeaveAt(ax: int, bx: int, cx: int, dx: int, lo: int, hi: int, T: int) returns (t1: real)
    requires ax <= cx && bx <= dx && ax <= hi && lo <= cx && lo <= hi && T <= dx
    requires cx > hi ==> (dx - bx) * (cx - hi) < (dx + 1 - T) * (cx - ax)
    ensures 0.0 <= t1 <= 1.0 && (T - 1) as real < bx as real + t1 * (dx - bx) as real
    ensures t1 * (cx - ax) as real == (if cx > hi then hi - ax else cx - ax) as real && (cx <= hi ==> t1 == 1.0)
  {
    if cx > hi {
      var u := FractionBelow(cx - hi, cx - ax, dx - bx, dx + 1 - T);
      t1 := 1.0 - u;
      assert t1 * (dx - bx) as real == (dx - bx) as real - u * (dx - bx) as real;
      assert t1 * (cx - ax) as real == (cx - ax) as real - u * (cx - ax) as real;
    } else {
      t1 := 1.0;
    }
  }

  lemma FractionBelow(p: nat, span: nat, d: nat, q: int) returns (t: real)
    requires p <= span && 0 < span && d * p < q * span
    ensures 0.0 <= t <= 1.0 && t * span as real == p as real && t * d as real < q as real
  {
    ProductReal(d, p);
    ProductReal(q, span);
    t := FractionReal(p as real, span as real, d as real, q as real);
  }

  lemma ProductReal(a: int, b: int)
    ensures (a * b) as real == a as real * b as real
  {
  }

  lemma FractionReal(p: real, span: real, d: real, q: real) returns (t: real)
    requires 0.0 <= p <= span && 0.0 < span && d * p < q * span
    ensures 0.0 <= t <= 1.0 && t * span == p && t * d < q
  {
    t := p / span;
    assert t * span == p;
    RealOrder(1.0, t, span);
    RealOrder(t, 0.0, span);
    RegroupReal(t, d, span);
    RealOrder(t * d, q, span);
  }

  lemma RegroupReal(t: real, d: real, span: real)
    ensures (t * d) * span == d * (t * span)
  {
  }

  lemma OrderedEnds(ax: int, cx: int, lo: int, hi: int, t0: real, t1: real)
    requires ax <= cx && ax <= hi && lo <= cx && lo <= hi && 0.0 <= t0 <= 1.0 && 0.0 <= t1 <= 1.0
    requires t0 * (cx - ax) as real == (if ax < lo then lo - ax else 0) as real && (ax >= lo ==> t0 == 0.0)
    requires t1 * (cx - ax) as real == (if cx > hi then hi - ax else cx - ax) as real && (cx <= hi ==> t1 == 1.0)
    ensures t0 <= t1
  {
    if ax < lo && cx > hi {
      RealOrder(t1, t0, (cx - ax) as real);
    }
  }

  // ------------------------------------------------------------------ what the clip accepts

  /** Rounded down to a whole number is at most `n` exactly when it is less than `n + 1`. */
  lemma FloorAtMost(q: int, num: int, den: int, n: int)
    requires 0 < den && 0 <= num - q * den < den
    ensures q <= n <==> num < (n + 1) * den
  {
    if q <= n { Scale(q + 1, n + 1, den); }
    else { Scale(n + 1, q, den); }
  }

  /** The clipped heights are on the right sides of the rows only for a segment that is near the rectangle... */
  lemma AcceptedRising(ax: int, bx: int, cx: int, dx: int, lo: int, hi: int, v0: int, v1: int, T: int, B: int)
    requires RisingRounded(ax, bx, cx, dx, lo, hi, v0, v1)
    requires ax <= cx && bx <= dx && ax <= hi && lo <= cx && lo <= hi && T <= B && bx <= v0 && v1 <= dx
    requires T <= v1 && v0 <= B
    ensures RisingNear(ax, bx, cx, dx, lo, hi, T, B)
  {
    if ax < lo { FloorAtMost(v0 - bx, (lo - ax) * (dx - bx), cx - ax, B - bx); }
    if cx > hi {
      if ax < lo { HighNearBoth(ax, bx, cx, dx, lo, hi, v0, v1, T); }
      else { FloorAtMost(dx - v1, (cx - hi) * (dx - bx), cx - ax, dx - T); }
    }
  }

  lemma HighNearBoth(ax: int, bx: int, cx: int, dx: int, lo: int, hi: int, v0: int, v1: int, T: int)
    requires ax < lo <= hi < cx && bx <= dx && T <= v1
    requires 0 <= (lo - ax) * (dx - bx) - (v0 - bx) * (cx - ax)
    requires 0 <= (cx - hi) * (dx - v0) - (dx - v1) * (cx - lo) < cx - lo
    ensures (dx - bx) * (cx - hi) < (dx + 1 - T) * (cx - ax)
  {
    FloorAtMost(dx - v1, (cx - hi) * (dx - v0), cx - lo, dx - T);
    HeightLeft(v0 - bx, dx - bx, cx - ax);
    BothEnds(dx - bx, cx - ax, cx - lo, cx - hi, dx - v0, dx - T, (v0 - bx) * (cx - ax));
  }

  lemma HeightLeft(low: int, d: int, span: int)
    ensures (d - low) * span == d * span - low * span
  {
  }

  /** `w` is the height above the low clip, `n` the height allowed below the top end, `low` the rise the low clip
      took off, which is no more than the true one. */
  lemma BothEnds(d: nat, span: int, rest: int, over: int, w: int, n: int, low: int)
    requires 0 < over <= rest < span && over * w < (n + 1) * rest
    requires low <= (span - rest) * d && w * span == d * span - low
    ensures d * over < (n + 1) * span
  {
    assert w * span >= d * rest by { assert (span - rest) * d == d * span - d * rest; }
    Scale(d * rest, w * span, over);
    Strictly(over * w, (n + 1) * rest, span);
    assert (d * rest) * over == (d * over) * rest && (w * span) * over == (over * w) * span;
    assert ((n + 1) * rest) * span == ((n + 1) * span) * rest;
    Cancel(d * over, (n + 1) * span, rest);
  }

  lemma Strictly(a: int, b: int, k: int)
    requires a < b && 0 < k
    ensures a * k < b * k
  {
  }

  /** ...and of a segment that crosses no more than one of the two columns, for every one that is near. */
  lemma NearAccepted(ax: int, bx: int, cx: int, dx: int, lo: int, hi: int, v0: int, v1: int, T: int, B: int)
    requires RisingRounded(ax, bx, cx, dx, lo, hi, v0, v1) && RisingNear(ax, bx, cx, dx, lo, hi, T, B)
    requires lo <= ax || cx <= hi
    ensures T <= v1 && v0 <= B
  {
    if ax < lo { FloorAtMost(v0 - bx, (lo - ax) * (dx - bx), cx - ax, B - bx); }
    if cx > hi { FloorAtMost(dx - v1, (cx - hi) * (dx - v0), cx - ax, dx - T); }
  }

  // -------------------------------------------------------------------- the whole clip

  /** Neither pair of opposite sides has the whole segment beyond one of them. */
  predicate Spans(s: Seg, r: Rect) {
    && (s.ax >= r.left || s.cx >= r.left) && (s.ax <= r.right || s.cx <= r.right)
    && (s.bx >= r.top || s.dx >= r.top) && (s.bx <= r.bottom || s.dx <= r.bottom)
  }

  lemma RejectedOutside(s: Seg, r: Rect)
    requires !Spans(s, r)
    ensures ClipMapLine(s, r).reject
  {
  }

  /** The verdict on a segment that ascends, by the heights after the x clip. */
  lemma VerdictByHeights(s: Seg, r: Rect)
    requires s.ax < s.cx || (s.ax == s.cx && s.bx <= s.dx)
    ensures var m := LineClip(s, r.left, r.right).s;
      !ClipMapLine(s, r).reject <==>
        && Spans(s, r) && r.left <= r.right && r.top <= r.bottom
        && (m.bx >= r.top || m.dx >= r.top) && (m.bx <= r.bottom || m.dx <= r.bottom)
  {
    XClipAscending(s, r);
    LineClipVerdict(s, r.left, r.right);
    var m := LineClip(s, r.left, r.right).s;
    LineClipVerdict(m.Turn(), r.top, r.bottom);
    if Spans(s, r) { ClipVerdict(s, r); } else { RejectedOutside(s, r); }
  }

  /** The rising form of a segment whose second axis falls. */
  lemma FlipNear(ax: int, bx: int, cx: int, dx: int, lo: int, hi: int, T: int, B: int, t: real)
    ensures NearPoint(ax, bx, cx, dx, lo, hi, T, B, t) <==> NearPoint(ax, Neg(bx), cx, Neg(dx), lo, hi, Neg(B), Neg(T), t)
  {
    assert (Neg(dx) - Neg(bx)) as real == -((dx - bx) as real);
    assert t * -((dx - bx) as real) == -(t * (dx - bx) as real);
  }

  lemma NearSwap(s: Seg, r: Rect, t: real)
    requires Near(s, r, t)
    ensures Near(s.Swap(), r, 1.0 - t)
  {
    var dx, dy := (s.cx - s.ax) as real, (s.dx - s.bx) as real;
    assert (s.ax - s.cx) as real == -dx && (s.bx - s.dx) as real == -dy;
    assert (1.0 - t) * -dx == -dx + t * dx;
    assert (1.0 - t) * -dy == -dy + t * dy;
  }

  lemma ClippedOrder(s: Seg, lo: int16, hi: int16)
    requires s.Exact() && s.ax <= s.cx && !LineClip(s, lo, hi).reject
    ensures var m := LineClip(s, lo, hi).s;
      (s.bx <= s.dx ==> s.bx <= m.bx <= m.dx <= s.dx) && (s.bx >= s.dx ==> s.bx >= m.bx >= m.dx >= s.dx)
  {
    LineClipStages(s, lo, hi);
    var s1 := LowStage(s, lo);
    LowStageFacts(s, lo);
    HighStageFacts(s1, hi);
  }

  lemma AscendingNear(s: Seg, r: Rect)
    requires s.Exact() && (s.ax < s.cx || (s.ax == s.cx && s.bx <= s.dx)) && !ClipMapLine(s, r).reject
    ensures NearVisible(s, r)
  {
    VerdictByHeights(s, r);
    LineClipRounds(s, r.left, r.right);
    ClippedOrder(s, r.left, r.right);
    var m, t := LineClip(s, r.left, r.right).s, 0.0;
    if s.bx <= s.dx {
      AcceptedRising(s.ax, s.bx, s.cx, s.dx, r.left, r.right, m.bx, m.dx, r.top, r.bottom);
      t := RisingHasPoint(s.ax, s.bx, s.cx, s.dx, r.left, r.right, r.top, r.bottom);
    } else {
      AcceptedRising(s.ax, Neg(s.bx), s.cx, Neg(s.dx), r.left, r.right, Neg(m.bx), Neg(m.dx), Neg(r.bottom), Neg(r.top));
      t := RisingHasPoint(s.ax, Neg(s.bx), s.cx, Neg(s.dx), r.left, r.right, Neg(r.bottom), Neg(r.top));
      FlipNear(s.ax, s.bx, s.cx, s.dx, r.left, r.right, r.top, r.bottom, t);
    }
    assert Near(s, r, t);
  }

  lemma AscendingAccepted(s: Seg, r: Rect, t: real)
    requires s.Exact() && (s.ax < s.cx || (s.ax == s.cx && s.bx <= s.dx)) && r.top <= r.bottom && Near(s, r, t)
    requires r.left <= s.ax || s.cx <= r.right
    ensures !ClipMapLine(s, r).reject
  {
    var m := LineClip(s, r.left, r.right).s;
    if s.bx <= s.dx {
      NearIsRising(s.ax, s.bx, s.cx, s.dx, r.left, r.right, r.top, r.bottom, t);
      LineClipRounds(s, r.left, r.right);
      NearAccepted(s.ax, s.bx, s.cx, s.dx, r.left, r.right, m.bx, m.dx, r.top, r.bottom);
    } else {
      FlipNear(s.ax, s.bx, s.cx, s.dx, r.left, r.right, r.top, r.bottom, t);
      NearIsRising(s.ax, Neg(s.bx), s.cx, Neg(s.dx), r.left, r.right, Neg(r.bottom), Neg(r.top), t);
      LineClipRounds(s, r.left, r.right);
      NearAccepted(s.ax, Neg(s.bx), s.cx, Neg(s.dx), r.left, r.right, Neg(m.bx), Neg(m.dx), Neg(r.bottom), Neg(r.top));
    }
    VerdictByHeights(s, r);
  }

  predicate Ascends(s: Seg) { s.ax < s.cx || (s.ax == s.cx && s.bx <= s.dx) }

  /** Whatever the clipper accepts comes less than one unit near: the exact segment has a point between the
      columns and strictly between the rows top - 1 and bottom + 1. */
  lemma AcceptedIsNear(s: Seg, r: Rect)
    requires s.Exact() && !ClipMapLine(s, r).reject
    ensures NearVisible(s, r)
  {
    if Ascends(s) {
      AscendingNear(s, r);
    } else {
      ClipOrderIndependent(s, r);
      AscendingNear(s.Swap(), r);
      var t: real :| Near(s.Swap(), r, t);
      NearSwap(s.Swap(), r, t);
    }
  }

  /** A segment that crosses at most one of the two columns is accepted if and only if it comes that near. */
  lemma OneColumnExact(s: Seg, r: Rect)
    requires s.Exact() && r.top <= r.bottom
    requires (r.left <= s.ax && r.left <= s.cx) || (s.ax <= r.right && s.cx <= r.right)
    ensures !ClipMapLine(s, r).reject <==> NearVisible(s, r)
  {
    if !ClipMapLine(s, r).reject {
      AcceptedIsNear(s, r);
    }
    if NearVisible(s, r) {
      var t: real :| Near(s, r, t);
      if Ascends(s) {
        AscendingAccepted(s, r, t);
      } else {
        NearSwap(s, r, t);
        AscendingAccepted(s.Swap(), r, 1.0 - t);
        ClipOrderIndependent(s, r);
      }
    }
  }

  // ------------------------------------------------------------- inside both columns

  predicate BetweenColumns(s: Seg, r: Rect) { r.left <= s.ax <= r.right && r.left <= s.cx <= r.right }

  lemma ColumnsVerdict(s: Seg, r: Rect)
    requires BetweenColumns(s, r)
    ensures !ClipMapLine(s, r).reject <==> Spans(s, r) && r.top <= r.bottom
  {
    if Ascends(s) {
      VerdictByHeights(s, r);
    } else {
      ClipOrderIndependent(s, r);
      VerdictByHeights(s.Swap(), r);
    }
  }

  lemma ColumnsPoint(s: Seg, r: Rect, t: real)
    requires BetweenColumns(s, r) && 0.0 <= t <= 1.0
    ensures r.left as real <= s.ax as real + t * (s.cx - s.ax) as real <= r.right as real
  {
    Mix(s.ax as real, s.cx as real, t, r.left as real, r.right as real);
    assert (s.cx - s.ax) as real == s.cx as real - s.ax as real;
  }

  lemma Mix(a: real, c: real, t: real, lo: real, hi: real)
    requires lo <= a <= hi && lo <= c <= hi && 0.0 <= t <= 1.0
    ensures lo <= a + t * (c - a) <= hi
  {
    if a <= c {
      Pinch(0.0, t, 1.0, c - a, 0.0, c - a);
    } else {
      Pinch(0.0, t, 1.0, a - c, 0.0, a - c);
      NegTimes(t, a - c, c - a);
    }
  }

  lemma NegTimes(t: real, v: real, w: real)
    requires w == -v
    ensures t * w == -(t * v)
  {
  }

  /** A segment between the columns is accepted if and only if it is visible -- for every 16-bit input, also when
      its differences wrap: no interpolation is ever made before the verdict. */
  lemma ColumnsExact(s: Seg, r: Rect)
    requires BetweenColumns(s, r)
    ensures !ClipMapLine(s, r).reject <==> Visible(s, r)
  {
    ColumnsVerdict(s, r);
    if Visible(s, r) {
      var t: real :| OnScreen(s, r, t);
      VisibleReachesBothSides(s, r, t);
    }
    if Spans(s, r) && r.top <= r.bottom { ColumnsVisible(s, r); }
  }

  lemma ColumnsVisible(s: Seg, r: Rect)
    requires BetweenColumns(s, r) && Spans(s, r) && r.top <= r.bottom
    ensures Visible(s, r)
  {
    var t := RowPoint(s.bx, s.dx, r.top, r.bottom);
    ColumnsPoint(s, r, t);
    assert OnScreen(s, r, t);
  }

  lemma RowPoint(b: int, d: int, T: int, B: int) returns (t: real)
    requires T <= B && (b >= T || d >= T) && (b <= B || d <= B)
    ensures 0.0 <= t <= 1.0 && T as real <= b as real + t * (d - b) as real <= B as real
  {
    var w := (d - b) as real;
    if T <= b <= B {
      t := 0.0;
    } else if b < T {
      t := HeightAt(b as real, w, 0.0, 1.0, T as real);
    } else {
      t := HeightAt(-(b as real), -w, 0.0, 1.0, -(B as real));
      NegTimes(t, -w, w);
    }
  }

  // ----------------------------------------------- where wrapping differences do no harm

  /** A number that differs from a word by a multiple of 2^16 reads as that word. */
  lemma ReadsAs(a: int, b: int16)
    requires (a - b) % 0x10000 == 0
    ensures I16(a) == b
  {
  }

  lemma WrapsBack(b: int16, d: int16)
    ensures I16(b + I16(Neg(I16(b - d)))) == d
    ensures I16(d - I16(I16(d - b))) == b
  {
    ReadsAs(b + I16(Neg(I16(b - d))), d);
    ReadsAs(d - I16(I16(d - b)), b);
  }

  /** A horizontal segment keeps its height in the x clip, whatever its length. */
  lemma FlatClip(s: Seg, lo: int16, hi: int16)
    requires s.bx == s.dx
    ensures var m := LineClip(s, lo, hi).s; m.bx == s.bx && m.dx == s.bx
  {
    ZeroStep(Ascending(s), lo);
    ZeroStepHigh(LowStage(Ascending(s), lo), hi);
  }

  lemma ZeroStep(s: Seg, lo: int16)
    requires s.bx == s.dx
    ensures LowStage(s, lo).bx == s.bx && LowStage(s, lo).dx == s.dx
  {
    if s.ax < lo && s.ax != s.cx { assert TruncDiv(0, I16(s.cx - s.ax)) == 0; }
  }

  lemma ZeroStepHigh(s: Seg, hi: int16)
    requires s.bx == s.dx
    ensures HighStage(s, hi).bx == s.bx && HighStage(s, hi).dx == s.dx
  {
    if s.cx > hi && s.ax != s.cx { assert TruncDiv(0, I16(s.cx - s.ax)) == 0; }
  }

  /** A segment one column wide is clipped onto its other endpoint, whatever its height. */
  lemma NarrowLow(s: Seg)
    requires s.cx == s.ax + 1
    ensures MoveLow(s, s.cx) == Seg(s.cx, s.dx, s.cx, s.dx)
  {
    assert TruncDiv(-1 * I16(s.bx - s.dx), 1) == Neg(I16(s.bx - s.dx));
    WrapsBack(s.bx, s.dx);
  }

  lemma NarrowHigh(s: Seg)
    requires s.cx == s.ax + 1
    ensures MoveHigh(s, s.ax) == Seg(s.ax, s.bx, s.ax, s.bx)
  {
    assert TruncDiv(I16(s.dx - s.bx) * 1, 1) == I16(s.dx - s.bx);
    WrapsBack(s.bx, s.dx);
  }

  predicate FlatOrNarrow(s: Seg) { s.bx == s.dx || Abs(s.cx - s.ax) <= 1 }

  lemma AscendingFlatOrNarrow(s: Seg, r: Rect, t: real)
    requires Ascends(s) && FlatOrNarrow(s) && OnScreen(s, r, t)
    ensures !ClipMapLine(s, r).reject
  {
    VisibleReachesBothSides(s, r, t);
    if s.bx == s.dx {
      FlatClip(s, r.left, r.right);
      VerdictByHeights(s, r);
    } else if BetweenColumns(s, r) {
      ColumnsExact(s, r);
    } else {
      EndIsVisible(s, r, t);
      NarrowEnds(s, r);
      VerdictByHeights(s, r);
    }
  }

  /** Only one endpoint of such a segment can be between the columns, and it is the visible point. */
  predicate EndVisible(s: Seg, r: Rect) {
    if s.ax < r.left then r.left == s.cx && r.top <= s.dx <= r.bottom else r.right == s.ax && r.top <= s.bx <= r.bottom
  }

  lemma EndIsVisible(s: Seg, r: Rect, t: real)
    requires s.cx == s.ax + 1 && OnScreen(s, r, t) && !BetweenColumns(s, r)
    ensures EndVisible(s, r)
  {
    assert (s.cx - s.ax) as real == 1.0 && t * 1.0 == t;
    assert t == if s.ax < r.left then 1.0 else 0.0;
  }

  lemma NarrowEnds(s: Seg, r: Rect)
    requires s.cx == s.ax + 1 && EndVisible(s, r)
    ensures var m := LineClip(s, r.left, r.right).s; m.bx == m.dx && r.top <= m.bx <= r.bottom
  {
    if s.ax < r.left { NarrowLow(s); } else { NarrowHigh(s); }
  }

  /** A visible segment that is horizontal, or no more than one column wide, is never dropped -- for every 16-bit
      input, also when its differences wrap. */
  lemma FlatOrNarrowKept(s: Seg, r: Rect)
    requires FlatOrNarrow(s) && Visible(s, r)
    ensures !ClipMapLine(s, r).reject
  {
    var t: real :| OnScreen(s, r, t);
    if Ascends(s) {
      AscendingFlatOrNarrow(s, r, t);
    } else {
      OnScreenSwap(s, r, t);
      AscendingFlatOrNarrow(s.Swap(), r, 1.0 - t);
      ClipOrderIndependent(s, r);
    }
  }
}
