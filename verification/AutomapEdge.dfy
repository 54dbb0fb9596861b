/** A map edge end to end: project to the screen, clip to the map rectangle, rasterise
    (roth_c/src/engine/automap.c). */
module AutomapEdge {
  import opened MachineInt
  import opened AutomapClip
  import opened AutomapDraw

  /** The map rectangle lies in the buffer, and is small enough for the 16-bit sign test. */
  ghost predicate Fits(r: Rect, pitch: int, size: nat) {
    && 0 <= r.left && 0 <= r.top
    && (r.left <= r.right && r.top <= r.bottom ==>
          r.right - r.left <= 0x4000 && r.bottom - r.top <= 0x4000 && 0 <= pitch && r.bottom * pitch + r.right < size)
  }

  /** Buffer offset `o` is a pixel of the rectangle. */
  ghost predicate PixelOf(o: int, r: Rect, pitch: int) {
    exists x: int, y: int :: r.Contains(x, y) && IsOffset(o, x, y, pitch)
  }

  predicate IsOffset(o: int, x: int, y: int, pitch: int) { o == y * pitch + x }

  /** Pixel `k` of an accepted segment is a pixel of the rectangle, and is mapped. */
  lemma AcceptedPixel(s: Seg, r: Rect, pitch: int, size: nat, k: nat)
    requires s.Exact() && Fits(r, pitch, size) && !ClipMapLine(s, r).reject
    requires k <= Plan(ClipMapLine(s, r).s).M
    ensures var o := Plan(ClipMapLine(s, r).s).Offset(pitch, k); 0 <= o < size && PixelOf(o, r, pitch)
  {
    var m := ClipMapLine(s, r).s;
    AcceptedInside(s, r);
    PlanInBox(m, k);
    var x, y := Plan(m).X(k), Plan(m).Y(k);
    NoSkew(Plan(m));
    PixelOffset(x, y, r, pitch, size);
    assert IsOffset(Plan(m).Offset(pitch, k), x, y, pitch);
  }

  lemma PixelOffset(x: int, y: int, r: Rect, pitch: int, size: nat)
    requires r.Contains(x, y) && Fits(r, pitch, size)
    ensures 0 <= y * pitch + x < size
  {
    Scale(y, r.bottom, pitch);
  }

  lemma SmallSignSafe(m: Seg, r: Rect)
    requires r.Contains(m.ax, m.bx) && r.Contains(m.cx, m.dx) && 0 <= r.left
    requires r.right - r.left <= 0x4000 && r.bottom - r.top <= 0x4000
    ensures SignSafe(Plan(m).M, Plan(m).m) && 0 <= Plan(m).x
  {
  }

  /** What an edge needs to be drawn: nothing when it is rejected, else a clipped line that can be drawn. */
  ghost predicate Paintable(s: Seg, r: Rect, pitch: int, size: nat) {
    !ClipMapLine(s, r).reject ==> CanDraw(Plan(ClipMapLine(s, r).s), pitch, size)
  }

  /** Whatever the clipper accepts with exact differences can be drawn into a buffer that holds the rectangle. */
  lemma AcceptedDrawable(s: Seg, r: Rect, pitch: int, size: nat)
    requires s.Exact() && Fits(r, pitch, size)
    ensures Paintable(s, r, pitch, size)
  {
    if !ClipMapLine(s, r).reject {
      var m := ClipMapLine(s, r).s;
      AcceptedInside(s, r);
      SmallSignSafe(m, r);
      SafeIsRight(Plan(m).M, Plan(m).m);
      AcceptedPixels(s, r, pitch, size);
    }
  }

  lemma AcceptedPixels(s: Seg, r: Rect, pitch: int, size: nat)
    requires s.Exact() && Fits(r, pitch, size) && !ClipMapLine(s, r).reject
    ensures InBuffer(Plan(ClipMapLine(s, r).s).Offsets(pitch), size)
  {
    var l := Plan(ClipMapLine(s, r).s);
    forall k: nat | k <= l.M ensures 0 <= l.Offset(pitch, k) < size { AcceptedPixel(s, r, pitch, size, k); }
  }

  /** The buffer after drawing one edge. */
  function EdgeImage(buf: seq<bv8>, s: Seg, r: Rect, pitch: int, color: bv8, xor: bool): (image: seq<bv8>)
    requires Paintable(s, r, pitch, |buf|)
    ensures |image| == |buf|
  {
    var c := ClipMapLine(s, r);
    if c.reject then buf else Plot(buf, Plan(c.s).Offsets(pitch), color, xor)
  }

  /** Only pixels of the rectangle are written. */
  lemma EdgeStaysInside(buf: seq<bv8>, s: Seg, r: Rect, pitch: int, color: bv8, xor: bool, o: nat)
    requires s.Exact() && Fits(r, pitch, |buf|) && o < |buf| && !PixelOf(o, r, pitch)
    ensures Paintable(s, r, pitch, |buf|)
    ensures EdgeImage(buf, s, r, pitch, color, xor)[o] == buf[o]
  {
    var c := ClipMapLine(s, r);
    AcceptedDrawable(s, r, pitch, |buf|);
    if !c.reject {
      var offsets := Plan(c.s).Offsets(pitch);
      forall k: nat | k <= Plan(c.s).M ensures offsets[k] != o { AcceptedPixel(s, r, pitch, |buf|, k); }
      PlotFrame(buf, offsets, color, xor, o);
    }
  }

  lemma SameOffsets(a: Line, b: Line, pitch: int)
    requires a.m <= a.M && a.(dir := 0) == b.(dir := 0) && (a.m > 0 ==> a == b)
    ensures a.Offsets(pitch) == b.Offsets(pitch)
  {
    forall k: nat | k <= a.M ensures a.Offset(pitch, k) == b.Offset(pitch, k) {
      MinorRange(a.M, a.m, k);
    }
  }

  /** The picture does not depend on which endpoint comes first, for every edge that can be drawn. */
  lemma EdgeOrderIndependent(buf: seq<bv8>, s: Seg, r: Rect, pitch: int, color: bv8, xor: bool)
    requires Paintable(s, r, pitch, |buf|)
    ensures Paintable(s.Swap(), r, pitch, |buf|)
    ensures EdgeImage(buf, s, r, pitch, color, xor) == EdgeImage(buf, s.Swap(), r, pitch, color, xor)
  {
    ClipOrderIndependent(s, r);
  }

  /** An edge inside the rectangle is drawn as if there were no clipping. */
  lemma EdgeInsideUnclipped(buf: seq<bv8>, s: Seg, r: Rect, pitch: int, color: bv8, xor: bool)
    requires s.Exact() && Fits(r, pitch, |buf|)
    requires r.Contains(s.ax, s.bx) && r.Contains(s.cx, s.dx)
    ensures InBuffer(Plan(s).Offsets(pitch), |buf|) && Paintable(s, r, pitch, |buf|)
    ensures EdgeImage(buf, s, r, pitch, color, xor) == Plot(buf, Plan(s).Offsets(pitch), color, xor)
  {
    InsideUnchanged(s, r);
    AcceptedDrawable(s, r, pitch, |buf|);
    PlanOrderIndependent(s);
    PlanJoins(s);
    SameOffsets(Plan(s), Plan(ClipMapLine(s, r).s), pitch);
  }

  /** Drawing an edge twice in XOR mode restores the buffer, for every edge that can be drawn. */
  lemma EdgeTwiceRestores(buf: seq<bv8>, s: Seg, r: Rect, pitch: int, color: bv8)
    requires Paintable(s, r, pitch, |buf|)
    ensures EdgeImage(EdgeImage(buf, s, r, pitch, color, true), s, r, pitch, color, true) == buf
  {
    if !ClipMapLine(s, r).reject { PlotTwiceRestores(buf, Plan(ClipMapLine(s, r).s).Offsets(pitch), color); }
  }

  /** A visible edge always leaves ink: in solid mode at least one pixel of the rectangle has the
      colour. */
  lemma VisibleEdgeLeavesInk(buf: seq<bv8>, s: Seg, r: Rect, pitch: int, color: bv8) returns (o: nat)
    requires s.Exact() && Fits(r, pitch, |buf|) && Visible(s, r)
    ensures o < |buf| && PixelOf(o, r, pitch) && Paintable(s, r, pitch, |buf|)
    ensures EdgeImage(buf, s, r, pitch, color, false)[o] == color
  {
    NoVisibleLineDropped(s, r);
    AcceptedDrawable(s, r, pitch, |buf|);
    AcceptedPixel(s, r, pitch, |buf|, 0);
    var offsets := Plan(ClipMapLine(s, r).s).Offsets(pitch);
    o := offsets[0];
    PlotFrame(buf, offsets, color, false, o);
  }

  // -------------------------------------------------------------------- projection

  /** One projected coordinate: the low 32 bits of the product, shifted right 12 without sign, added
      to the screen centre in 16 bits. */
  function Screen(rel: int16, scale: int, centre: int16): int16 {
    I16(U32(rel * scale) / 0x1000 + centre)
  }

  datatype View = View(scaleX: int, scaleY: int, centreX: int16, centreY: int16) {
    /** The world x axis is mirrored; the y axis is not. */
    function Project(rx0: int16, ry0: int16, rx1: int16, ry1: int16): Seg {
      Seg(Screen(I16(Neg(rx0)), scaleX, centreX), Screen(ry0, scaleY, centreY),
          Screen(I16(Neg(rx1)), scaleX, centreX), Screen(ry1, scaleY, centreY))
    }
  }

  /** The 32-bit product and its unsigned shift do not show: the coordinate is the centre plus the quotient rounded
      down, modulo 2^16, and exactly that where it fits. */
  lemma ScreenExact(rel: int16, scale: int, centre: int16, k: int)
    requires 0x1000 * k <= rel * scale < 0x1000 * k + 0x1000
    ensures (Screen(rel, scale, centre) - (centre + k)) % 0x10000 == 0
    ensures -0x8000 <= centre + k < 0x8000 ==> Screen(rel, scale, centre) == centre + k
  {
    ShiftExact(rel * scale, centre, k);
  }

  lemma ShiftExact(x: int, centre: int16, k: int)
    requires 0x1000 * k <= x < 0x1000 * k + 0x1000
    ensures var y := I16(U32(x) / 0x1000 + centre);
      (y - (centre + k)) % 0x10000 == 0 && (-0x8000 <= centre + k < 0x8000 ==> y == centre + k)
  {
    var q := x / 0x1_0000_0000;
    UnsignedShift(x, k, q);
    SameLowWord(centre + k, q);
  }

  lemma UnsignedShift(x: int, k: int, q: int)
    requires 0x1000 * k <= x < 0x1000 * k + 0x1000 && q == x / 0x1_0000_0000
    ensures U32(x) / 0x1000 == k - 0x10_0000 * q
  {
    var u := x % 0x1_0000_0000;
    assert x == 0x1_0000_0000 * q + u;
  }

  lemma SameLowWord(v: int, q: int)
    ensures I16(v - 0x10_0000 * q) == I16(v)
  {
    assert 0x10_0000 * q == 0x10000 * (0x10 * q);
    assert (v - 0x10000 * (0x10 * q)) % 0x10000 == v % 0x10000;
  }

  /** The map globals an edge reads: the projection, the world centre, the rectangle and the draw
      colour word, whose high byte selects XOR mode when it is 0xff. */
  class MapState {
    var view: View
    var worldCx: int16
    var worldCy: int16
    var rect: Rect
    var color: bv8
    var mode: byte
    const fb: Framebuffer

    constructor (fb: Framebuffer, view: View, rect: Rect)
      ensures this.fb == fb && this.view == view && this.rect == rect
    {
      this.fb, this.view, this.rect := fb, view, rect;
      worldCx, worldCy, color, mode := 0, 0, 0, 0;
    }

    /** The screen segment of a world edge: relative to the world centre in 16 bits, then projected. */
    function ScreenEdge(x0: int16, y0: int16, x1: int16, y1: int16): Seg
      reads this
    {
      view.Project(I16(x0 - worldCx), I16(y0 - worldCy), I16(x1 - worldCx), I16(y1 - worldCy))
    }

    method ProjectEdge(rx0: int16, ry0: int16, rx1: int16, ry1: int16)
      returns (sx0: int16, sy0: int16, sx1: int16, sy1: int16)
      ensures Seg(sx0, sy0, sx1, sy1) == view.Project(rx0, ry0, rx1, ry1)
    {
      var nx0: int, nx1: int := I16(Neg(rx0)), I16(Neg(rx1));
      var ex0, ex1 := U32(nx0 * view.scaleX) / 0x1000, U32(nx1 * view.scaleX) / 0x1000;
      var ey0, ey1 := U32(ry0 as int * view.scaleY) / 0x1000, U32(ry1 as int * view.scaleY) / 0x1000;
      sx0, sy0 := I16(ex0 + view.centreX), I16(ey0 + view.centreY);
      sx1, sy1 := I16(ex1 + view.centreX), I16(ey1 + view.centreY);
    }

    method ClipAndDraw(sx0: int16, sy0: int16, sx1: int16, sy1: int16)
      requires fb.Mapped() && Paintable(Seg(sx0, sy0, sx1, sy1), rect, fb.pitch, fb.pixels.Length)
      modifies fb.pixels
      ensures fb.pixels[..] == EdgeImage(old(fb.pixels[..]), Seg(sx0, sy0, sx1, sy1), rect, fb.pitch, color, mode == 0xff)
    {
      var reject, x0, y0, x1, y1 := ClipLine(sx0, sy0, sx1, sy1, rect);
      if reject { return; }
      fb.DrawLine(x0, y0, x1, y1, color, mode == 0xff);
    }

    /** Scale relative coordinates to the screen, clip, draw. */
    method WorldEdgeTail(rx0: int16, ry0: int16, rx1: int16, ry1: int16)
      requires fb.Mapped() && Paintable(view.Project(rx0, ry0, rx1, ry1), rect, fb.pitch, fb.pixels.Length)
      modifies fb.pixels
      ensures fb.pixels[..] == EdgeImage(old(fb.pixels[..]), view.Project(rx0, ry0, rx1, ry1), rect, fb.pitch, color,
                                          mode == 0xff)
    {
      var sx0, sy0, sx1, sy1 := ProjectEdge(rx0, ry0, rx1, ry1);
      ClipAndDraw(sx0, sy0, sx1, sy1);
    }

    method WorldEdge(x0: int16, y0: int16, x1: int16, y1: int16)
      requires fb.Mapped() && Paintable(ScreenEdge(x0, y0, x1, y1), rect, fb.pitch, fb.pixels.Length)
      modifies fb.pixels
      ensures fb.pixels[..] == EdgeImage(old(fb.pixels[..]), ScreenEdge(x0, y0, x1, y1), rect, fb.pitch, color, mode == 0xff)
    {
      var rx0, ry0 := I16(x0 - worldCx), I16(y0 - worldCy);
      var rx1, ry1 := I16(x1 - worldCx), I16(y1 - worldCy);
      WorldEdgeTail(rx0, ry0, rx1, ry1);
    }
  }

  /** Where a world point is drawn: as many pixels to the left of the screen centre as its x is scaled to the right of
      the world centre, and as many below as its y is scaled above, rounded down -- as first or second endpoint. */
  lemma WorldPoint(m: MapState, x: int16, y: int16, x1: int16, y1: int16, kx: int, ky: int)
    requires -0x8000 < x - m.worldCx < 0x8000 && -0x8000 <= y - m.worldCy < 0x8000
    requires 0x1000 * kx <= (m.worldCx - x) * m.view.scaleX < 0x1000 * kx + 0x1000
    requires 0x1000 * ky <= (y - m.worldCy) * m.view.scaleY < 0x1000 * ky + 0x1000
    requires -0x8000 <= m.view.centreX + kx < 0x8000 && -0x8000 <= m.view.centreY + ky < 0x8000
    ensures var first, second := m.ScreenEdge(x, y, x1, y1), m.ScreenEdge(x1, y1, x, y);
      && first.ax == second.cx == m.view.centreX + kx
      && first.bx == second.dx == m.view.centreY + ky
  {
    ScreenExact(m.worldCx - x, m.view.scaleX, m.view.centreX, kx);
    ScreenExact(y - m.worldCy, m.view.scaleY, m.view.centreY, ky);
  }
}
