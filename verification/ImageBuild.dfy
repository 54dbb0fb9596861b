/** The data-image loader -- zero fill, owned overlay, relocation -- and the masked comparator that checks
    it (roth_c/src/data/obj3_build.c, roth_c/src/data/obj3_owned.c). */
module ImageBuild {
  import opened MachineInt

  /** An owned region: its offset in the image, its bytes, and the region-relative offsets of the
      relocation slots it declares. */
  datatype Owned = Owned(off: nat, bytes: seq<byte>, slots: seq<nat>)

  /** A relocation: the four bytes at `slot` point to offset `off` of object `obj`. */
  datatype Reloc = Reloc(slot: nat, obj: nat, off: uint32)

  // ---------------------------------------------------------------------- specification

  function Target(r: Reloc, base: seq<uint32>): uint32
    requires r.obj < |base|
  {
    U32(base[r.obj] + r.off)
  }

  function ByteOf(v: uint32, k: nat): byte {
    if k == 0 then v % 0x100 else if k == 1 then v / 0x100 % 0x100
    else if k == 2 then v / 0x10000 % 0x100 else v / 0x100_0000 % 0x100
  }

  /** The little-endian dword at `o`. */
  function Dword(img: seq<byte>, o: nat): int
    requires o + 4 <= |img|
  {
    img[o] as int + 0x100 * img[o + 1] as int + 0x10000 * img[o + 2] as int + 0x100_0000 * img[o + 3] as int
  }

  function Overlay(img: seq<byte>, o: Owned): (r: seq<byte>)
    requires o.off + |o.bytes| <= |img|
    ensures |r| == |img|
  {
    img[..o.off] + o.bytes + img[o.off + |o.bytes|..]
  }

  function Patch(img: seq<byte>, r: Reloc, base: seq<uint32>): (p: seq<byte>)
    requires r.slot + 4 <= |img| && r.obj < |base|
    ensures |p| == |img|
  {
    var v := Target(r, base);
    img[r.slot := ByteOf(v, 0)][r.slot + 1 := ByteOf(v, 1)][r.slot + 2 := ByteOf(v, 2)][r.slot + 3 := ByteOf(v, 3)]
  }

  predicate TableFits(tab: seq<Owned>, size: nat) { forall o <- tab :: o.off + |o.bytes| <= size }

  predicate RelocsFit(rs: seq<Reloc>, size: nat, objects: nat) { forall r <- rs :: r.slot + 4 <= size && r.obj < objects }

  /** The image after the first regions and relocations: later entries overwrite earlier ones. */
  function Overlaid(size: nat, tab: seq<Owned>): (img: seq<byte>)
    requires TableFits(tab, size)
    ensures |img| == size
  {
    if tab == [] then seq(size, _ => 0) else Overlay(Overlaid(size, tab[..|tab| - 1]), tab[|tab| - 1])
  }

  function Relocated(img: seq<byte>, rs: seq<Reloc>, base: seq<uint32>): (r: seq<byte>)
    requires RelocsFit(rs, |img|, |base|)
    ensures |r| == |img|
  {
    if rs == [] then img else Patch(Relocated(img, rs[..|rs| - 1], base), rs[|rs| - 1], base)
  }

  function Image(size: nat, tab: seq<Owned>, rs: seq<Reloc>, base: seq<uint32>): (img: seq<byte>)
    requires TableFits(tab, size) && RelocsFit(rs, size, |base|)
    ensures |img| == size
  {
    Relocated(Overlaid(size, tab), rs, base)
  }

  // -------------------------------------------------------------------------- the manifest

  predicate InRegion(o: Owned, p: int) { o.off <= p < o.off + |o.bytes| }

  predicate InSlot(r: Reloc, p: int) { r.slot <= p < r.slot + 4 }

  /** Owned regions do not overlap, nor do relocation slots. */
  ghost predicate Separate(tab: seq<Owned>, rs: seq<Reloc>) {
    && (forall i, j, p | 0 <= i < j < |tab| && InRegion(tab[i], p) :: !InRegion(tab[j], p))
    && (forall i, j, p | 0 <= i < j < |rs| && InSlot(rs[i], p) :: !InSlot(rs[j], p))
  }

  /** Every relocation slot that meets a region is declared by it. */
  ghost predicate Declared(tab: seq<Owned>, rs: seq<Reloc>) {
    forall o <- tab, r <- rs :: forall p | InRegion(o, p) && InSlot(r, p) :: Masked(o, p - o.off)
  }

  /** Byte `b` of the region is in a declared slot. */
  predicate Masked(o: Owned, b: int) { exists k | 0 <= k < |o.slots| :: o.slots[k] <= b < o.slots[k] + 4 }

  // ------------------------------------------------------------------- what the image holds

  lemma OverlayAt(img: seq<byte>, o: Owned, p: nat)
    requires o.off + |o.bytes| <= |img| && p < |img|
    ensures Overlay(img, o)[p] == if InRegion(o, p) then o.bytes[p - o.off] else img[p]
  {
  }

  lemma {:induction false} OverlaidAt(size: nat, tab: seq<Owned>, i: int, p: nat)
    requires TableFits(tab, size) && p < size && Separate(tab, [])
    requires -1 <= i < |tab| && (if i < 0 then forall o <- tab :: !InRegion(o, p) else InRegion(tab[i], p))
    ensures Overlaid(size, tab)[p] == if i < 0 then 0 else tab[i].bytes[p - tab[i].off]
  {
    if tab != [] {
      var init, last := tab[..|tab| - 1], tab[|tab| - 1];
      assert last in tab;
      OverlayAt(Overlaid(size, init), last, p);
      if i < |tab| - 1 { OverlaidAt(size, init, i, p); }
    }
  }

  lemma {:induction false} RelocatedAt(img: seq<byte>, rs: seq<Reloc>, base: seq<uint32>, i: int, p: nat)
    requires RelocsFit(rs, |img|, |base|) && p < |img| && Separate([], rs)
    requires -1 <= i < |rs| && (if i < 0 then forall r <- rs :: !InSlot(r, p) else InSlot(rs[i], p))
    ensures Relocated(img, rs, base)[p] == if i < 0 then img[p] else ByteOf(Target(rs[i], base), p - rs[i].slot)
  {
    if rs != [] && i < |rs| - 1 {
      var init, last := rs[..|rs| - 1], rs[|rs| - 1];
      assert last in rs;
      RelocatedAt(img, init, base, i, p);
      assert !InSlot(last, p);
    }
  }

  lemma DwordOfBytes(v: uint32)
    ensures ByteOf(v, 0) as int + 0x100 * ByteOf(v, 1) as int + 0x10000 * ByteOf(v, 2) as int
       + 0x100_0000 * ByteOf(v, 3) as int == v
  {
    assert v == v % 0x100 + 0x100 * (v / 0x100) && v / 0x100 == v / 0x100 % 0x100 + 0x100 * (v / 0x10000);
    assert v / 0x10000 == v / 0x10000 % 0x100 + 0x100 * (v / 0x100_0000);
  }

  /** Every relocation slot decodes to the base of its object plus its offset, modulo 2^32. */
  lemma SlotDecodes(size: nat, tab: seq<Owned>, rs: seq<Reloc>, base: seq<uint32>, i: nat)
    requires TableFits(tab, size) && RelocsFit(rs, size, |base|) && Separate(tab, rs) && i < |rs|
    ensures rs[i] in rs && Dword(Image(size, tab, rs, base), rs[i].slot) == (base[rs[i].obj] + rs[i].off) % 0x1_0000_0000
  {
    assert rs[i] in rs;
    var s := rs[i].slot;
    RelocatedAt(Overlaid(size, tab), rs, base, i, s);
    RelocatedAt(Overlaid(size, tab), rs, base, i, s + 1);
    RelocatedAt(Overlaid(size, tab), rs, base, i, s + 2);
    RelocatedAt(Overlaid(size, tab), rs, base, i, s + 3);
    DwordOfBytes(Target(rs[i], base));
  }

  /** So when the base of its object moves by `d`, the pointer in a slot moves by `d` modulo 2^32, and it stays when the
      base does, whatever the other bases do. */
  lemma BasesMoveSlots(size: nat, tab: seq<Owned>, rs: seq<Reloc>, base: seq<uint32>, base': seq<uint32>, i: nat, d: int)
    requires TableFits(tab, size) && RelocsFit(rs, size, |base|) && RelocsFit(rs, size, |base'|) && Separate(tab, rs)
    requires i < |rs| && rs[i].obj < |base| && rs[i].obj < |base'|
    requires base'[rs[i].obj] == (base[rs[i].obj] + d) % 0x1_0000_0000
    ensures rs[i].slot + 4 <= size
    ensures Dword(Image(size, tab, rs, base'), rs[i].slot)
      == (Dword(Image(size, tab, rs, base), rs[i].slot) + d) % 0x1_0000_0000
  {
    SlotDecodes(size, tab, rs, base, i);
    SlotDecodes(size, tab, rs, base', i);
    var b, o := base[rs[i].obj], rs[i].off;
    WrapsOnce(b + d, o);
    WrapsOnce(b + o, d);
    assert b + d + o == b + o + d;
  }

  lemma WrapsOnce(a: int, b: int)
    ensures (a % 0x1_0000_0000 + b) % 0x1_0000_0000 == (a + b) % 0x1_0000_0000
  {
    var q := a / 0x1_0000_0000;
    assert a + b == 0x1_0000_0000 * q + (a % 0x1_0000_0000 + b);
  }

  /** Every byte outside the slots is the byte of its region, or zero. */
  lemma OutsideSlots(size: nat, tab: seq<Owned>, rs: seq<Reloc>, base: seq<uint32>, i: int, p: nat)
    requires TableFits(tab, size) && RelocsFit(rs, size, |base|) && Separate(tab, rs) && p < size
    requires forall r <- rs :: !InSlot(r, p)
    requires -1 <= i < |tab| && (if i < 0 then forall o <- tab :: !InRegion(o, p) else InRegion(tab[i], p))
    ensures Image(size, tab, rs, base)[p] == if i < 0 then 0 else tab[i].bytes[p - tab[i].off]
  {
    OverlaidAt(size, tab, i, p);
    RelocatedAt(Overlaid(size, tab), rs, base, -1, p);
  }

  /** The order of the tables does not matter. */
  lemma OrderIrrelevant(size: nat, tab: seq<Owned>, tab': seq<Owned>, rs: seq<Reloc>, rs': seq<Reloc>, base: seq<uint32>)
    requires TableFits(tab, size) && RelocsFit(rs, size, |base|) && Separate(tab, rs)
    requires TableFits(tab', size) && RelocsFit(rs', size, |base|) && Separate(tab', rs')
    requires (forall o :: o in tab <==> o in tab') && (forall r :: r in rs <==> r in rs')
    ensures Image(size, tab, rs, base) == Image(size, tab', rs', base)
  {
    var a, b := Image(size, tab, rs, base), Image(size, tab', rs', base);
    forall p: nat | p < size ensures a[p] == b[p] {
      if r :| r in rs && InSlot(r, p) {
        var i :| 0 <= i < |rs| && rs[i] == r;
        var j :| 0 <= j < |rs'| && rs'[j] == r;
        RelocatedAt(Overlaid(size, tab), rs, base, i, p);
        RelocatedAt(Overlaid(size, tab'), rs', base, j, p);
      } else {
        if o :| o in tab && InRegion(o, p) {
          var i :| 0 <= i < |tab| && tab[i] == o;
          var j :| 0 <= j < |tab'| && tab'[j] == o;
          OutsideSlots(size, tab, rs, base, i, p);
          OutsideSlots(size, tab', rs', base, j, p);
        } else {
          OutsideSlots(size, tab, rs, base, -1, p);
          OutsideSlots(size, tab', rs', base, -1, p);
        }
      }
    }
  }

  /** Builds for two sets of bases differ only in the relocation slots. */
  lemma BasesOnlyMoveSlots(size: nat, tab: seq<Owned>, rs: seq<Reloc>, base: seq<uint32>, base': seq<uint32>, p: nat)
    requires TableFits(tab, size) && RelocsFit(rs, size, |base|) && RelocsFit(rs, size, |base'|) && Separate(tab, rs)
    requires p < size && Image(size, tab, rs, base)[p] != Image(size, tab, rs, base')[p]
    ensures exists r <- rs :: InSlot(r, p)
  {
    if forall r <- rs :: !InSlot(r, p) {
      RelocatedAt(Overlaid(size, tab), rs, base, -1, p);
      RelocatedAt(Overlaid(size, tab), rs, base', -1, p);
    }
  }

  // --------------------------------------------------------------------------- comparator

  /** What the comparator promises: 0 when every byte outside the declared slots matches, else one more
      than the first offset that does not. */
  ghost predicate Matches(o: Owned, img: seq<byte>, b: nat)
    requires o.off + |o.bytes| <= |img| && b <= |o.bytes|
  {
    forall k | 0 <= k < b :: Masked(o, k) || img[o.off + k] == o.bytes[k]
  }

  /** The comparator is satisfied by every region of a built image. */
  lemma BuiltImageMatches(size: nat, tab: seq<Owned>, rs: seq<Reloc>, base: seq<uint32>, i: nat)
    requires TableFits(tab, size) && RelocsFit(rs, size, |base|) && Separate(tab, rs) && Declared(tab, rs) && i < |tab|
    ensures tab[i] in tab && Matches(tab[i], Image(size, tab, rs, base), |tab[i].bytes|)
  {
    var o, img := tab[i], Image(size, tab, rs, base);
    assert o in tab;
    forall k | 0 <= k < |o.bytes| && !Masked(o, k) ensures img[o.off + k] == o.bytes[k] {
      var p := o.off + k;
      assert InRegion(o, p);
      forall r | r in rs ensures !InSlot(r, p) {}
      OutsideSlots(size, tab, rs, base, i, p);
    }
  }

  // ----------------------------------------------------------------------- implementation

  method RegionCompare(o: Owned, img: seq<byte>) returns (r: int)
    requires o.off + |o.bytes| <= |img|
    ensures 0 <= r <= |o.bytes|
    ensures r == 0 <==> Matches(o, img, |o.bytes|)
    ensures r > 0 ==> Matches(o, img, r - 1) && !Masked(o, r - 1) && img[o.off + r - 1] != o.bytes[r - 1]
    ensures r == 0 <==> forall b | 0 <= b < |o.bytes| && img[o.off + b] != o.bytes[b] ::
      exists k | 0 <= k < |o.slots| :: o.slots[k] <= b < o.slots[k] + 4
  {
    var b := 0;
    while b < |o.bytes|
      invariant 0 <= b <= |o.bytes| && Matches(o, img, b)
    {
      var k, masked := 0, false;
      while k < |o.slots|
        invariant 0 <= k <= |o.slots| && !masked
        invariant forall j | 0 <= j < k :: !(o.slots[j] <= b < o.slots[j] + 4)
      {
        if b >= o.slots[k] && b < o.slots[k] + 4 { masked := true; break; }
        k := k + 1;
      }
      assert masked == Masked(o, b);
      if !masked && img[o.off + b] != o.bytes[b] { return b + 1; }
      b := b + 1;
    }
    r := 0;
  }

  method Obj3Build(out: array<byte>, tab: seq<Owned>, rs: seq<Reloc>, base: seq<uint32>)
    requires TableFits(tab, out.Length) && RelocsFit(rs, out.Length, |base|)
    modifies out
    ensures out[..] == Image(out.Length, tab, rs, base)
  {
    forall p | 0 <= p < out.Length { out[p] := 0; }
    for i := 0 to |tab|
      invariant out[..] == Overlaid(out.Length, tab[..i])
    {
      assert tab[..i + 1][..i] == tab[..i];
      CopyRegion(out, tab[i]);
    }
    assert tab[..|tab|] == tab;
    ApplyRelocs(out, rs, base);
  }

  /** The relocation pass: every pointer slot is resolved again for the given bases. */
  method ApplyRelocs(out: array<byte>, rs: seq<Reloc>, base: seq<uint32>)
    requires RelocsFit(rs, out.Length, |base|)
    modifies out
    ensures out[..] == Relocated(old(out[..]), rs, base)
  {
    for i := 0 to |rs|
      invariant out[..] == Relocated(old(out[..]), rs[..i], base)
    {
      assert rs[..i + 1][..i] == rs[..i];
      var r := rs[i];
      var v := U32(base[r.obj] + r.off);
      out[r.slot] := v % 0x100;
      out[r.slot + 1] := v / 0x100 % 0x100;
      out[r.slot + 2] := v / 0x10000 % 0x100;
      out[r.slot + 3] := v / 0x100_0000 % 0x100;
    }
    assert rs[..|rs|] == rs;
  }

  method CopyRegion(out: array<byte>, o: Owned)
    requires o.off + |o.bytes| <= out.Length
    modifies out
    ensures out[..] == Overlay(old(out[..]), o)
  {
    for j := 0 to |o.bytes|
      invariant forall p | 0 <= p < out.Length ::
        out[p] == if o.off <= p < o.off + j then o.bytes[p - o.off] else old(out[p])
    {
      out[o.off + j] := o.bytes[j];
    }
  }
}
