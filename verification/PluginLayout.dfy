/** The layout of the plugin-info struct, and how the ABI gate classifies a struct that grows
    (tools/sdk_gen.py, tools/sdk_check.py). */
module PluginLayout {
  import opened AbiHistory

  const PTR := 4

  /** A field as declared: a C type, or the name of a callback typedef. */
  datatype Decl = Decl(name: string, ctype: string, typedef: bool)

  function SizeOf(f: Decl): nat { if !f.typedef && f.ctype == "uint16_t" then 2 else 4 }

  function KindOf(f: Decl): string {
    if f.ctype == "uint16_t" then "uint16" else if f.ctype == "uint32_t" then "uint32" else "fnptr"
  }

  function RoundUp2(x: nat): (r: nat)
    ensures x <= r <= x + 1 && r % 2 == 0
  {
    x + x % 2
  }

  function RoundUp4(x: nat): (r: nat)
    ensures x <= r <= x + 3 && r % 4 == 0
  {
    (x + 3) / 4 * 4
  }

  /** The next multiple of `a`, the value of (x + a - 1) & ~(a - 1); sizes and alignments of these fields
      coincide. */
  function AlignUp(x: nat, a: nat): (r: nat)
    requires a == 2 || a == 4
    ensures x <= r
  {
    if a == 2 then RoundUp2(x) else RoundUp4(x)
  }

  // ---------------------------------------------------------------------- specification

  /** The end of field `f` placed behind `end`. */
  function EndAfter(end: nat, f: Decl): (r: nat)
    ensures end < r
  {
    AlignUp(end, SizeOf(f)) + SizeOf(f)
  }

  /** The end of the last field, before the padding at the end of the struct. */
  function End(fs: seq<Decl>): nat {
    if fs == [] then 0
    else
      EndAfter(End(fs[..|fs| - 1]), fs[|fs| - 1])
  }

  function Offset(fs: seq<Decl>, k: nat): nat
    requires k < |fs|
  {
    AlignUp(End(fs[..k]), SizeOf(fs[k]))
  }

  function Row(fs: seq<Decl>, k: nat): Field
    requires k < |fs|
  {
    Field(fs[k].name, Offset(fs, k), SizeOf(fs[k]), KindOf(fs[k]))
  }

  function Rows(fs: seq<Decl>): seq<Field> { seq(|fs|, (k: nat) requires k < |fs| => Row(fs, k)) }

  function StructOf(fs: seq<Decl>): Struct { Struct(AlignUp(End(fs), PTR), Rows(fs)) }

  /** Each field ends where the prefix up to it ends. */
  lemma FieldEnd(fs: seq<Decl>, k: nat)
    requires k < |fs|
    ensures End(fs[..k + 1]) == Offset(fs, k) + SizeOf(fs[k])
  {
    assert fs[..k + 1][..k] == fs[..k];
  }

  lemma {:induction false} EndGrows(fs: seq<Decl>, k: nat, m: nat)
    requires k <= m <= |fs|
    ensures End(fs[..k]) <= End(fs[..m])
    decreases m - k
  {
    if k < m {
      EndGrows(fs, k, m - 1);
      assert fs[..m][..m - 1] == fs[..m - 1];
      assert End(fs[..m]) == EndAfter(End(fs[..m - 1]), fs[m - 1]);
    }
  }

  /** Natural alignment, no overlap, and everything inside the struct. */
  lemma LayoutSound(fs: seq<Decl>, k: nat, m: nat)
    requires k < m <= |fs|
    ensures Offset(fs, k) % SizeOf(fs[k]) == 0
    ensures m < |fs| ==> Offset(fs, k) + SizeOf(fs[k]) <= Offset(fs, m)
    ensures Offset(fs, k) + SizeOf(fs[k]) <= StructOf(fs).size && StructOf(fs).size % PTR == 0
  {
    FieldEnd(fs, k);
    EndGrows(fs, k + 1, m);
    EndGrows(fs, k + 1, |fs|);
    assert fs[..|fs|] == fs;
    assert SizeOf(fs[k]) == 2 || SizeOf(fs[k]) == 4;
  }

  /** A row in terms of its declaration: two bytes for a `uint16_t` and four for everything else, a callback typedef
      included; the kind its type spells; and the first aligned offset behind the field before it. */
  lemma RowMeaning(fs: seq<Decl>, k: nat)
    requires k < |fs|
    ensures var f, r := fs[k], Rows(fs)[k];
      && |Rows(fs)| == |fs| && r.name == f.name
      && r.size == (if f.ctype == "uint16_t" && !f.typedef then 2 else 4)
      && (f.ctype == "uint16_t" ==> r.kind == "uint16") && (f.ctype == "uint32_t" ==> r.kind == "uint32")
      && (f.ctype != "uint16_t" && f.ctype != "uint32_t" ==> r.kind == "fnptr")
      && r.offset % r.size == 0
      && var before := if k == 0 then 0 else Rows(fs)[k - 1].offset + Rows(fs)[k - 1].size;
         before <= r.offset < before + r.size
  {
    var before := if k == 0 then 0 else Offset(fs, k - 1) + SizeOf(fs[k - 1]);
    if k > 0 { FieldEnd(fs, k - 1); }
    assert End(fs[..k]) == before;
    NextMultiple(before, SizeOf(fs[k]));
  }

  lemma NextMultiple(x: nat, a: nat)
    requires a == 2 || a == 4
    ensures AlignUp(x, a) % a == 0 && x <= AlignUp(x, a) < x + a
  {
  }

  /** The struct ends at the first multiple of four behind its last field. */
  lemma SizeMeaning(fs: seq<Decl>)
    ensures var end := if fs == [] then 0 else Rows(fs)[|fs| - 1].offset + Rows(fs)[|fs| - 1].size;
      StructOf(fs).size % 4 == 0 && end <= StructOf(fs).size < end + 4
  {
    if fs != [] { FieldEnd(fs, |fs| - 1); }
    assert fs[..|fs|] == fs;
    NextMultiple(End(fs), 4);
  }

  lemma EndAfterEven(end: nat, f: Decl)
    ensures EndAfter(end, f) % 2 == 0
  {
    if SizeOf(f) == 4 { TwiceIsEven(2 * ((end + 3) / 4) + 2); }
    else { TwiceIsEven((end + end % 2) / 2 + 1); }
  }

  lemma TwiceIsEven(k: nat)
    ensures (2 * k) % 2 == 0
  {
  }

  lemma {:induction false} EndEven(fs: seq<Decl>)
    ensures End(fs) % 2 == 0
  {
    if fs != [] {
      EndEven(fs[..|fs| - 1]);
      EndAfterEven(End(fs[..|fs| - 1]), fs[|fs| - 1]);
    }
  }

  /** Fields added behind leave the offsets of the others alone. */
  lemma PrefixStable(fs: seq<Decl>, more: seq<Decl>)
    ensures Rows(fs + more)[..|fs|] == Rows(fs)
  {
    forall k: nat | k < |fs| ensures Row(fs + more, k) == Row(fs, k) {
      assert (fs + more)[..k] == fs[..k];
    }
  }

  // ------------------------------------------------------------------- growing a struct

  lemma FieldMapNames(rows: seq<Field>)
    ensures forall n :: n in FieldMap(rows) <==> exists k | 0 <= k < |rows| :: rows[k].name == n
  {
    forall n ensures n in FieldMap(rows) <==> exists k | 0 <= k < |rows| :: rows[k].name == n { FieldMapMeaning(rows, n); }
  }

  predicate DistinctNames(rows: seq<Field>) { forall a, b | 0 <= a < b < |rows| :: rows[a].name != rows[b].name }

  lemma FieldMapAt(rows: seq<Field>, k: nat)
    requires DistinctNames(rows) && k < |rows|
    ensures rows[k].name in FieldMap(rows)
    ensures FieldMap(rows)[rows[k].name] == Layout(rows[k].offset, rows[k].size, rows[k].kind)
  {
    FieldMapMeaning(rows, rows[k].name);
  }

  /** A field placed behind `end` reaches the padded end unless it is a uint16 and there is padding. */
  lemma FirstAdded(end: nat, size: nat)
    requires end % 2 == 0 && (size == 2 || size == 4)
    ensures size == 4 ==> AlignUp(end, size) == AlignUp(end, PTR)
    ensures AlignUp(end, PTR) <= AlignUp(end, size) <==> size == 4 || end % 4 == 0
  {
    if size == 2 {
      EvenStays(end);
      if end % 4 == 0 { FourStays(end); }
    }
  }

  lemma EvenStays(x: nat)
    requires x % 2 == 0
    ensures RoundUp2(x) == x
  {
  }

  lemma FourStays(x: nat)
    requires x % 4 == 0
    ensures RoundUp4(x) == x
  {
  }

  /** Where the first added field lands decides where all of them do. */
  lemma AddedOffsets(fs: seq<Decl>, more: seq<Decl>, k: nat)
    requires |fs| <= k < |fs + more|
    ensures StructOf(fs).size <= Offset(fs + more, |fs|) <==> (SizeOf(more[0]) == 4 || End(fs) % 4 == 0)
    ensures SizeOf(more[0]) == 4 ==> Offset(fs + more, |fs|) == StructOf(fs).size
    ensures Offset(fs + more, |fs|) <= Offset(fs + more, k)
  {
    var all := fs + more;
    assert all[..|fs|] == fs;
    EndEven(fs);
    FirstAdded(End(fs), SizeOf(more[0]));
    if |fs| < k { LayoutSound(all, |fs|, k); }
  }

  lemma AlignMonotone(x: nat, y: nat)
    requires x <= y
    ensures AlignUp(x, PTR) <= AlignUp(y, PTR)
  {
    assert (x + 3) / 4 <= (y + 3) / 4;
  }

  lemma SizeGrows(fs: seq<Decl>, more: seq<Decl>)
    ensures StructOf(fs).size <= StructOf(fs + more).size
  {
    var all := fs + more;
    assert all[..|fs|] == fs && all[..|all|] == all;
    EndGrows(all, |fs|, |all|);
    AlignMonotone(End(fs), End(all));
  }

  /** Adding fields behind a struct is breaking for the gate if and only if the first of them is a
      uint16 that slips into the padding at the old end; otherwise it is an append. */
  lemma GrowthClass(fs: seq<Decl>, more: seq<Decl>)
    requires more != [] && DistinctNames(Rows(fs + more))
    ensures var b, c := StructOf(fs), StructOf(fs + more); var clean := SizeOf(more[0]) == 4 || End(fs) % 4 == 0;
      StructBreaks(b, c) == !clean && (clean ==> StructAppends(b, c))
  {
    var b, c := StructOf(fs), StructOf(fs + more);
    var rows := Rows(fs + more);
    PrefixStable(fs, more);
    SizeGrows(fs, more);
    forall n | n in FieldMap(b.fields) ensures n in FieldMap(c.fields) && FieldMap(c.fields)[n] == FieldMap(b.fields)[n] {
      OldFieldKept(fs, more, n);
    }
    forall n | n in FieldMap(c.fields) && n !in FieldMap(b.fields)
      ensures Offset(fs + more, |fs|) <= FieldMap(c.fields)[n].offset
    {
      NewFieldPlace(fs, more, n);
    }
    AddedOffsets(fs, more, |fs|);
    FirstAddedIsNew(fs, more);
  }

  lemma OldFieldKept(fs: seq<Decl>, more: seq<Decl>, n: string)
    requires DistinctNames(Rows(fs + more)) && n in FieldMap(Rows(fs))
    ensures n in FieldMap(Rows(fs + more)) && FieldMap(Rows(fs + more))[n] == FieldMap(Rows(fs))[n]
  {
    PrefixStable(fs, more);
    FieldMapNames(Rows(fs));
    var k :| 0 <= k < |fs| && Rows(fs)[k].name == n;
    var rows := Rows(fs + more);
    assert Rows(fs) == rows[..|fs|];
    FieldMapAt(Rows(fs), k);
    FieldMapAt(rows, k);
  }

  lemma NewFieldPlace(fs: seq<Decl>, more: seq<Decl>, n: string)
    requires more != [] && DistinctNames(Rows(fs + more))
    requires n in FieldMap(Rows(fs + more)) && n !in FieldMap(Rows(fs))
    ensures Offset(fs + more, |fs|) <= FieldMap(Rows(fs + more))[n].offset
  {
    PrefixStable(fs, more);
    var rows := Rows(fs + more);
    FieldMapNames(rows);
    FieldMapNames(Rows(fs));
    var k :| 0 <= k < |rows| && rows[k].name == n;
    assert forall j | 0 <= j < |fs| :: Rows(fs)[j].name == rows[j].name;
    FieldMapAt(rows, k);
    AddedOffsets(fs, more, k);
  }

  lemma FirstAddedIsNew(fs: seq<Decl>, more: seq<Decl>)
    requires more != [] && DistinctNames(Rows(fs + more))
    ensures var n := more[0].name; var c := FieldMap(Rows(fs + more));
      n !in FieldMap(Rows(fs)) && n in c && c[n].offset == Offset(fs + more, |fs|)
  {
    PrefixStable(fs, more);
    var rows := Rows(fs + more);
    FieldMapAt(rows, |fs|);
    FieldMapNames(Rows(fs));
    assert forall j | 0 <= j < |fs| :: Rows(fs)[j].name == rows[j].name;
    assert rows[|fs|].name == more[0].name;
  }

  /** The same for a whole release that changes nothing else. */
  lemma GrowthRelease(base: Descriptor, cur: Descriptor, s: string, fs: seq<Decl>, more: seq<Decl>)
    requires s in base.structs && base.structs[s] == StructOf(fs)
    requires cur.structs == base.structs[s := StructOf(fs + more)] && cur.table == base.table
    requires more != [] && DistinctNames(Rows(fs + more))
    ensures Classify(base, cur) == if SizeOf(more[0]) == 4 || End(fs) % 4 == 0 then AppendOnly else Breaking
  {
    GrowthClass(fs, more);
    forall t | t in base.structs && t != s ensures !StructBreaks(base.structs[t], cur.structs[t]) {}
  }

  /** Every struct laid out this way has the size its fields call for. */
  lemma LayoutSizeFollows(fs: seq<Decl>)
    requires DistinctNames(Rows(fs))
    ensures SizeFollows(StructOf(fs))
  {
    var rows := Rows(fs);
    forall n | n in FieldMap(rows) ensures FieldMap(rows)[n].offset + FieldMap(rows)[n].size <= StructOf(fs).size {
      FieldMapNames(rows);
      var k :| 0 <= k < |rows| && rows[k].name == n;
      FieldMapAt(rows, k);
      LayoutSound(fs, k, |fs|);
    }
    if fs != [] {
      var last := |fs| - 1;
      FieldMapAt(rows, last);
      FieldEnd(fs, last);
      assert fs[..last + 1] == fs;
    }
  }

  // ---------------------------------------------------------------------- implementation

  lemma RowsSnoc(fs: seq<Decl>, i: nat)
    requires i < |fs|
    ensures Rows(fs)[..i + 1] == Rows(fs)[..i] + [Row(fs, i)]
  {
  }

  method ComputeLayout(fields: seq<Decl>) returns (rows: seq<Field>, size: nat)
    ensures Struct(size, rows) == StructOf(fields)
  {
    rows := [];
    var off := 0;
    var i := 0;
    while i < |fields|
      invariant 0 <= i <= |fields|
      invariant off == End(fields[..i]) && rows == Rows(fields)[..i]
    {
      var f := fields[i];
      var sz := if f.ctype == "uint16_t" then 2 else 4;
      if f.typedef { sz := PTR; }
      FieldEnd(fields, i);
      RowsSnoc(fields, i);
      off := AlignUp(off, sz);
      rows := rows + [Field(f.name, off, sz, KindOf(f))];
      off := off + sz;
      i := i + 1;
    }
    assert fields[..i] == fields;
    size := AlignUp(off, PTR);
  }
}
