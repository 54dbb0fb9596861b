/** The entity-definition builder: the AsMonster block of a record, scattered into a 0x6c-byte
    struct (roth_c/src/engine/dbase100.c). */
module EntityDef {
  import opened Options
  import opened MachineInt
  import opened DbaseRecords

  const SIZE := 0x6c

  // ------------------------------------------------------------------ the struct in bytes

  function R16(d: seq<byte>, o: nat): nat
    requires o + 2 <= |d|
  {
    d[o] as int + 0x100 * d[o + 1] as int
  }

  function W16(d: seq<byte>, o: nat, v: nat): seq<byte>
    requires o + 2 <= |d| && v < 0x10000
  {
    d[o := v % 0x100][o + 1 := v / 0x100]
  }

  function W8(d: seq<byte>, o: nat, v: nat): seq<byte>
    requires o < |d| && v < 0x100
  {
    d[o := v]
  }

  /** Append to the counted array at `o`: the count word, then the entries. */
  function Append(d: seq<byte>, o: nat, v: nat): seq<byte>
    requires o + 2 <= |d| && o + 2 + 2 * R16(d, o) + 2 <= |d| && v < 0x10000
  {
    var k := R16(d, o);
    W16(W16(d, k * 2 + o + 2, v), o, (k + 1) % 0x10000)
  }

  function Word(r: Rec): nat { r.operand % 0x10000 }

  function Low(r: Rec): nat { r.operand % 0x100 }

  /** The counted array a record appends to, if any. */
  function ListAt(r: Rec): Option<nat> {
    if r.Op() == 0x27 then Some(if r.Not() then 0x46 else 0x2c)
    else if r.Op() == 0x29 then Some(if r.Not() then 0x22 else 0x18)
    else None
  }

  predicate Writable(d: seq<byte>, r: Rec) {
    && |d| == SIZE && r.Valid()
    && var l := ListAt(r); l.Some? ==> l.value + 2 + 2 * R16(d, l.value) + 2 <= |d|
  }

  /** The write of one sub-record. Bit 31 selects the secondary slot of the opcodes that have one. */
  function Scatter(d: seq<byte>, r: Rec): (s: seq<byte>)
    requires Writable(d, r)
    ensures |s| == SIZE
  {
    match r.Op()
    case 0x24 => W16(d, 0x0c, Word(r))
    case 0x25 => W16(d, 0x0e, Word(r))
    case 0x26 => W16(W16(d, 0x08, Word(r)), 0x0a, r.operand / 0x10000)
    case 0x27 => Append(d, if r.Not() then 0x46 else 0x2c, Word(r))
    case 0x28 => W16(d, if r.Not() then 0x12 else 0x10, Word(r))
    case 0x29 => Append(d, if r.Not() then 0x22 else 0x18, Word(r))
    case 0x2a => W16(d, if r.Not() then 0x16 else 0x14, Word(r))
    case 0x2b => W8(d, if r.Not() then 0x07 else 0x06, Low(r))
    case 0x2c => W8(d, 0x6a, Low(r))
    case 0x2d => if r.operand == 2 then W8(d, 0x69, Or(d[0x69], 2)) else if r.operand == 3 then W8(d, 0x69, Or(d[0x69], 4)) else d
    case 0x30 => W8(d, 0x68, Low(r))
    case 0x31 => W16(d, if r.Not() then 0x62 else 0x60, Word(r))
    case 0x32 => W16(d, if r.Not() then 0x66 else 0x64, Word(r))
    case _ => d
  }

  /** Bitwise or with a one-bit mask. */
  function Or(b: byte, mask: byte): (r: byte)
    requires mask == 2 || mask == 4
  {
    if (b / mask) % 2 == 1 then b else b + mask
  }

  // --------------------------------------------------------------- the abstract definition

  datatype Slot = Any | Primary | Secondary

  predicate Selects(r: Rec, op: nat, slot: Slot) { r.Op() == op && (slot.Any? || slot.Secondary? == r.Not()) }

  /** The operands of one opcode and slot, in order. */
  function Operands(ws: seq<Rec>, op: nat, slot: Slot): seq<nat> {
    if ws == [] then []
    else
      var init, r := Operands(ws[..|ws| - 1], op, slot), ws[|ws| - 1];
      if Selects(r, op, slot) then init + [r.operand] else init
  }

  /** The last operand wins; none means zero. */
  function Last(ws: seq<Rec>, op: nat, slot: Slot): nat {
    var s := Operands(ws, op, slot);
    if s == [] then 0 else s[|s| - 1]
  }

  function ListWord(s: seq<nat>, j: nat): nat {
    if j == 0 then |s| else if j <= |s| then s[j - 1] % 0x10000 else 0
  }

  function FlagByte(ws: seq<Rec>): nat {
    (if 2 in Operands(ws, 0x2d, Any) then 2 else 0) + (if 3 in Operands(ws, 0x2d, Any) then 4 else 0)
  }

  /** The word at byte offset `2 * k` of the definition of an entity `id` with sub-records `ws`. */
  function DefWord(id: nat, ws: seq<Rec>, k: nat): nat {
    if k == 2 then id
    else if k == 3 then Last(ws, 0x2b, Primary) % 0x100 + 0x100 * (Last(ws, 0x2b, Secondary) % 0x100)
    else if k == 4 then Last(ws, 0x26, Any) % 0x10000
    else if k == 5 then Last(ws, 0x26, Any) / 0x10000
    else if k == 6 then Last(ws, 0x24, Any) % 0x10000
    else if k == 7 then Last(ws, 0x25, Any) % 0x10000
    else if k == 8 then Last(ws, 0x28, Primary) % 0x10000
    else if k == 9 then Last(ws, 0x28, Secondary) % 0x10000
    else if k == 10 then Last(ws, 0x2a, Primary) % 0x10000
    else if k == 11 then Last(ws, 0x2a, Secondary) % 0x10000
    else if 12 <= k < 17 then ListWord(Operands(ws, 0x29, Primary), k - 12)
    else if 17 <= k < 22 then ListWord(Operands(ws, 0x29, Secondary), k - 17)
    else if 22 <= k < 35 then ListWord(Operands(ws, 0x27, Primary), k - 22)
    else if 35 <= k < 48 then ListWord(Operands(ws, 0x27, Secondary), k - 35)
    else if k == 48 then Last(ws, 0x31, Primary) % 0x10000
    else if k == 49 then Last(ws, 0x31, Secondary) % 0x10000
    else if k == 50 then Last(ws, 0x32, Primary) % 0x10000
    else if k == 51 then Last(ws, 0x32, Secondary) % 0x10000
    else if k == 52 then Last(ws, 0x30, Any) % 0x100 + 0x100 * FlagByte(ws)
    else if k == 53 then Last(ws, 0x2c, Any) % 0x100
    else 0
  }

  /** Every byte of the struct is the one the definition says. */
  ghost predicate Represents(d: seq<byte>, id: nat, ws: seq<Rec>) {
    |d| == SIZE && forall k | 0 <= k < 54 :: R16(d, 2 * k) == DefWord(id, ws, k)
  }

  /** The four arrays stay within the room the struct has for them. */
  predicate Fits(ws: seq<Rec>) {
    && |Operands(ws, 0x29, Primary)| <= 4 && |Operands(ws, 0x29, Secondary)| <= 4
    && |Operands(ws, 0x27, Primary)| <= 12 && |Operands(ws, 0x27, Secondary)| <= 12
  }

  predicate AllValid(ws: seq<Rec>) { forall r <- ws :: r.Valid() }

  // ------------------------------------------------------- one write refines one sub-record

  lemma OperandsSnoc(ws: seq<Rec>, r: Rec)
    ensures forall op, slot | Selects(r, op, slot) :: Operands(ws + [r], op, slot) == Operands(ws, op, slot) + [r.operand]
    ensures forall op, slot | !Selects(r, op, slot) :: Operands(ws + [r], op, slot) == Operands(ws, op, slot)
  {
    assert (ws + [r])[..|ws|] == ws;
  }

  /** The words [lo, hi) a sub-record can change. */
  function Touched(r: Rec): (int, int) {
    match r.Op()
    case 0x24 => (6, 7)
    case 0x25 => (7, 8)
    case 0x26 => (4, 6)
    case 0x27 => if r.Not() then (35, 48) else (22, 35)
    case 0x28 => if r.Not() then (9, 10) else (8, 9)
    case 0x29 => if r.Not() then (17, 22) else (12, 17)
    case 0x2a => if r.Not() then (11, 12) else (10, 11)
    case 0x2b => (3, 4)
    case 0x2c => (53, 54)
    case 0x2d => (52, 53)
    case 0x30 => (52, 53)
    case 0x31 => if r.Not() then (49, 50) else (48, 49)
    case 0x32 => if r.Not() then (51, 52) else (50, 51)
    case _ => (0, 0)
  }

  predicate Touches(r: Rec, k: nat) { Touched(r).0 <= k < Touched(r).1 }

  lemma DefUnchanged(id: nat, ws: seq<Rec>, r: Rec, k: nat)
    requires !Touches(r, k)
    ensures DefWord(id, ws + [r], k) == DefWord(id, ws, k)
  {
    if k < 8 { DefUnchangedFirst(id, ws, r, k); }
    else if k < 12 { DefUnchangedAttacks(id, ws, r, k); }
    else if k < 48 { DefUnchangedLists(id, ws, r, k); }
    else { DefUnchangedLast(id, ws, r, k); }
  }

  lemma DefUnchangedFirst(id: nat, ws: seq<Rec>, r: Rec, k: nat)
    requires !Touches(r, k) && k < 8
    ensures DefWord(id, ws + [r], k) == DefWord(id, ws, k)
  {
    OperandsSnoc(ws, r);
  }

  lemma DefUnchangedAttacks(id: nat, ws: seq<Rec>, r: Rec, k: nat)
    requires !Touches(r, k) && 8 <= k < 12
    ensures DefWord(id, ws + [r], k) == DefWord(id, ws, k)
  {
    OperandsSnoc(ws, r);
  }

  lemma DefUnchangedLists(id: nat, ws: seq<Rec>, r: Rec, k: nat)
    requires !Touches(r, k) && 12 <= k < 48
    ensures DefWord(id, ws + [r], k) == DefWord(id, ws, k)
  {
    OperandsSnoc(ws, r);
  }

  lemma DefUnchangedLast(id: nat, ws: seq<Rec>, r: Rec, k: nat)
    requires !Touches(r, k) && 48 <= k
    ensures DefWord(id, ws + [r], k) == DefWord(id, ws, k)
  {
    OperandsSnoc(ws, r);
  }

  lemma BytesUnchanged(d: seq<byte>, r: Rec, k: nat)
    requires Writable(d, r) && k < 54 && !Touches(r, k)
    requires var l := ListAt(r); l.Some? ==> l.value + 2 + 2 * R16(d, l.value) + 2 <= 2 * Touched(r).1
    ensures R16(Scatter(d, r), 2 * k) == R16(d, 2 * k)
  {
  }

  lemma W16Read(d: seq<byte>, o: nat, v: nat, p: nat)
    requires o + 2 <= |d| && p + 2 <= |d| && v < 0x10000 && o % 2 == p % 2
    ensures R16(W16(d, o, v), p) == if p == o then v else R16(d, p)
  {
  }

  lemma ScalarWritten(d: seq<byte>, id: nat, ws: seq<Rec>, r: Rec, k: nat)
    requires Writable(d, r) && k < 54 && Touches(r, k) && ListAt(r).None?
    requires R16(d, 2 * k) == DefWord(id, ws, k)
    ensures R16(Scatter(d, r), 2 * k) == DefWord(id, ws + [r], k)
  {
    if r.Op() == 0x26 { LongWritten(d, id, ws, r, k); }
    else if r.Op() == 0x2b { PairWritten(d, id, ws, r, k); }
    else if r.Op() == 0x2c || r.Op() == 0x30 { ByteWritten(d, id, ws, r, k); }
    else if r.Op() == 0x2d { FlagWritten(d, id, ws, r, k); }
    else { WordWritten(d, id, ws, r, k); }
  }

  lemma WordWritten(d: seq<byte>, id: nat, ws: seq<Rec>, r: Rec, k: nat)
    requires Writable(d, r) && k < 54 && Touches(r, k) && r.Op() in {0x24, 0x25, 0x28, 0x2a, 0x31, 0x32}
    ensures R16(Scatter(d, r), 2 * k) == DefWord(id, ws + [r], k)
  {
    W16Read(d, 2 * k, Word(r), 2 * k);
    LastSnoc(ws, r);
  }

  lemma LastSnoc(ws: seq<Rec>, r: Rec)
    ensures forall op, slot :: Last(ws + [r], op, slot) == if Selects(r, op, slot) then r.operand else Last(ws, op, slot)
  {
    OperandsSnoc(ws, r);
  }

  lemma LongWritten(d: seq<byte>, id: nat, ws: seq<Rec>, r: Rec, k: nat)
    requires Writable(d, r) && k < 54 && Touches(r, k) && r.Op() == 0x26
    ensures R16(Scatter(d, r), 2 * k) == DefWord(id, ws + [r], k)
  {
    W16Read(d, 0x08, Word(r), 0x08);
    W16Read(W16(d, 0x08, Word(r)), 0x0a, r.operand / 0x10000, 0x08);
    W16Read(W16(d, 0x08, Word(r)), 0x0a, r.operand / 0x10000, 0x0a);
    LastSnoc(ws, r);
  }

  /** Writing one byte of a word keeps the other. */
  lemma PairBytes(lo: byte, hi: byte, w: nat, a: nat, b: nat)
    requires lo as int + 0x100 * hi as int == a % 0x100 + 0x100 * b && b < 0x100
    ensures lo == a % 0x100 && hi == b
  {
  }

  lemma PairWritten(d: seq<byte>, id: nat, ws: seq<Rec>, r: Rec, k: nat)
    requires Writable(d, r) && k < 54 && Touches(r, k) && r.Op() == 0x2b
    requires R16(d, 2 * k) == DefWord(id, ws, k)
    ensures R16(Scatter(d, r), 2 * k) == DefWord(id, ws + [r], k)
  {
    PairBytes(d[6], d[7], R16(d, 6), Last(ws, 0x2b, Primary), Last(ws, 0x2b, Secondary) % 0x100);
    LastSnoc(ws, r);
  }

  lemma ByteWritten(d: seq<byte>, id: nat, ws: seq<Rec>, r: Rec, k: nat)
    requires Writable(d, r) && k < 54 && Touches(r, k) && (r.Op() == 0x2c || r.Op() == 0x30)
    requires R16(d, 2 * k) == DefWord(id, ws, k)
    ensures R16(Scatter(d, r), 2 * k) == DefWord(id, ws + [r], k)
  {
    if r.Op() == 0x30 {
      PairBytes(d[0x68], d[0x69], R16(d, 0x68), Last(ws, 0x30, Any), FlagByte(ws));
    } else {
      PairBytes(d[0x6a], d[0x6b], R16(d, 0x6a), Last(ws, 0x2c, Any), 0);
    }
    LastSnoc(ws, r);
    OperandsSnoc(ws, r);
  }

  lemma FlagWritten(d: seq<byte>, id: nat, ws: seq<Rec>, r: Rec, k: nat)
    requires Writable(d, r) && k < 54 && Touches(r, k) && r.Op() == 0x2d
    requires R16(d, 2 * k) == DefWord(id, ws, k)
    ensures R16(Scatter(d, r), 2 * k) == DefWord(id, ws + [r], k)
  {
    PairBytes(d[0x68], d[0x69], R16(d, 0x68), Last(ws, 0x30, Any), FlagByte(ws));
    LastSnoc(ws, r);
    OperandsSnoc(ws, r);
  }

  /** Appending changes the count word and the first free entry only. */
  lemma AppendRead(d: seq<byte>, o: nat, v: nat, p: nat)
    requires o + 2 <= |d| && o + 2 + 2 * R16(d, o) + 2 <= |d| && v < 0x10000
    requires p + 2 <= |d| && o % 2 == 0 && p % 2 == 0
    ensures R16(Append(d, o, v), p)
      == if p == o then (R16(d, o) + 1) % 0x10000 else if p == o + 2 + 2 * R16(d, o) then v else R16(d, p)
  {
    var k := R16(d, o);
    var e := W16(d, k * 2 + o + 2, v);
    W16Read(d, k * 2 + o + 2, v, p);
    W16Read(e, o, (k + 1) % 0x10000, p);
  }

  lemma ListCell(s: seq<nat>, x: nat, j: nat)
    ensures ListWord(s + [x], j)
      == if j == 0 then ListWord(s, 0) + 1 else if j == |s| + 1 then x % 0x10000 else ListWord(s, j)
  {
  }

  lemma ListWritten(d: seq<byte>, id: nat, ws: seq<Rec>, r: Rec, k: nat)
    requires Represents(d, id, ws) && r.Valid() && Fits(ws + [r]) && k < 54 && Touches(r, k) && ListAt(r).Some?
    ensures Writable(d, r)
    ensures R16(Scatter(d, r), 2 * k) == DefWord(id, ws + [r], k)
  {
    ListRoom(d, id, ws, r);
    var o, slot := ListAt(r).value, if r.Not() then Secondary else Primary;
    var s := Operands(ws, r.Op(), slot);
    ListState(d, id, ws, r, k, slot, o / 2);
    ListSnoc(id, ws, r, k, slot, o / 2);
    AppendCell(d, o, s, r.operand, k);
    ScatterAppends(d, r);
  }

  lemma ScatterAppends(d: seq<byte>, r: Rec)
    requires Writable(d, r) && ListAt(r).Some?
    ensures Scatter(d, r) == Append(d, ListAt(r).value, Word(r))
  {
  }

  lemma ListState(d: seq<byte>, id: nat, ws: seq<Rec>, r: Rec, k: nat, slot: Slot, base: nat)
    requires Represents(d, id, ws) && ListAt(r).Some? && Touches(r, k) && k < 54
    requires slot == (if r.Not() then Secondary else Primary) && base == ListAt(r).value / 2
    ensures base <= k && ListAt(r).value == 2 * base && 2 * base + 2 <= SIZE
    ensures R16(d, 2 * base) == |Operands(ws, r.Op(), slot)|
    ensures R16(d, 2 * k) == ListWord(Operands(ws, r.Op(), slot), k - base)
  {
    ListDef(id, ws, r, base, slot, base);
    ListDef(id, ws, r, k, slot, base);
    assert R16(d, 2 * base) == DefWord(id, ws, base);
  }

  lemma AppendCell(d: seq<byte>, o: nat, s: seq<nat>, x: nat, k: nat)
    requires o + 2 <= |d| && o + 2 + 2 * |s| + 2 <= |d| && o % 2 == 0 && o / 2 <= k && 2 * k + 2 <= |d| && |s| < 0xffff
    requires R16(d, o) == |s| && R16(d, 2 * k) == ListWord(s, k - o / 2)
    ensures R16(Append(d, o, x % 0x10000), 2 * k) == ListWord(s + [x], k - o / 2)
  {
    AppendRead(d, o, x % 0x10000, 2 * k);
    ListCell(s, x, k - o / 2);
  }

  lemma ListSnoc(id: nat, ws: seq<Rec>, r: Rec, k: nat, slot: Slot, base: nat)
    requires ListAt(r).Some? && Touches(r, k) && slot == (if r.Not() then Secondary else Primary) && base == ListAt(r).value / 2
    ensures base <= k && DefWord(id, ws + [r], k) == ListWord(Operands(ws, r.Op(), slot) + [r.operand], k - base)
  {
    ListDef(id, ws + [r], r, k, slot, base);
    OperandsSnoc(ws, r);
  }

  lemma ListDef(id: nat, ws: seq<Rec>, r: Rec, k: nat, slot: Slot, base: nat)
    requires ListAt(r).Some? && Touches(r, k) && slot == (if r.Not() then Secondary else Primary) && base == ListAt(r).value / 2
    ensures base <= k && DefWord(id, ws, k) == ListWord(Operands(ws, r.Op(), slot), k - base)
  {
  }

  /** One sub-record, written by byte offset, takes a struct that represents `ws` to one that
      represents `ws` with that record behind it. */
  lemma ScatterRefines(d: seq<byte>, id: nat, ws: seq<Rec>, r: Rec)
    requires Represents(d, id, ws) && r.Valid() && Fits(ws + [r])
    ensures Writable(d, r)
    ensures Represents(Scatter(d, r), id, ws + [r])
  {
    if ListAt(r).Some? { ListWritten(d, id, ws, r, Touched(r).0); }
    if ListAt(r).Some? { ListRoom(d, id, ws, r); }
    forall k: nat | k < 54 ensures R16(Scatter(d, r), 2 * k) == DefWord(id, ws + [r], k) {
      if !Touches(r, k) {
        DefUnchanged(id, ws, r, k);
        BytesUnchanged(d, r, k);
      } else if ListAt(r).Some? {
        ListWritten(d, id, ws, r, k);
      } else {
        ScalarWritten(d, id, ws, r, k);
      }
    }
  }

  lemma ListRoom(d: seq<byte>, id: nat, ws: seq<Rec>, r: Rec)
    requires Represents(d, id, ws) && Fits(ws + [r]) && ListAt(r).Some?
    ensures var o := ListAt(r).value; o + 2 + 2 * R16(d, o) + 2 <= 2 * Touched(r).1
  {
    OperandsSnoc(ws, r);
    var o := ListAt(r).value;
    assert R16(d, 2 * (o / 2)) == DefWord(id, ws, o / 2);
  }

  /** When the array of a record is already full, its entry lands on the word behind the array: the
      struct goes on representing the sub-records if and only if that word held the value already. */
  lemma OverflowClobbers(d: seq<byte>, id: nat, ws: seq<Rec>, r: Rec)
    requires Represents(d, id, ws) && r.Valid() && Fits(ws) && ListAt(r).Some?
    requires R16(d, ListAt(r).value) == Touched(r).1 - Touched(r).0 - 1
    ensures !Fits(ws + [r]) && Writable(d, r)
    ensures R16(Scatter(d, r), 2 * Touched(r).1) == Word(r)
    ensures Represents(Scatter(d, r), id, ws + [r]) <==> Word(r) == DefWord(id, ws, Touched(r).1)
  {
    var o, k := ListAt(r).value, Touched(r).1;
    ListDef(id, ws, r, o / 2, if r.Not() then Secondary else Primary, o / 2);
    assert R16(d, 2 * (o / 2)) == DefWord(id, ws, o / 2);
    OperandsSnoc(ws, r);
    AppendRead(d, o, Word(r), 2 * k);
    DefUnchanged(id, ws, r, k);
    if Word(r) == DefWord(id, ws, k) {
      forall j: nat | j < 54 ensures R16(Scatter(d, r), 2 * j) == DefWord(id, ws + [r], j) { OverflowWord(d, id, ws, r, j); }
    }
  }

  /** Every word after an append to a full array over a word that held the value. */
  lemma OverflowWord(d: seq<byte>, id: nat, ws: seq<Rec>, r: Rec, j: nat)
    requires Represents(d, id, ws) && r.Valid() && ListAt(r).Some? && j < 54 && Writable(d, r)
    requires R16(d, ListAt(r).value) == Touched(r).1 - Touched(r).0 - 1 && Word(r) == DefWord(id, ws, Touched(r).1)
    ensures R16(Scatter(d, r), 2 * j) == DefWord(id, ws + [r], j)
  {
    var o, slot := ListAt(r).value, if r.Not() then Secondary else Primary;
    ScatterAppends(d, r);
    if Touches(r, j) {
      ListState(d, id, ws, r, j, slot, o / 2);
      ListSnoc(id, ws, r, j, slot, o / 2);
      AppendCell(d, o, Operands(ws, r.Op(), slot), r.operand, j);
    } else {
      AppendRead(d, o, Word(r), 2 * j);
      DefUnchanged(id, ws, r, j);
    }
  }

  // --------------------------------------------------------------------- the block walk

  /** Where the walk over the trigger blocks ends: at the terminator, at the first AsMonster block
      (its first sub-record and their number), at a block it can never leave, or outside the data. */
  datatype Walk = NoBlock | AsMonster(start: nat, limit: nat) | Stuck(at: nat) | OffEnd

  function FindBlock(words: seq<Rec>, pos: nat): Walk
    decreases |words| - pos
  {
    if pos >= |words| then OffEnd
    else if words[pos].operand == 0 then NoBlock
    else if words[pos].top == 0x0a then
      AsMonster(pos + 1, if words[pos].operand / 4 == 0 then 0 else words[pos].operand / 4 - 1)
    else if words[pos].operand / 4 == 0 then Stuck(pos)
    else FindBlock(words, pos + words[pos].operand / 4)
  }

  /** One turn of the walk: the position it continues from, or None when it is over. */
  function WalkTurn(words: seq<Rec>, pos: nat): Option<nat>
    requires pos < |words|
  {
    if words[pos].operand == 0 || words[pos].top == 0x0a then None else Some(pos + words[pos].operand / 4)
  }

  /** The walk is still going after `n` turns. */
  predicate StillWalking(words: seq<Rec>, pos: nat, n: nat)
    decreases n
  {
    n == 0 || (pos < |words| && WalkTurn(words, pos).Some? && StillWalking(words, WalkTurn(words, pos).value, n - 1))
  }

  lemma {:induction false} StuckWalks(words: seq<Rec>, pos: nat, n: nat)
    requires FindBlock(words, pos).Stuck?
    ensures StillWalking(words, pos, n)
    decreases n
  {
    if n > 0 { StuckWalks(words, pos + words[pos].operand / 4, n - 1); }
  }

  lemma {:induction false} OthersStop(words: seq<Rec>, pos: nat) returns (n: nat)
    requires FindBlock(words, pos).NoBlock? || FindBlock(words, pos).AsMonster?
    ensures !StillWalking(words, pos, n)
    decreases |words| - pos
  {
    if WalkTurn(words, pos).None? {
      n := 1;
    } else {
      n := OthersStop(words, WalkTurn(words, pos).value);
      n := n + 1;
    }
  }

  /** On data that holds its terminator the walk goes on forever if and only if it reaches a block of
      fewer than four bytes that it skips. */
  lemma WalkEnds(words: seq<Rec>, pos: nat)
    requires FindBlock(words, pos) != OffEnd
    ensures FindBlock(words, pos).Stuck? <==> forall n: nat :: StillWalking(words, pos, n)
  {
    if FindBlock(words, pos).Stuck? {
      forall n: nat ensures StillWalking(words, pos, n) { StuckWalks(words, pos, n); }
    } else {
      var n := OthersStop(words, pos);
    }
  }

  // --------------------------------------------------------------------- implementation

  method PutWord(d: array<byte>, o: nat, v: nat)
    requires o + 2 <= d.Length && v < 0x10000
    modifies d
    ensures d[..] == W16(old(d[..]), o, v)
  {
    d[o] := v % 0x100;
    d[o + 1] := v / 0x100;
  }

  method PutEntry(d: array<byte>, o: nat, v: nat)
    requires o + 2 <= d.Length && o + 2 + 2 * R16(d[..], o) + 2 <= d.Length && v < 0x10000
    modifies d
    ensures d[..] == Append(old(d[..]), o, v)
  {
    var k := d[o] as int + 0x100 * d[o + 1] as int;
    PutWord(d, k * 2 + o + 2, v);
    PutWord(d, o, (k + 1) % 0x10000);
  }

  method ScatterInto(d: array<byte>, r: Rec)
    requires Writable(d[..], r)
    modifies d
    ensures d[..] == Scatter(old(d[..]), r)
  {
    var ax, al, sec := r.operand % 0x10000, r.operand % 0x100, r.top >= 0x80;
    match r.Op() {
      case 0x24 => PutWord(d, 0x0c, ax);
      case 0x25 => PutWord(d, 0x0e, ax);
      case 0x26 =>
        PutWord(d, 0x08, ax);
        PutWord(d, 0x0a, r.operand / 0x10000);
      case 0x27 => PutEntry(d, if sec then 0x46 else 0x2c, ax);
      case 0x28 => PutWord(d, if sec then 0x12 else 0x10, ax);
      case 0x29 => PutEntry(d, if sec then 0x22 else 0x18, ax);
      case 0x2a => PutWord(d, if sec then 0x16 else 0x14, ax);
      case 0x2b => d[if sec then 0x07 else 0x06] := al;
      case 0x2c => d[0x6a] := al;
      case 0x2d =>
        if r.operand == 2 { d[0x69] := Or(d[0x69], 2); }
        else if r.operand == 3 { d[0x69] := Or(d[0x69], 4); }
      case 0x30 => d[0x68] := al;
      case 0x31 => PutWord(d, if sec then 0x62 else 0x60, ax);
      case 0x32 => PutWord(d, if sec then 0x66 else 0x64, ax);
      case _ =>
    }
  }

  /** The sub-records of the first AsMonster block, none when there is no such block. */
  function SubRecords(words: seq<Rec>): seq<Rec>
    requires var w := FindBlock(words, 0); w.AsMonster? ==> w.start + w.limit <= |words|
  {
    var w := FindBlock(words, 0);
    if w.AsMonster? then words[w.start..w.start + w.limit] else []
  }

  lemma {:induction false} OperandsOfPrefix(a: seq<Rec>, b: seq<Rec>, op: nat, slot: Slot)
    ensures |Operands(a, op, slot)| <= |Operands(a + b, op, slot)|
  {
    if b == [] {
      assert a + b == a;
    } else {
      assert (a + b)[..|a + b| - 1] == a + b[..|b| - 1];
      OperandsOfPrefix(a, b[..|b| - 1], op, slot);
    }
  }

  lemma FitsPrefix(ws: seq<Rec>, i: nat)
    requires Fits(ws) && i <= |ws|
    ensures Fits(ws[..i])
  {
    assert ws[..i] + ws[i..] == ws;
    OperandsOfPrefix(ws[..i], ws[i..], 0x29, Primary);
    OperandsOfPrefix(ws[..i], ws[i..], 0x29, Secondary);
    OperandsOfPrefix(ws[..i], ws[i..], 0x27, Primary);
    OperandsOfPrefix(ws[..i], ws[i..], 0x27, Secondary);
  }

  /** The struct after the sub-records `ws` were written one after the other, which stays inside the struct. */
  function Scattered(d: seq<byte>, ws: seq<Rec>): (r: seq<byte>)
    requires |d| == SIZE && Room(d, ws)
    ensures |r| == SIZE
    decreases |ws|, 1
  {
    if ws == [] then d else Scatter(Scattered(d, ws[..|ws| - 1]), ws[|ws| - 1])
  }

  predicate Room(d: seq<byte>, ws: seq<Rec>)
    requires |d| == SIZE
    decreases |ws|, 0
  {
    ws == [] || (Room(d, ws[..|ws| - 1]) && Writable(Scattered(d, ws[..|ws| - 1]), ws[|ws| - 1]))
  }

  function Blank(id: nat): (d: seq<byte>)
    requires id < 0x10000
    ensures |d| == SIZE
  {
    W16(seq(SIZE, _ => 0), 0x04, id)
  }

  lemma BlankRepresents(id: nat)
    requires id < 0x10000
    ensures Represents(Blank(id), id, [])
  {
    var zero: seq<byte> := seq(SIZE, _ => 0);
    forall k: nat | k < 54 ensures R16(Blank(id), 2 * k) == DefWord(id, [], k) {
      W16Read(zero, 0x04, id, 2 * k);
      EmptyWord(id, k);
    }
  }

  // ------------------------------------------------------------ the blocks a record is made of

  /** A trigger block: its code, its sub-records, and the up to three odd bytes that its size may count on top. */
  datatype Trigger = Trigger(code: nat, subs: seq<Rec>, odd: Odd)

  type Odd = n: nat | n < 4

  /** The header gives the size in bytes, its own four included. */
  function Header(t: Trigger): Rec { Rec(t.code, 4 * (1 + |t.subs|) + t.odd) }

  /** From `pos` on the words are these blocks and then a terminator. */
  predicate Triggers(words: seq<Rec>, pos: nat, ts: seq<Trigger>)
    decreases |ts|
  {
    if ts == [] then pos < |words| && words[pos].operand == 0
    else
      var next := pos + 1 + |ts[0].subs|;
      && next <= |words| && words[pos] == Header(ts[0]) && words[pos + 1..next] == ts[0].subs
      && Triggers(words, next, ts[1..])
  }

  lemma {:induction false} FindsTrigger(words: seq<Rec>, pos: nat, ts: seq<Trigger>, i: nat)
    requires Triggers(words, pos, ts) && i <= |ts| && forall j | 0 <= j < i :: ts[j].code != 0x0a
    ensures i == |ts| ==> FindBlock(words, pos) == NoBlock
    ensures i < |ts| && ts[i].code == 0x0a ==> Found(words, FindBlock(words, pos), ts[i].subs)
    decreases |ts|
  {
    if ts != [] {
      WalkStep(words, pos, ts[0]);
      if 0 < i { FindsTrigger(words, pos + 1 + |ts[0].subs|, ts[1..], i - 1); }
    }
  }

  predicate Found(words: seq<Rec>, w: Walk, subs: seq<Rec>) {
    w.AsMonster? && w.start + w.limit <= |words| && words[w.start..w.start + w.limit] == subs
  }

  lemma WalkStep(words: seq<Rec>, pos: nat, t: Trigger)
    requires pos < |words| && words[pos] == Header(t)
    ensures t.code == 0x0a ==> FindBlock(words, pos) == AsMonster(pos + 1, |t.subs|)
    ensures t.code != 0x0a ==> FindBlock(words, pos) == FindBlock(words, pos + 1 + |t.subs|)
  {
    Quarter(1 + |t.subs|, t.odd);
  }

  lemma Quarter(n: nat, odd: nat)
    requires odd < 4
    ensures (4 * n + odd) / 4 == n
  {
  }

  /** Reading back a record: of any blocks in front of a terminator the walk finds the sub-records of the first one
      with code 0x0a, all of them and no others, and no block when there is none. */
  lemma SubRecordsOfTriggers(words: seq<Rec>, ts: seq<Trigger>, i: nat)
    requires Triggers(words, 0, ts) && i <= |ts| && forall j | 0 <= j < i :: ts[j].code != 0x0a
    ensures i == |ts| ==> FindBlock(words, 0) == NoBlock && SubRecords(words) == []
    ensures i < |ts| && ts[i].code == 0x0a ==>
      Found(words, FindBlock(words, 0), ts[i].subs) && SubRecords(words) == ts[i].subs
  {
    FindsTrigger(words, 0, ts, i);
  }

  /** While the arrays fit, the byte-offset writes stay inside the struct and represent the sub-records. */
  lemma {:induction false} BuildRefines(id: nat, ws: seq<Rec>)
    requires id < 0x10000 && AllValid(ws) && Fits(ws)
    ensures Room(Blank(id), ws) && Represents(Scattered(Blank(id), ws), id, ws)
  {
    if ws == [] {
      BlankRepresents(id);
    } else {
      var init, r := ws[..|ws| - 1], ws[|ws| - 1];
      assert ws == init + [r];
      FitsPrefix(ws, |init|);
      BuildRefines(id, init);
      ScatterRefines(Scattered(Blank(id), init), id, init, r);
    }
  }

  lemma EmptyWord(id: nat, k: nat)
    ensures DefWord(id, [], k) == if k == 2 then id else 0
  {
    assert forall op, slot :: Operands([], op, slot) == [];
  }

  lemma {:induction false} RoomPrefix(d: seq<byte>, ws: seq<Rec>, i: nat)
    requires |d| == SIZE && Room(d, ws) && i <= |ws|
    ensures Room(d, ws[..i])
  {
    if i == |ws| {
      assert ws[..i] == ws;
    } else {
      RoomPrefix(d, ws[..|ws| - 1], i);
      assert ws[..|ws| - 1][..i] == ws[..i];
    }
  }

  /** `words` are the dwords of the record from its trigger-block list on, `recordId` its id. The walk ends, at
      the terminator or at a block inside the record, and no append leaves the struct. */
  method BuildEntityDef(d: array<byte>, recordId: nat, words: seq<Rec>) returns (found: nat)
    requires d.Length == SIZE && recordId < 0x10000 && AllValid(words)
    requires var w := FindBlock(words, 0); w.NoBlock? || (w.AsMonster? && w.start + w.limit <= |words|)
    requires Room(Blank(recordId), SubRecords(words))
    modifies d
    ensures found == if FindBlock(words, 0).AsMonster? then 1 else 0
    ensures d[..] == Scattered(Blank(recordId), SubRecords(words))
    ensures Fits(SubRecords(words)) ==> Represents(d[..], recordId, SubRecords(words))
  {
    ghost var ws := SubRecords(words);
    if Fits(ws) { BuildRefines(recordId, ws); }
    Clear(d, recordId);
    var blk := 0;
    while true
      invariant FindBlock(words, blk) == FindBlock(words, 0)
      invariant d[..] == Blank(recordId)
      decreases |words| - blk
    {
      var size := words[blk].operand;
      if size == 0 { return 0; }
      var nsub := size / 4;
      if words[blk].top != 0x0a {
        blk := blk + nsub;
        continue;
      }
      ScatterAll(d, words, blk + 1, nsub as int - 1, ws);
      return 1;
    }
  }

  method Clear(d: array<byte>, recordId: nat)
    requires d.Length == SIZE && recordId < 0x10000
    modifies d
    ensures d[..] == Blank(recordId)
  {
    forall i | 0 <= i < d.Length { d[i] := 0; }
    assert d[..] == seq(SIZE, _ => 0);
    PutWord(d, 0x04, recordId);
  }

  method ScatterAll(d: array<byte>, words: seq<Rec>, start: nat, limit: int, ghost ws: seq<Rec>)
    requires d.Length == SIZE && Room(d[..], ws)
    requires 0 <= limit ==> start + limit <= |words| && ws == words[start..start + limit]
    requires limit < 0 ==> ws == []
    modifies d
    ensures d[..] == Scattered(old(d[..]), ws)
  {
    ghost var before := d[..];
    var i := 0;
    while i < limit
      invariant 0 <= i <= |ws|
      invariant Room(before, ws[..i]) && d[..] == Scattered(before, ws[..i])
    {
      RoomPrefix(before, ws, i + 1);
      assert ws[..i + 1][..i] == ws[..i];
      ScatterInto(d, words[start + i]);
      i := i + 1;
    }
    assert ws[..i] == ws;
  }
}
