/** The intrusive list of OS memory blocks (roth_c/src/engine/dos_runtime.c): a 0x14-byte header in front
    of the data, linked newest first from a global head. */
module BlockList {
  import opened MachineInt
  import opened Options

  const HEADER := 0x14

  datatype Kind = Linear | Dos

  /** A live block: where its header is, the OS handle or selector it must be freed with, and the size
      asked for. */
  datatype Block = Block(hdr: uint32, kind: Kind, handle: uint32, size: uint32)

  /** A call that gives memory back to the OS. */
  datatype Freed = FreeDos(selector: uint32) | FreeLinear(handle: uint32)

  function ReleaseOf(b: Block): Freed {
    if b.kind.Dos? then FreeDos(b.handle % 0x10000) else FreeLinear(b.handle)
  }

  function Flags(b: Block): uint32 { if b.kind.Dos? then 2 else 1 }

  /** The call that gives back a block with these header fields: bit 1 of the flags selects the DOS call. */
  function ReleaseCall(flags: uint32, handle: uint32): Freed {
    if flags / 2 % 2 == 1 then FreeDos(handle % 0x10000) else FreeLinear(handle)
  }

  lemma ReleaseCallOf(b: Block)
    ensures ReleaseCall(Flags(b), b.handle) == ReleaseOf(b)
  {
  }

  // ---------------------------------------------------------------------- specification

  /** Every block occupies its header, its data, and at least the first dword of them. */
  function EndOf(b: Block): (e: nat)
    ensures b.hdr + HEADER + 4 <= e && b.hdr + HEADER + b.size <= e
  {
    b.hdr + HEADER + if b.size < 4 then 4 else b.size
  }

  predicate Apart(a: Block, b: Block) { EndOf(a) <= b.hdr || EndOf(b) <= a.hdr }

  predicate InMemory(b: Block) { 0 < b.hdr && b.hdr % 4 == 0 && EndOf(b) <= 0x1_0000_0000 }

  ghost predicate Disjoint(live: seq<Block>) {
    && (forall b <- live :: InMemory(b))
    && forall i, j | 0 <= i < j < |live| :: Apart(live[i], live[j])
  }

  function HdrAt(live: seq<Block>, i: int): uint32 { if 0 <= i < |live| then live[i].hdr else 0 }

  /** The header of `b` is in memory, linked to `next` and `prev`, with its handle, size and kind. */
  ghost predicate Header(mem: map<uint32, uint32>, b: Block, next: uint32, prev: uint32)
    requires InMemory(b)
  {
    && {b.hdr, b.hdr + 4, b.hdr + 8, b.hdr + 0xc, b.hdr + 0x10} <= mem.Keys
    && mem[b.hdr] == next
    && mem[b.hdr + 4] == prev
    && mem[b.hdr + 8] == b.handle
    && mem[b.hdr + 0xc] == b.size
    && mem[b.hdr + 0x10] == Flags(b)
  }

  ghost predicate HeaderAt(mem: map<uint32, uint32>, live: seq<Block>, i: nat)
    requires i < |live|
  {
    InMemory(live[i]) && Header(mem, live[i], HdrAt(live, i + 1), HdrAt(live, i - 1))
  }

  ghost predicate Represents(mem: map<uint32, uint32>, head: uint32, live: seq<Block>) {
    && Disjoint(live)
    && head == HdrAt(live, 0)
    && forall i: nat | i < |live| :: HeaderAt(mem, live, i)
  }

  /** Memory after the shared link tail pushed the header `hdr`. */
  function Linked(mem: map<uint32, uint32>, head: uint32, hdr: uint32, size: uint32): map<uint32, uint32>
    requires hdr + HEADER < 0x1_0000_0000 && head + 4 < 0x1_0000_0000
  {
    var m1 := mem[hdr + 0xc := size][hdr + 0x14 := 0];
    var m2 := if head != 0 then m1[head + 4 := hdr] else m1;
    m2[hdr + 4 := 0][hdr := head]
  }

  /** Memory after the neighbours `prev` and `next` of a header were linked to each other. */
  function Unlinked(mem: map<uint32, uint32>, prev: uint32, next: uint32): map<uint32, uint32>
    requires next + 4 < 0x1_0000_0000
  {
    var m1 := if next != 0 then mem[next + 4 := prev] else mem;
    if prev != 0 then m1[prev := next] else m1
  }

  function Without<T>(s: seq<T>, i: nat): seq<T>
    requires i < |s|
  {
    s[..i] + s[i + 1..]
  }

  lemma HdrsDiffer(live: seq<Block>, i: nat, j: nat)
    requires Disjoint(live) && i < |live| && j < |live| && i != j
    ensures Apart(live[i], live[j])
  {
    if j < i { assert Apart(live[j], live[i]); }
  }

  lemma LinkRepresents(mem: map<uint32, uint32>, head: uint32, live: seq<Block>, b: Block)
    requires Represents(mem, head, live) && InMemory(b) && forall a <- live :: Apart(a, b)
    requires b.hdr + 8 in mem && mem[b.hdr + 8] == b.handle
    requires b.hdr + 0x10 in mem && mem[b.hdr + 0x10] == Flags(b)
    ensures HdrAt(live, 0) + 4 < 0x1_0000_0000
    ensures Represents(Linked(mem, head, b.hdr, b.size), b.hdr, [b] + live)
  {
    var live' := [b] + live;
    if live != [] { assert live[0] in live; }
    PushDisjoint(live, b);
    var mem' := Linked(mem, head, b.hdr, b.size);
    forall i: nat | i < |live'| ensures HeaderAt(mem', live', i) {
      if i > 0 {
        assert live[i - 1] in live && live'[i] == live[i - 1];
        LinkKeepsHeader(mem, head, live, b, i - 1);
      }
    }
  }

  lemma PushDisjoint(live: seq<Block>, b: Block)
    requires Disjoint(live) && InMemory(b) && forall a <- live :: Apart(a, b)
    ensures Disjoint([b] + live)
  {
    var live' := [b] + live;
    forall i, j | 0 <= i < j < |live'| ensures Apart(live'[i], live'[j]) {
      if i == 0 { assert live'[j] in live; } else { HdrsDiffer(live, i - 1, j - 1); }
    }
  }

  /** The old head now points back at the pushed block; no other header changes. */
  lemma LinkKeepsHeader(mem: map<uint32, uint32>, head: uint32, live: seq<Block>, b: Block, i: nat)
    requires Represents(mem, head, live) && InMemory(b) && i < |live| && Apart(live[i], b)
    requires head + 4 < 0x1_0000_0000 && InMemory(live[i])
    ensures Header(Linked(mem, head, b.hdr, b.size), live[i], HdrAt(live, i + 1), if i == 0 then b.hdr else HdrAt(live, i - 1))
  {
    assert HeaderAt(mem, live, i);
    if i > 0 { HdrsDiffer(live, 0, i); assert live[0] in live; }
  }

  lemma UnlinkRepresents(mem: map<uint32, uint32>, head: uint32, live: seq<Block>, i: nat)
    requires Represents(mem, head, live) && i < |live|
    ensures HeaderAt(mem, live, i) && mem[live[i].hdr] as int + 4 < 0x1_0000_0000
    ensures var next, prev := mem[live[i].hdr], mem[live[i].hdr + 4];
      Represents(Unlinked(mem, prev, next), if prev != 0 then head else next, Without(live, i))
  {
    var live' := Without(live, i);
    assert HeaderAt(mem, live, i);
    var next, prev := mem[live[i].hdr], mem[live[i].hdr + 4];
    if i + 1 < |live| { assert live[i + 1] in live; }
    var mem' := Unlinked(mem, prev, next);
    forall b | b in live' ensures InMemory(b) { assert b in live; }
    forall j, k | 0 <= j < k < |live'| ensures Apart(live'[j], live'[k]) {
      HdrsDiffer(live, if j < i then j else j + 1, if k < i then k else k + 1);
    }
    if i > 0 { assert live[i - 1] in live; }
    forall j: nat | j < |live'| ensures HeaderAt(mem', live', j) { UnlinkKeepsHeader(mem, head, live, i, j); }
  }

  /** A write outside a header leaves it alone; a write to one of its links sets that link. */
  lemma HeaderWrite(mem: map<uint32, uint32>, b: Block, next: uint32, prev: uint32, a: uint32, v: uint32)
    requires InMemory(b) && Header(mem, b, next, prev)
    ensures a < b.hdr || b.hdr + 0x10 < a ==> Header(mem[a := v], b, next, prev)
    ensures a == b.hdr ==> Header(mem[a := v], b, v, prev)
    ensures a == b.hdr + 4 ==> Header(mem[a := v], b, next, v)
  {
  }

  lemma NeighboursWithout(live: seq<Block>, i: nat, j: nat)
    requires i < |live| && j < |live| - 1
    ensures var k := if j < i then j else j + 1;
      && Without(live, i)[j] == live[k]
      && HdrAt(Without(live, i), j + 1) == (if k == i - 1 then HdrAt(live, i + 1) else HdrAt(live, k + 1))
      && HdrAt(Without(live, i), j - 1) == (if k == i + 1 then HdrAt(live, i - 1) else HdrAt(live, k - 1))
  {
  }

  /** Every other header after the unlinking: the left neighbour's next and the right neighbour's prev skip
      the removed block, nothing else changes. */
  lemma UnlinkKeepsHeader(mem: map<uint32, uint32>, head: uint32, live: seq<Block>, i: nat, j: nat)
    requires Represents(mem, head, live) && i < |live| && j < |live| - 1
    requires HeaderAt(mem, live, i) && mem[live[i].hdr] as int + 4 < 0x1_0000_0000
    ensures HeaderAt(Unlinked(mem, mem[live[i].hdr + 4], mem[live[i].hdr]), Without(live, i), j)
  {
    var k := if j < i then j else j + 1;
    UnlinkedHeader(mem, head, live, i, k);
    NeighboursWithout(live, i, j);
  }

  /** The same, by the position `k` before the removal. */
  lemma UnlinkedHeader(mem: map<uint32, uint32>, head: uint32, live: seq<Block>, i: nat, k: nat)
    requires Represents(mem, head, live) && i < |live| && k < |live| && k != i
    requires HeaderAt(mem, live, i) && mem[live[i].hdr] as int + 4 < 0x1_0000_0000
    ensures InMemory(live[k])
    ensures Header(Unlinked(mem, mem[live[i].hdr + 4], mem[live[i].hdr]), live[k],
                   if k == i - 1 then HdrAt(live, i + 1) else HdrAt(live, k + 1),
                   if k == i + 1 then HdrAt(live, i - 1) else HdrAt(live, k - 1))
  {
    var next, prev := mem[live[i].hdr], mem[live[i].hdr + 4];
    RightNeighbour(mem, head, live, i, k);
    LeftNeighbour(if next != 0 then mem[next + 4 := prev] else mem, live, i, k,
                  if k == i + 1 then prev else HdrAt(live, k - 1), next);
    assert prev == HdrAt(live, i - 1) && next == HdrAt(live, i + 1);
  }

  /** The second of the two writes. */
  lemma LeftNeighbour(m1: map<uint32, uint32>, live: seq<Block>, i: nat, k: nat, p1: uint32, next: uint32)
    requires Disjoint(live) && i < |live| && k < |live| && k != i && InMemory(live[k])
    requires Header(m1, live[k], HdrAt(live, k + 1), p1)
    ensures var prev := HdrAt(live, i - 1);
      Header(if prev != 0 then m1[prev := next] else m1, live[k], if k == i - 1 then next else HdrAt(live, k + 1), p1)
  {
    var prev := HdrAt(live, i - 1);
    if i > 0 { assert live[i - 1] in live; }
    if prev != 0 {
      if k != i - 1 { HdrsDiffer(live, k, i - 1); }
      HeaderWrite(m1, live[k], HdrAt(live, k + 1), p1, prev, next);
    }
  }

  /** The first of the two writes. */
  lemma RightNeighbour(mem: map<uint32, uint32>, head: uint32, live: seq<Block>, i: nat, k: nat)
    requires Represents(mem, head, live) && i < |live| && k < |live| && k != i
    requires HeaderAt(mem, live, i) && mem[live[i].hdr] as int + 4 < 0x1_0000_0000
    ensures InMemory(live[k])
    ensures var next, prev := mem[live[i].hdr], mem[live[i].hdr + 4];
      Header(if next != 0 then mem[next + 4 := prev] else mem, live[k],
             HdrAt(live, k + 1), if k == i + 1 then prev else HdrAt(live, k - 1))
  {
    assert HeaderAt(mem, live, k);
    var next, prev := mem[live[i].hdr], mem[live[i].hdr + 4];
    if next != 0 {
      assert live[i + 1] in live;
      if k != i + 1 { HdrsDiffer(live, k, i + 1); }
      HeaderWrite(mem, live[k], HdrAt(live, k + 1), HdrAt(live, k - 1), next + 4, prev);
    }
  }

  /** The removed header keeps its handle and kind. */
  lemma UnlinkKeepsOwn(mem: map<uint32, uint32>, head: uint32, live: seq<Block>, i: nat)
    requires Represents(mem, head, live) && i < |live|
    requires HeaderAt(mem, live, i) && mem[live[i].hdr] as int + 4 < 0x1_0000_0000
    ensures var m, hdr := Unlinked(mem, mem[live[i].hdr + 4], mem[live[i].hdr]), live[i].hdr;
      hdr + 8 in m && hdr + 0x10 in m && m[hdr + 8] == mem[hdr + 8] && m[hdr + 0x10] == mem[hdr + 0x10]
  {
    if i + 1 < |live| { HdrsDiffer(live, i, i + 1); assert live[i + 1] in live; }
    if i > 0 { HdrsDiffer(live, i, i - 1); assert live[i - 1] in live; }
  }

  /** Stamping a header that is not in the list yet changes no header of the list. */
  lemma StampKeeps(mem: map<uint32, uint32>, head: uint32, live: seq<Block>, b: Block, kind: uint32)
    requires Represents(mem, head, live) && InMemory(b) && forall a <- live :: Apart(a, b)
    ensures Represents(mem[b.hdr + 8 := b.handle][b.hdr + 0x10 := kind], head, live)
  {
    var m1 := mem[b.hdr + 8 := b.handle];
    var m2 := m1[b.hdr + 0x10 := kind];
    forall i: nat | i < |live| ensures HeaderAt(m2, live, i) {
      assert HeaderAt(mem, live, i) && live[i] in live;
      HeaderWrite(mem, live[i], HdrAt(live, i + 1), HdrAt(live, i - 1), b.hdr + 8, b.handle);
      HeaderWrite(m1, live[i], HdrAt(live, i + 1), HdrAt(live, i - 1), b.hdr + 0x10, kind);
    }
  }

  // --------------------------------------------------------------------- requests to the OS

  /** Rounded down to whole pages: the low word and the high word are masked separately. */
  function WholePages(sum: uint32): uint32 { sum / 0x10000 * 0x10000 + sum % 0x10000 / 0x1000 * 0x1000 }

  /** The byte count of a DPMI request: the block and its header, rounded up to whole pages. */
  function Pages(size: uint32): uint32 { WholePages(U32(size + HEADER + 0xfff)) }

  function Paragraphs(size: uint32): uint32 { U32(size + 0x23) / 0x10 }

  lemma PagesBelow(sum: uint32)
    ensures WholePages(sum) % 0x1000 == 0 && sum - 0xfff <= WholePages(sum) <= sum
  {
    var high, low := sum / 0x10000, sum % 0x10000;
    var pages, rest := low / 0x1000, low % 0x1000;
    assert WholePages(sum) == 0x1000 * (0x10 * high + pages);
    assert sum == 0x1000 * (0x10 * high + pages) + rest;
    PageMultiple(0x10 * high + pages);
  }

  lemma PageMultiple(k: nat)
    ensures (0x1000 * k) % 0x1000 == 0
  {
  }

  /** A sum of less than twice 2^32 wraps at most once. */
  lemma WrapOnce(x: nat)
    requires x < 0x2_0000_0000
    ensures U32(x) == if x < 0x1_0000_0000 then x else x - 0x1_0000_0000
  {
    if 0x1_0000_0000 <= x { assert x % 0x1_0000_0000 == x - 0x1_0000_0000; }
  }

  /** The requested pages hold the header and the data if and only if the sum did not wrap, and never
      a whole page more... */
  lemma PagesCover(size: uint32)
    ensures Pages(size) % 0x1000 == 0
    ensures size + HEADER <= Pages(size) <==> size + HEADER + 0xfff < 0x1_0000_0000
    ensures Pages(size) < size + HEADER + 0x1000
  {
    WrapOnce(size + HEADER + 0xfff);
    PagesBelow(U32(size + HEADER + 0xfff));
  }

  /** ...and likewise for DOS paragraphs. */
  lemma ParagraphsCover(size: uint32)
    ensures size + HEADER <= 0x10 * Paragraphs(size) <==> size + 0x23 < 0x1_0000_0000
    ensures 0x10 * Paragraphs(size) < size + HEADER + 0x10
  {
    WrapOnce(size + 0x23);
  }

  /** What the OS answers to a request for memory. */
  datatype Answer = Refused | Granted(base: uint32, handle: uint32)

  /** The granted stretch is in memory and no live block is in it. */
  ghost predicate Unused(base: nat, length: nat, live: seq<Block>) {
    base + length <= 0x1_0000_0000 && forall a <- live :: EndOf(a) <= base || base + length <= a.hdr
  }

  predicate Holds(base: nat, length: nat, b: Block) { base <= b.hdr && EndOf(b) <= base + length }

  lemma GrantedIsApart(base: nat, length: nat, live: seq<Block>, b: Block)
    requires Unused(base, length, live) && Holds(base, length, b) && 0 < b.hdr && b.hdr % 4 == 0
    ensures InMemory(b) && forall a <- live :: Apart(a, b)
  {
  }

  function LinearBlock(base: uint32, handle: uint32, size: uint32): Block { Block(U32(base + 3) / 4 * 4, Linear, handle, size) }

  function DosBlock(segment: uint32, selector: uint32, size: uint32): Block {
    Block(segment % 0x10000 * 0x10, Dos, selector % 0x10000, size)
  }

  lemma DosAligned(segment: uint32, selector: uint32, size: uint32)
    ensures DosBlock(segment, selector, size).hdr % 4 == 0
  {
    var low := segment % 0x10000;
    FourTimes(4 * low);
    assert DosBlock(segment, selector, size).hdr == 4 * (4 * low);
  }

  lemma FourTimes(k: nat)
    ensures (4 * k) % 4 == 0
  {
  }

  /** On an aligned base the requested pages hold the whole block if and only if their sum did not wrap... */
  lemma PagesHold(base: uint32, handle: uint32, size: uint32)
    requires base % 4 == 0 && base + 3 < 0x1_0000_0000
    ensures Holds(base, Pages(size), LinearBlock(base, handle, size)) <==> size + HEADER + 0xfff < 0x1_0000_0000
  {
    PagesCover(size);
    SmallPages(size);
    AlignedBase(base);
    assert LinearBlock(base, handle, size).hdr == base;
  }

  lemma SmallPages(size: uint32)
    ensures size < 4 ==> Pages(size) == 0x1000
  {
  }

  lemma AlignedBase(base: uint32)
    requires base % 4 == 0 && base + 3 < 0x1_0000_0000
    ensures U32(base + 3) / 4 * 4 == base
  {
    var k := base / 4;
    assert base == 4 * k && (4 * k + 3) / 4 == k;
  }

  /** ...and so do the paragraphs. */
  lemma ParagraphsHold(segment: uint32, selector: uint32, size: uint32)
    ensures Holds(segment % 0x10000 * 0x10, 0x10 * Paragraphs(size), DosBlock(segment, selector, size))
       <==> size + 0x23 < 0x1_0000_0000
  {
    ParagraphsCover(size);
    if size < 4 { assert Paragraphs(size) == 2; }
  }

  // -------------------------------------------------------------------- books over a run

  /** The blocks allocated, still live and given back so far, and the OS calls that gave them back. */
  datatype Books = Books(all: seq<Block>, live: seq<Block>, gone: seq<Block>, log: seq<Freed>)

  /** A call of the program, with what the OS answers to the request for memory it makes. */
  datatype Op = AllocLinear(size: uint32, answer: Answer) | AllocDos(size: uint32, answer: Answer) | Free(ptr: uint32)

  /** The block that an allocation puts in front of the list, if any. */
  function NewBlock(op: Op): Option<Block> {
    match op
    case AllocLinear(size, a) => if a.Refused? || a.base == 0 then None else Some(LinearBlock(a.base, a.handle, size))
    case AllocDos(size, a) =>
      if a.Refused? || DosBlock(a.base, a.handle, size).hdr == 0 then None else Some(DosBlock(a.base, a.handle, size))
    case Free(_) => None
  }

  /** The live block with this data pointer. */
  function Find(live: seq<Block>, ptr: uint32): (r: Option<nat>)
    ensures r.Some? ==> r.value < |live| && live[r.value].hdr + HEADER == ptr
    ensures r.None? ==> forall b <- live :: b.hdr + HEADER != ptr
  {
    if live == [] then None
    else if live[0].hdr + HEADER == ptr then Some(0)
    else var r := Find(live[1..], ptr); if r.None? then None else Some(r.value + 1)
  }

  function Apply(k: Books, op: Op): Books {
    if op.Free? then
      var i := Find(k.live, op.ptr);
      if i.None? then k
      else Books(k.all, Without(k.live, i.value), k.gone + [k.live[i.value]], k.log + [ReleaseOf(k.live[i.value])])
    else
      var b := NewBlock(op);
      if b.None? then k else Enter(k, b.value)
  }

  function Enter(k: Books, b: Block): Books { Books(k.all + [b], [b] + k.live, k.gone, k.log) }

  /** The OS grants memory that is not in use and holds the block, and callers free live blocks or nothing. */
  ghost predicate Legal(k: Books, ops: seq<Op>)
    decreases |ops|
  {
    ops == [] || (LegalOp(k, ops[0]) && Legal(Apply(k, ops[0]), ops[1..]))
  }

  ghost predicate LegalOp(k: Books, op: Op) {
    match op
    case AllocLinear(size, a) => LinearGrant(k.live, size, a)
    case AllocDos(size, a) => DosGrant(k.live, size, a)
    case Free(ptr) => ptr == 0 || Find(k.live, ptr).Some?
  }

  ghost predicate LinearGrant(live: seq<Block>, size: uint32, a: Answer) {
    a.Granted? && a.base != 0 ==>
      && a.base + 3 < 0x1_0000_0000 && Unused(a.base, Pages(size), live)
      && Holds(a.base, Pages(size), LinearBlock(a.base, a.handle, size))
  }

  ghost predicate DosGrant(live: seq<Block>, size: uint32, a: Answer) {
    a.Granted? ==>
      var b := DosBlock(a.base, a.handle, size);
      b.hdr != 0 ==> Unused(b.hdr, 0x10 * Paragraphs(size), live) && Holds(b.hdr, 0x10 * Paragraphs(size), b)
  }

  function Run(k: Books, ops: seq<Op>): Books
    decreases |ops|
  {
    if ops == [] then k else Run(Apply(k, ops[0]), ops[1..])
  }

  /** Conservation: every block ever allocated is live or was given back, in number, and every block given
      back went through the OS call of its own kind with its own handle. */
  ghost predicate Balanced(k: Books) {
    && multiset(k.all) == multiset(k.live) + multiset(k.gone)
    && |k.log| == |k.gone| && forall i | 0 <= i < |k.log| :: k.log[i] == ReleaseOf(k.gone[i])
  }

  lemma ApplyBalanced(k: Books, op: Op)
    requires Balanced(k)
    ensures Balanced(Apply(k, op))
  {
    if op.Free? {
      if Find(k.live, op.ptr).Some? { WithoutOne(k.live, Find(k.live, op.ptr).value); }
    } else if NewBlock(op).Some? {
      EnterBalanced(k, NewBlock(op).value);
    }
  }

  lemma EnterBalanced(k: Books, b: Block)
    requires Balanced(k)
    ensures Balanced(Enter(k, b))
  {
  }

  lemma WithoutOne(live: seq<Block>, i: nat)
    requires i < |live|
    ensures multiset(live) == multiset(Without(live, i)) + multiset{live[i]}
  {
    assert live == live[..i] + [live[i]] + live[i + 1..];
  }

  /** ...over every sequence of allocations and frees, in any order. */
  lemma {:induction false} RunBalanced(k: Books, ops: seq<Op>)
    requires Balanced(k)
    ensures Balanced(Run(k, ops))
    decreases |ops|
  {
    if ops != [] {
      ApplyBalanced(k, ops[0]);
      RunBalanced(Apply(k, ops[0]), ops[1..]);
    }
  }

  /** The run began with no blocks. */
  const EMPTY := Books([], [], [], [])

  /** The block came from this call: at the least multiple of four from the base of the answer on, or at the segment of
      the answer; `f` gives the handle or selector of that very answer back, through the call of its kind. */
  predicate Answered(op: Op, b: Block, f: Freed) {
    || (op.AllocLinear? && op.answer.Granted? && b.size == op.size && b.hdr % 4 == 0
        && op.answer.base <= b.hdr < op.answer.base + 4 && f == FreeLinear(op.answer.handle))
    || (op.AllocDos? && op.answer.Granted? && b.size == op.size && b.hdr == op.answer.base % 0x10000 * 0x10
        && f == FreeDos(op.answer.handle % 0x10000))
  }

  predicate Origin(ops: seq<Op>, b: Block) { exists j | 0 <= j < |ops| :: Answered(ops[j], b, ReleaseOf(b)) }

  lemma AnsweredBlock(live: seq<Block>, op: Op)
    requires !op.Free? && NewBlock(op).Some? && LegalOp(Books([], live, [], []), op)
    ensures Answered(op, NewBlock(op).value, ReleaseOf(NewBlock(op).value))
  {
    if op.AllocLinear? { LeastMultiple(op.answer.base); } else { SelectorOnce(op.answer.handle); }
  }

  lemma LeastMultiple(base: uint32)
    requires base + 3 < 0x1_0000_0000
    ensures var hdr := U32(base + 3) / 4 * 4; hdr % 4 == 0 && base <= hdr < base + 4
  {
    var k := (base + 3) / 4;
    assert (4 * k) % 4 == 0 && base + 3 == 4 * k + (base + 3) % 4;
  }

  lemma SelectorOnce(handle: uint32)
    ensures handle % 0x10000 % 0x10000 == handle % 0x10000
  {
  }

  lemma OriginLater(ops: seq<Op>, op: Op, b: Block)
    ensures Origin(ops, b) ==> Origin(ops + [op], b)
    ensures Answered(op, b, ReleaseOf(b)) ==> Origin(ops + [op], b)
  {
    var all := ops + [op];
    assert all[|ops|] == op;
    if j :| 0 <= j < |ops| && Answered(ops[j], b, ReleaseOf(b)) { assert all[j] == ops[j]; }
  }

  ghost predicate Traced(ops: seq<Op>, k: Books) {
    && (forall b <- k.live :: Origin(ops, b))
    && (forall b <- k.gone :: Origin(ops, b))
    && |k.log| == |k.gone| && forall i | 0 <= i < |k.log| :: k.log[i] == ReleaseOf(k.gone[i])
  }

  lemma ApplyTraced(done: seq<Op>, k: Books, op: Op)
    requires Traced(done, k) && LegalOp(k, op)
    ensures Traced(done + [op], Apply(k, op))
  {
    if !op.Free? && NewBlock(op).Some? { AnsweredBlock(k.live, op); }
    var after := Apply(k, op);
    forall b | b in k.live || b in k.gone ensures Origin(done + [op], b) { OriginLater(done, op, b); }
    if !op.Free? && NewBlock(op).Some? { OriginLater(done, op, NewBlock(op).value); }
  }

  lemma {:induction false} RunTraced(done: seq<Op>, k: Books, ops: seq<Op>)
    requires Traced(done, k) && Legal(k, ops)
    ensures Traced(done + ops, Run(k, ops))
    decreases |ops|
  {
    if ops == [] {
      assert done + ops == done;
    } else {
      ApplyTraced(done, k, ops[0]);
      RunTraced(done + [ops[0]], Apply(k, ops[0]), ops[1..]);
      assert done + [ops[0]] + ops[1..] == done + ops;
    }
  }

  /** Over every legal run from an empty list: each release gives back the handle, or the selector, that the OS
      answered when that block was allocated, and through the call of the kind that was asked for it. */
  lemma RunReleasesAnswers(ops: seq<Op>, i: nat)
    requires Legal(EMPTY, ops) && i < |Run(EMPTY, ops).log|
    ensures var k := Run(EMPTY, ops);
      i < |k.gone| && exists j | 0 <= j < |ops| :: Answered(ops[j], k.gone[i], k.log[i])
  {
    RunTraced([], EMPTY, ops);
    assert [] + ops == ops;
    var k := Run(EMPTY, ops);
    assert k.gone[i] in k.gone && Origin(ops, k.gone[i]);
  }

  lemma ReleasedBook(k: Books, ptr: uint32, i: nat)
    requires Find(k.live, ptr) == Some(i)
    ensures var after, b := Apply(k, Free(ptr)), k.live[i];
      && b.hdr + HEADER == ptr && after.live == Without(k.live, i)
      && after.log == k.log + [ReleaseCall(Flags(b), b.handle)]
  {
    ReleaseCallOf(k.live[i]);
  }

  // ---------------------------------------------------------------------- implementation

  /** The dwords of memory, the list head, and the calls made to give memory back. */
  class BlockHeap {
    var mem: map<uint32, uint32>
    var head: uint32
    var log: seq<Freed>
    ghost var books: Books

    ghost predicate Valid()
      reads this
    {
      Represents(mem, head, books.live) && Balanced(books) && log == books.log
    }

    constructor ()
      ensures Valid() && books == EMPTY
    {
      mem, head, log := map[], 0, [];
      books := EMPTY;
    }

    /** The link tail both allocators share. */
    method LinkBlock(hdr: uint32, size: uint32) returns (data: uint32)
      requires hdr as int + HEADER < 0x1_0000_0000 && head as int + 4 < 0x1_0000_0000
      modifies this`mem, this`head
      ensures mem == Linked(old(mem), old(head), hdr, size) && head == hdr && data == hdr + HEADER
    {
      mem := mem[hdr + 0xc := size];
      mem := mem[hdr + 0x14 := 0];
      if head != 0 { mem := mem[head + 4 := hdr]; }
      mem := mem[hdr + 4 := 0];
      mem := mem[hdr := head];
      head := hdr;
      data := hdr + HEADER;
    }

    /** Stamp the handle and the kind, then link; the first dword of the data is cleared. */
    method Adopt(b: Block) returns (data: uint32)
      requires Valid() && InMemory(b) && forall a <- books.live :: Apart(a, b)
      modifies this
      ensures Valid() && books == Enter(old(books), b) && data == b.hdr + 0x14 && head == b.hdr
      ensures data in mem && mem[data] == 0
    {
      ghost var live := books.live;
      mem := mem[b.hdr + 8 := b.handle];
      mem := mem[b.hdr + 0x10 := Flags(b)];
      StampKeeps(old(mem), head, live, b, Flags(b));
      LinkRepresents(mem, head, live, b);
      assert live != [] ==> Apart(live[0], b) && InMemory(live[0]);
      data := LinkBlock(b.hdr, b.size);
      EnterBalanced(books, b);
      books := Enter(books, b);
    }

    /** Ask the OS for whole pages; `os` is what it answers to a request of so many bytes, and memory it grants is
        not in use and holds the block. The block begins at the least multiple of four in it, carries the handle of
        the answer and kind 1, and is the new head. */
    method AllocDpmiBlock(size: uint32, os: uint32 -> Answer) returns (data: uint32)
      requires Valid() && LinearGrant(books.live, size, os(Pages(size)))
      modifies this
      ensures Valid() && books == Apply(old(books), AllocLinear(size, os(Pages(size))))
      ensures var a := os(Pages(size)); a.Refused? || a.base == 0 ==> data == 0 && books == old(books)
      ensures var a := os(Pages(size)); a.Granted? && a.base != 0 ==>
        var hdr := data - 0x14;
        && hdr % 4 == 0 && a.base <= hdr < a.base + 4 && head == hdr
        && {hdr + 8, hdr + 0xc, hdr + 0x10, hdr + 0x14} <= mem.Keys
        && mem[hdr + 8] == a.handle && mem[hdr + 0xc] == size && mem[hdr + 0x10] == 1 && mem[hdr + 0x14] == 0
        && books.live == [Block(hdr, Linear, a.handle, size)] + old(books.live)
    {
      var rounded := U32(size + HEADER + 0xfff);
      rounded := WholePages(rounded);
      var a := os(rounded);
      if a.Refused? || a.base == 0 { return 0; }
      var b := LinearBlock(a.base, a.handle, size);
      LeastMultiple(a.base);
      GrantedIsApart(a.base, Pages(size), books.live, b);
      data := Adopt(b);
      assert HeaderAt(mem, books.live, 0);
    }

    /** Likewise for conventional memory, in paragraphs; the base of the answer is a segment, its handle a selector, and
        the kind is 2. */
    method AllocDosBlock(size: uint32, os: uint32 -> Answer) returns (data: uint32)
      requires Valid() && DosGrant(books.live, size, os(Paragraphs(size)))
      modifies this
      ensures Valid() && books == Apply(old(books), AllocDos(size, os(Paragraphs(size))))
      ensures var a := os(Paragraphs(size)); a.Refused? || a.base % 0x10000 == 0 ==> data == 0 && books == old(books)
      ensures var a := os(Paragraphs(size)); a.Granted? && a.base % 0x10000 != 0 ==>
        var hdr := a.base % 0x10000 * 0x10;
        && data == hdr + 0x14 && head == hdr
        && {hdr + 8, hdr + 0xc, hdr + 0x10, hdr + 0x14} <= mem.Keys
        && mem[hdr + 8] == a.handle % 0x10000 && mem[hdr + 0xc] == size && mem[hdr + 0x10] == 2 && mem[hdr + 0x14] == 0
        && books.live == [Block(hdr, Dos, a.handle % 0x10000, size)] + old(books.live)
    {
      var a := os(U32(size + 0x23) / 0x10);
      if a.Refused? { return 0; }
      var b := DosBlock(a.base, a.handle, size);
      if b.hdr == 0 { return 0; }
      DosAligned(a.base, a.handle, size);
      GrantedIsApart(b.hdr, 0x10 * Paragraphs(size), books.live, b);
      data := Adopt(b);
      assert HeaderAt(mem, books.live, 0);
    }

    /** Return a block to the OS: bit 1 of the kind selects the DOS call. */
    method GiveBack(hdr: uint32)
      requires hdr as int + HEADER < 0x1_0000_0000 && hdr + 8 in mem && hdr + 0x10 in mem
      modifies this`log
      ensures log == old(log) + [ReleaseCall(mem[hdr + 0x10], mem[hdr + 8])]
    {
      if mem[hdr + 0x10] / 2 % 2 == 1 { log := log + [FreeDos(mem[hdr + 8] % 0x10000)]; }
      else { log := log + [FreeLinear(mem[hdr + 8])]; }
    }

    /** Link the neighbours of a header to each other; the header itself keeps its handle and kind. */
    method Unlink(hdr: uint32, ghost live: seq<Block>, ghost i: nat)
      requires Represents(mem, head, live) && i < |live| && live[i].hdr == hdr
      modifies this`mem, this`head
      ensures Represents(mem, head, Without(live, i))
      ensures hdr + 0x10 < 0x1_0000_0000 && hdr + 8 in mem && hdr + 0x10 in mem
      ensures mem[hdr + 8] == live[i].handle && mem[hdr + 0x10] == Flags(live[i])
    {
      UnlinkRepresents(mem, head, live, i);
      UnlinkKeepsOwn(mem, head, live, i);
      var prev, next := mem[hdr + 4], mem[hdr];
      if next != 0 { mem := mem[next + 4 := prev]; }
      if prev != 0 { mem := mem[prev := next]; }
      else { head := next; }
    }

    /** Unlink a live block by its data pointer and give it back; a null pointer is ignored. */
    method FreeBlock(ptr: uint32)
      requires Valid() && (ptr != 0 ==> Find(books.live, ptr).Some?)
      modifies this
      ensures Valid()
      ensures books == if ptr == 0 then old(books) else Apply(old(books), Free(ptr))
    {
      if ptr != 0 { Release(ptr, Find(books.live, ptr).value); }
    }

    method Release(ptr: uint32, ghost i: nat)
      requires Valid() && Find(books.live, ptr) == Some(i)
      modifies this
      ensures Valid() && books == Apply(old(books), Free(ptr))
    {
      ghost var after := Apply(books, Free(ptr));
      ApplyBalanced(books, Free(ptr));
      ReleasedBook(books, ptr, i);
      Unlink(ptr - HEADER, books.live, i);
      GiveBack(ptr - HEADER);
      assert Represents(mem, head, after.live) && log == after.log;
      books := after;
    }

    /** Any sequence of allocations and frees, in any order. */
    method Perform(ops: seq<Op>)
      requires Valid() && Legal(books, ops)
      modifies this
      ensures Valid() && books == Run(old(books), ops)
    {
      var i := 0;
      ghost var rest := ops;
      while i < |ops|
        invariant 0 <= i <= |ops| && rest == ops[i..]
        invariant Valid() && Legal(books, rest) && Run(books, rest) == Run(old(books), ops)
      {
        match ops[i] {
          case AllocLinear(size, a) => var _ := AllocDpmiBlock(size, _ => a);
          case AllocDos(size, a) => var _ := AllocDosBlock(size, _ => a);
          case Free(ptr) =>
            NoBlockAtNull(books.live);
            FreeBlock(ptr);
        }
        i, rest := i + 1, rest[1..];
      }
    }
  }

  lemma NoBlockAtNull(live: seq<Block>)
    ensures Find(live, 0).None?
  {
  }
}
