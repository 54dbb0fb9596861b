/** The record segmenter behind the random-choice opcode (roth_c/src/engine/dbase100.c). */
module Segmenter {
  import opened DbaseRecords

  /** A published sub-chain: its first record and how many records it has. */
  datatype Entry = Entry(ptr: nat, count: nat)

  predicate Keeps(r: Rec) {
    r.Op() in {0x05, 0x07, 0x0e, 0x11, 0x1a, 0x1d, 0x23, 0x26, 0x2d, 0x36, 0x37}
  }

  /** An If record whose condition does not hold. */
  predicate Fails(r: Rec, bitmap: Bitmap) { r.Op() == 0x0d && bitmap.Test(r.operand) == r.Not() }

  // ---------------------------------------------------------------------- specification

  /** The scan stays in memory: it reads the first record always, and stops after an opcode 0x0c or
      when the count is used up. */
  predicate Readable(mem: seq<Rec>, cur: nat, count: int)
    decreases |mem| - cur
  {
    cur < |mem| && (mem[cur].Op() == 0x0c || count <= 1 || Readable(mem, cur + 1, count - 1))
  }

  function Consumed(mem: seq<Rec>, cur: nat, count: int): (n: nat)
    requires Readable(mem, cur, count)
    ensures 1 <= n && cur + n <= |mem|
    decreases |mem| - cur
  {
    if mem[cur].Op() == 0x0c || count <= 1 then 1 else 1 + Consumed(mem, cur + 1, count - 1)
  }

  /** The records before the first If that fails. */
  function Live(recs: seq<Rec>, bitmap: Bitmap): (r: seq<Rec>)
    ensures r <= recs
  {
    if recs == [] || Fails(recs[0], bitmap) then [] else [recs[0]] + Live(recs[1..], bitmap)
  }

  /** Cut after every kept record; `open` is the piece still being collected. */
  function Pieces(recs: seq<Rec>, open: Entry): seq<Entry> {
    if recs == [] then []
    else if Keeps(recs[0]) then
      var closed := open.(count := open.count + 1);
      [closed] + Pieces(recs[1..], Entry(closed.ptr + closed.count, 0))
    else Pieces(recs[1..], open.(count := open.count + 1))
  }

  function Published(mem: seq<Rec>, cur: nat, count: int, bitmap: Bitmap): seq<Entry>
    requires Readable(mem, cur, count)
  {
    Pieces(Live(mem[cur..cur + Consumed(mem, cur, count)], bitmap), Entry(cur, 0))
  }

  // ------------------------------------------------------- what the published pieces are

  ghost predicate Contiguous(ps: seq<Entry>, start: nat) {
    && (ps != [] ==> ps[0].ptr == start)
    && forall i | 0 < i < |ps| :: ps[i].ptr == ps[i - 1].ptr + ps[i - 1].count
  }

  /** A piece ends with a kept record and has no other. */
  ghost predicate OnePiece(mem: seq<Rec>, p: Entry) {
    && 1 <= p.count && p.ptr + p.count <= |mem|
    && Keeps(mem[p.ptr + p.count - 1])
    && forall k | p.ptr <= k < p.ptr + p.count - 1 :: !Keeps(mem[k])
  }

  function EndOf(ps: seq<Entry>, start: nat): nat {
    if ps == [] then start else ps[|ps| - 1].ptr + ps[|ps| - 1].count
  }

  lemma ContiguousPrepend(e: Entry, rest: seq<Entry>)
    requires Contiguous(rest, e.ptr + e.count)
    ensures Contiguous([e] + rest, e.ptr) && EndOf([e] + rest, e.ptr) == EndOf(rest, e.ptr + e.count)
  {
    var ps := [e] + rest;
    forall i | 0 < i < |ps| ensures ps[i].ptr == ps[i - 1].ptr + ps[i - 1].count {
      assert ps[i] == rest[i - 1];
      if i > 1 { assert ps[i - 1] == rest[i - 2]; }
    }
  }

  lemma {:induction false} PiecesSplit(mem: seq<Rec>, from: nat, end: nat, open: Entry)
    requires from <= end <= |mem| && open.ptr + open.count == from
    requires forall k | open.ptr <= k < from :: !Keeps(mem[k])
    ensures var ps := Pieces(mem[from..end], open);
      && Contiguous(ps, open.ptr)
      && (forall p <- ps :: OnePiece(mem, p))
      && open.ptr <= EndOf(ps, open.ptr) <= end
      && (ps != [] ==> from < EndOf(ps, open.ptr))
      && (forall k | EndOf(ps, open.ptr) <= k < end :: !Keeps(mem[k]))
    decreases end - from
  {
    if from < end {
      assert mem[from..end][1..] == mem[from + 1..end];
      var longer := open.(count := open.count + 1);
      if Keeps(mem[from]) {
        PiecesSplit(mem, from + 1, end, Entry(from + 1, 0));
        var rest := Pieces(mem[from + 1..end], Entry(from + 1, 0));
        assert Pieces(mem[from..end], open) == [longer] + rest;
        ContiguousPrepend(longer, rest);
        assert OnePiece(mem, longer);
      } else {
        PiecesSplit(mem, from + 1, end, longer);
      }
    }
  }

  /** The first record whose If fails, or the end of the scan. */
  function LiveEnd(mem: seq<Rec>, cur: nat, count: int, bitmap: Bitmap): nat
    requires Readable(mem, cur, count)
  {
    cur + |Live(mem[cur..cur + Consumed(mem, cur, count)], bitmap)|
  }

  lemma LiveEndFacts(mem: seq<Rec>, cur: nat, count: int, bitmap: Bitmap)
    requires Readable(mem, cur, count)
    ensures var live := LiveEnd(mem, cur, count, bitmap);
      && cur <= live <= cur + Consumed(mem, cur, count)
      && (forall k | cur <= k < live :: !Fails(mem[k], bitmap))
      && (live < cur + Consumed(mem, cur, count) ==> Fails(mem[live], bitmap))
      && Published(mem, cur, count, bitmap) == Pieces(mem[cur..live], Entry(cur, 0))
  {
    LiveRange(mem, cur, cur + Consumed(mem, cur, count), bitmap);
  }

  /** Every live record before the last published end belongs to exactly one piece: the pieces are
      contiguous from the first record, non-empty, each ends with a kept record and holds no other
      and no failing If, and no kept record of the live prefix is left out. */
  lemma PublishedIsTheSplit(mem: seq<Rec>, cur: nat, count: int, bitmap: Bitmap)
    requires Readable(mem, cur, count)
    ensures var ps, live := Published(mem, cur, count, bitmap), LiveEnd(mem, cur, count, bitmap);
      && cur <= live <= cur + Consumed(mem, cur, count)
      && (forall k | cur <= k < live :: !Fails(mem[k], bitmap))
      && (live < cur + Consumed(mem, cur, count) ==> Fails(mem[live], bitmap))
      && Contiguous(ps, cur)
      && (forall p <- ps :: OnePiece(mem, p))
      && cur <= EndOf(ps, cur) <= live
      && (forall k | EndOf(ps, cur) <= k < live :: !Keeps(mem[k]))
  {
    LiveEndFacts(mem, cur, count, bitmap);
    PiecesSplit(mem, cur, LiveEnd(mem, cur, count, bitmap), Entry(cur, 0));
  }

  /** A contiguous split has a piece for every record in it. */
  lemma {:induction false} PieceOf(ps: seq<Entry>, start: nat, k: nat) returns (i: nat)
    requires Contiguous(ps, start) && start <= k < EndOf(ps, start)
    ensures i < |ps| && ps[i].ptr <= k < ps[i].ptr + ps[i].count
    decreases |ps|
  {
    assert ps != [];
    if ps[|ps| - 1].ptr <= k {
      i := |ps| - 1;
    } else {
      assert 1 < |ps|;
      var init := ps[..|ps| - 1];
      assert EndOf(init, start) == ps[|ps| - 1].ptr;
      i := PieceOf(init, start, k);
    }
  }

  /** The progress flag reads as set: without a bitmap every flag does. */
  predicate ReadsSet(bitmap: Bitmap, id: nat) { bitmap.NoBitmap? || id in bitmap.flags }

  lemma FailsBy(r: Rec, bitmap: Bitmap)
    ensures Fails(r, bitmap) <==> (r.top % 0x80 == 0x0d
      && ((r.top < 0x80 && !ReadsSet(bitmap, r.operand)) || (r.top >= 0x80 && ReadsSet(bitmap, r.operand))))
  {
  }

  /** The scan goes on from `cur` with `count` records left and stops at `end`. */
  predicate ScansTo(mem: seq<Rec>, cur: nat, count: int, end: nat)
    decreases count
  {
    && cur < end <= |mem|
    && if mem[cur].Op() == 0x0c || count <= 1 then end == cur + 1 else ScansTo(mem, cur + 1, count - 1, end)
  }

  lemma {:induction false} ScanEnd(mem: seq<Rec>, cur: nat, count: int)
    requires Readable(mem, cur, count)
    ensures ScansTo(mem, cur, count, cur + Consumed(mem, cur, count))
    decreases |mem| - cur
  {
    if !(mem[cur].Op() == 0x0c || count <= 1) { ScanEnd(mem, cur + 1, count - 1); }
  }

  lemma {:induction false} ScanStops(mem: seq<Rec>, cur: nat, count: int, end: nat)
    requires ScansTo(mem, cur, count, end)
    ensures cur < end <= |mem| && end - cur <= (if count < 1 then 1 else count)
    ensures forall k | cur <= k < end - 1 :: mem[k].top % 0x80 != 0x0c
    ensures mem[end - 1].top % 0x80 == 0x0c || end - cur == if count < 1 then 1 else count
    decreases |mem| - cur
  {
    if !(mem[cur].Op() == 0x0c || count <= 1) { ScanStops(mem, cur + 1, count - 1, end); }
  }

  /** The segmenter in terms of the records. The scan ends at the first opcode 0x0c or when the count runs out, after
      one record at the least. Its live part ends before the first If on a clear flag or If-NOT on a set one. A record
      of the live part ends a piece if and only if it has one of the eleven opcodes that have an effect of their own,
      and the pieces follow one another from the cursor on. */
  lemma PiecesEndAtEffects(mem: seq<Rec>, cur: nat, count: int, bitmap: Bitmap) returns (end: nat, live: nat)
    requires Readable(mem, cur, count)
    ensures end == cur + Consumed(mem, cur, count) && cur < end <= |mem| && end - cur <= (if count < 1 then 1 else count)
    ensures forall k | cur <= k < end - 1 :: mem[k].top % 0x80 != 0x0c
    ensures mem[end - 1].top % 0x80 == 0x0c || end - cur == if count < 1 then 1 else count
    ensures cur <= live <= end
    ensures forall k | cur <= k < end && k <= live :: k == live <==> (mem[k].top % 0x80 == 0x0d
      && ((mem[k].top < 0x80 && !ReadsSet(bitmap, mem[k].operand)) || (mem[k].top >= 0x80 && ReadsSet(bitmap, mem[k].operand))))
    ensures var ps := Published(mem, cur, count, bitmap);
      && Contiguous(ps, cur)
      && (forall p <- ps :: 1 <= p.count && p.ptr + p.count <= live)
      && forall k | cur <= k < live ::
           (exists p <- ps :: p.ptr + p.count - 1 == k)
           <==> mem[k].top % 0x80 in {0x05, 0x07, 0x0e, 0x11, 0x1a, 0x1d, 0x23, 0x26, 0x2d, 0x36, 0x37}
  {
    end, live := cur + Consumed(mem, cur, count), LiveEnd(mem, cur, count, bitmap);
    ScanEnd(mem, cur, count);
    ScanStops(mem, cur, count, end);
    PublishedIsTheSplit(mem, cur, count, bitmap);
    LiveEndsAt(mem, cur, live, end, bitmap);
    PiecesAre(mem, cur, live, Published(mem, cur, count, bitmap));
  }

  lemma LiveEndsAt(mem: seq<Rec>, cur: nat, live: nat, end: nat, bitmap: Bitmap)
    requires cur <= live <= end <= |mem| && (forall k | cur <= k < live :: !Fails(mem[k], bitmap))
    requires live < end ==> Fails(mem[live], bitmap)
    ensures forall k | cur <= k < end && k <= live :: k == live <==> (mem[k].top % 0x80 == 0x0d
      && ((mem[k].top < 0x80 && !ReadsSet(bitmap, mem[k].operand)) || (mem[k].top >= 0x80 && ReadsSet(bitmap, mem[k].operand))))
  {
    forall k | cur <= k < end && k <= live ensures k == live <==> (mem[k].top % 0x80 == 0x0d
      && ((mem[k].top < 0x80 && !ReadsSet(bitmap, mem[k].operand)) || (mem[k].top >= 0x80 && ReadsSet(bitmap, mem[k].operand))))
    {
      FailsBy(mem[k], bitmap);
    }
  }

  lemma PiecesAre(mem: seq<Rec>, cur: nat, live: nat, ps: seq<Entry>)
    requires cur <= live <= |mem| && Contiguous(ps, cur) && (forall p <- ps :: OnePiece(mem, p)) && EndOf(ps, cur) <= live
    requires forall k | EndOf(ps, cur) <= k < live :: !Keeps(mem[k])
    ensures forall p <- ps :: 1 <= p.count && p.ptr + p.count <= live
    ensures forall k | cur <= k < live ::
      (exists p <- ps :: p.ptr + p.count - 1 == k)
      <==> mem[k].top % 0x80 in {0x05, 0x07, 0x0e, 0x11, 0x1a, 0x1d, 0x23, 0x26, 0x2d, 0x36, 0x37}
  {
    forall p | p in ps ensures p.ptr + p.count <= live {
      var i :| 0 <= i < |ps| && ps[i] == p;
      EndsRise(mem, ps, cur, i);
    }
    forall k | cur <= k < live ensures (exists p <- ps :: p.ptr + p.count - 1 == k) <==> Keeps(mem[k]) {
      if Keeps(mem[k]) {
        var i := PieceOf(ps, cur, k);
        assert ps[i] in ps && OnePiece(mem, ps[i]);
        assert ps[i].ptr + ps[i].count - 1 == k;
      }
      if p :| p in ps && p.ptr + p.count - 1 == k { assert OnePiece(mem, p); }
    }
  }

  lemma {:induction false} EndsRise(mem: seq<Rec>, ps: seq<Entry>, start: nat, i: nat)
    requires Contiguous(ps, start) && (forall p <- ps :: OnePiece(mem, p)) && i < |ps|
    ensures ps[i].ptr + ps[i].count <= EndOf(ps, start)
    decreases |ps|
  {
    if i < |ps| - 1 {
      var init := ps[..|ps| - 1];
      EndsRise(mem, init, start, i);
      assert EndOf(init, start) == ps[|ps| - 1].ptr;
    }
  }

  lemma LiveRange(mem: seq<Rec>, cur: nat, end: nat, bitmap: Bitmap)
    requires cur <= end <= |mem|
    ensures var live := cur + |Live(mem[cur..end], bitmap)|;
      && live <= end && Live(mem[cur..end], bitmap) == mem[cur..live]
      && (forall k | cur <= k < live :: !Fails(mem[k], bitmap))
      && (live < end ==> Fails(mem[live], bitmap))
  {
    var live := Live(mem[cur..end], bitmap);
    LivePrefix(mem[cur..end], bitmap);
    forall k | cur <= k < cur + |live| ensures !Fails(mem[k], bitmap) { assert mem[k] == live[k - cur]; }
  }

  lemma {:induction false} LivePrefix(recs: seq<Rec>, bitmap: Bitmap)
    ensures var live := Live(recs, bitmap);
      && live <= recs
      && (forall k | 0 <= k < |live| :: !Fails(live[k], bitmap))
      && (|live| < |recs| ==> Fails(recs[|live|], bitmap))
  {
    if recs != [] && !Fails(recs[0], bitmap) {
      LivePrefix(recs[1..], bitmap);
    }
  }

  /** What one record does to the open piece. */
  lemma SplitStep(recs: seq<Rec>, open: Entry, bitmap: Bitmap)
    requires recs != []
    ensures var r, longer, rest := recs[0], open.(count := open.count + 1), Live(recs[1..], bitmap);
      Pieces(Live(recs, bitmap), open)
      == if Fails(r, bitmap) then []
         else if Keeps(r) then [longer] + Pieces(rest, Entry(longer.ptr + longer.count, 0))
         else Pieces(rest, longer)
  {
    if !Fails(recs[0], bitmap) {
      assert Live(recs, bitmap)[1..] == Live(recs[1..], bitmap);
    }
  }

  // --------------------------------------------------------------------- implementation

  /** Returns the count left over, the advanced cursor and the number of published entries. */
  method FilterActiveRecords(mem: seq<Rec>, cursor0: nat, count: int, bitmap: Bitmap, out: array<Entry>)
    returns (left: int, cursor: nat, active: nat)
    requires Readable(mem, cursor0, count)
    requires |Published(mem, cursor0, count, bitmap)| < out.Length
    modifies out
    ensures cursor == cursor0 + Consumed(mem, cursor0, count)
    ensures left == count - Consumed(mem, cursor0, count)
    ensures active == |Published(mem, cursor0, count, bitmap)|
    ensures out[..active] == Published(mem, cursor0, count, bitmap)
  {
    ScanEnd(mem, cursor0, count);
    ghost var end, published := cursor0 + Consumed(mem, cursor0, count), Published(mem, cursor0, count, bitmap);
    cursor, left, active := cursor0, count, 0;
    var failed := false;
    out[0] := Entry(cursor, 0);
    while true
      invariant ScansTo(mem, cursor, left, end) && end <= |mem|
      invariant left + cursor == count + cursor0 && active < out.Length
      invariant !failed ==> out[active].ptr + out[active].count == cursor
      invariant out[..active] + Todo(failed, mem[cursor..end], bitmap, out[active]) == published
      decreases |mem| - cursor
    {
      ReadTurn(mem, cursor, left, end);
      var r := mem[cursor];
      active, failed := OneRecord(out, active, r, cursor + 1, bitmap, failed, mem[cursor..end]);
      cursor, left := cursor + 1, left - 1;
      if r.Op() == 0x0c || left <= 0 { break; }
    }
  }

  /** One turn of the scan reads the first of the records still to be consumed. */
  lemma ReadTurn(mem: seq<Rec>, cur: nat, count: int, end: nat)
    requires ScansTo(mem, cur, count, end)
    ensures cur < end <= |mem| && mem[cur..end] != [] && mem[cur..end][0] == mem[cur] && mem[cur..end][1..] == mem[cur + 1..end]
    ensures if mem[cur].Op() == 0x0c || count <= 1 then end == cur + 1 else ScansTo(mem, cur + 1, count - 1, end)
  {
  }

  /** The entries still to come. */
  function Todo(failed: bool, rest: seq<Rec>, bitmap: Bitmap, open: Entry): seq<Entry> {
    if failed then [] else Pieces(Live(rest, bitmap), open)
  }

  lemma Regroup<T>(a: seq<T>, b: seq<T>, c: seq<T>)
    ensures a + (b + c) == (a + b) + c
  {
  }

  /** The body of the scan: classify the record `r`, the first of `rest`. */
  method OneRecord(out: array<Entry>, active0: nat, r: Rec, cursor: nat, bitmap: Bitmap, failed0: bool, ghost rest: seq<Rec>)
    returns (active: nat, failed: bool)
    requires rest != [] && r == rest[0] && active0 < out.Length
    requires active0 + |Todo(failed0, rest, bitmap, out[active0])| < out.Length
    requires !failed0 ==> out[active0].ptr + out[active0].count + 1 == cursor
    modifies out
    ensures active < out.Length
    ensures !failed ==> out[active].ptr + out[active].count == cursor
    ensures out[..active] + Todo(failed, rest[1..], bitmap, out[active])
         == old(out[..active0]) + old(Todo(failed0, rest, bitmap, out[active0]))
  {
    active, failed := active0, failed0;
    ghost var open, written := out[active], out[..active];
    ghost var longer := open.(count := open.count + 1);
    SplitStep(rest, open, bitmap);
    if Keeps(r) {
      Regroup(written, [longer], Pieces(Live(rest[1..], bitmap), Entry(longer.ptr + longer.count, 0)));
      active := Close(out, active, cursor, failed);
    } else {
      if r.Op() == 0x0d {
        if r.Not() { if bitmap.Test(r.operand) { failed := true; } }
        else { if !bitmap.Test(r.operand) { failed := true; } }
      }
      Extend(out, active);
    }
  }

  /** A kept record: close the open piece unless an If failed, and open the next one. */
  method Close(out: array<Entry>, active0: nat, cursor: nat, failed: bool) returns (active: nat)
    requires active0 < out.Length && (!failed ==> active0 + 1 < out.Length)
    modifies out
    ensures active == (if failed then active0 else active0 + 1) && active < out.Length
    ensures out[active] == Entry(cursor, 0)
    ensures out[..active] == old(out[..active0])
      + (if failed then [] else [old(out[active0]).(count := old(out[active0]).count + 1)])
  {
    active := active0;
    if !failed {
      out[active] := out[active].(count := out[active].count + 1);
      active := active + 1;
    }
    out[active] := Entry(cursor, 0);
  }

  /** Any other record is counted into the open piece. */
  method Extend(out: array<Entry>, active: nat)
    requires active < out.Length
    modifies out
    ensures out[active] == old(out[active]).(count := old(out[active]).count + 1)
    ensures out[..active] == old(out[..active])
  {
    out[active] := out[active].(count := out[active].count + 1);
  }
}
