/** What becomes of every requeue: the slots of the queue with a tag on each thing that was put into them
    (roth_c/src/engine/dbase100.c). */
module RequeueTrace {
  import opened Options
  import opened ActionQueue

  datatype Cell = Cell(entry: Entry, tag: nat)

  /** The eight slots and how many are in use; all entries ever put into a slot, whose places are their tags; and
      the tags of those that were run from slot 0. */
  datatype Trace = Trace(cells: seq<Cell>, count: nat, written: seq<Entry>, ran: set<nat>) {
    predicate Shape() { |cells| == CAPACITY && count <= CAPACITY }

    /** A requeue: slot 0 is overwritten, and an empty queue becomes a queue of one. */
    function Put(w: Write): (r: Trace)
      requires Shape()
      ensures r.Shape()
    {
      var e := Written(cells[0].entry, w);
      Trace(cells[0 := Cell(e, |written|)], if count == 0 then 1 else count, written + [e], ran)
    }

    function PutAll(ws: seq<Write>): (r: Trace)
      requires Shape()
      ensures r.Shape()
      decreases |ws|
    {
      if ws == [] then this else PutAll(ws[..|ws| - 1]).Put(ws[|ws| - 1])
    }

    /** Slot 0 leaves and the others move up. */
    function Pop(): (r: Trace)
      requires Shape() && 0 < count
      ensures r.Shape()
    {
      this.(cells := cells[1..count] + cells[count - 1..], count := count - 1)
    }

    /** Run what is in slot 0, with the requeues the interpreter makes meanwhile, and pop slot 0 -- whatever it holds
        by then -- unless the chain requeued itself. */
    function RunHead(o: Outcome): (r: Trace)
      requires Shape() && 0 < count
      ensures r.Shape()
    {
      var t := this.(ran := ran + {cells[0].tag}).PutAll(o.Writes());
      if o.own.None? then t.Pop() else t
    }

    function Submit(e: Entry, o: Outcome): (r: Trace)
      requires Shape()
      ensures r.Shape()
    {
      if count == 0 then PutAll(o.Writes())
      else if count == CAPACITY then this
      else Trace(cells[count := Cell(e, |written|)], count + 1, written + [e], ran)
    }

    function Drain(os: seq<Outcome>): (r: Trace)
      requires Shape()
      ensures r.Shape()
      decreases |os|
    {
      if os == [] || count == 0 then this else RunHead(os[0]).Drain(os[1..])
    }

    /** The entry with this tag is in a slot that will be run. */
    predicate Waiting(tag: nat)
      requires Shape()
    {
      exists i: nat | i < count :: cells[i].tag == tag
    }

    /** It was put into a slot, was never run, and is in no slot that will be. */
    predicate Lost(tag: nat)
      requires Shape()
    {
      tag < |written| && tag !in ran && !Waiting(tag)
    }
  }

  function Follow(t: Trace, s: Event): (r: Trace)
    requires t.Shape()
    ensures r.Shape()
  {
    match s
    case Eval(e, drained, o) => t.Drain(drained).Submit(e, o)
    case Advance(busy, o) => if busy || t.count == 0 then t else t.RunHead(o)
  }

  function FollowAll(t: Trace, steps: seq<Event>): (r: Trace)
    requires t.Shape()
    ensures r.Shape()
    decreases |steps|
  {
    if steps == [] then t else FollowAll(Follow(t, steps[0]), steps[1..])
  }

  // ------------------------------------------------------------ the same slots as the queue

  /** The trace is the queue with tags on it. */
  predicate Tags(t: Trace, q: Queue) {
    t.Shape() && q.Shape() && t.count == |q.jobs| && forall i | 0 <= i < CAPACITY :: t.cells[i].entry == q.slots[i]
  }

  lemma {:induction false} PutAllFacts(t: Trace, ws: seq<Write>)
    requires t.Shape()
    ensures var r := t.PutAll(ws);
      && r.ran == t.ran && |r.written| == |t.written| + |ws| && t.written <= r.written
      && r.count == (if ws != [] && t.count == 0 then 1 else t.count)
      && r.cells == t.cells[0 := r.cells[0]]
      && r.cells[0].entry == WrittenAll(t.cells[0].entry, ws)
      && (if ws == [] then r.cells[0] == t.cells[0]
          else r.cells[0].tag == |r.written| - 1 && r.cells[0].entry == r.written[|r.written| - 1])
    decreases |ws|
  {
    if ws != [] { PutAllFacts(t, ws[..|ws| - 1]); }
  }

  lemma RunHeadTags(t: Trace, q: Queue, o: Outcome)
    requires Tags(t, q) && 0 < t.count
    ensures Tags(t.RunHead(o), q.Turn(o))
  {
    PutAllFacts(t.(ran := t.ran + {t.cells[0].tag}), o.Writes());
  }

  lemma SubmitTags(t: Trace, q: Queue, e: Entry, o: Outcome)
    requires Tags(t, q)
    ensures Tags(t.Submit(e, o), q.Submit(e, o))
  {
    PutAllFacts(t, o.Writes());
  }

  lemma {:induction false} DrainTags(t: Trace, q: Queue, os: seq<Outcome>)
    requires Tags(t, q)
    ensures Tags(t.Drain(os), q.Drain(os))
    decreases |os|
  {
    if os != [] && t.count != 0 {
      RunHeadTags(t, q, os[0]);
      DrainTags(t.RunHead(os[0]), q.Turn(os[0]), os[1..]);
    }
  }

  /** Over every run the trace has the slots of the queue. */
  lemma {:induction false} RunTags(t: Trace, q: Queue, steps: seq<Event>)
    requires Tags(t, q)
    ensures Tags(FollowAll(t, steps), Run(q, steps))
    decreases |steps|
  {
    if steps != [] {
      match steps[0] {
        case Eval(e, drained, o) =>
          DrainTags(t, q, drained);
          SubmitTags(t.Drain(drained), q.Drain(drained), e, o);
        case Advance(busy, o) =>
          if !busy && t.count != 0 { RunHeadTags(t, q, o); }
      }
      RunTags(Follow(t, steps[0]), Apply(q, steps[0]), steps[1..]);
    }
  }

  // -------------------------------------------------------------------- every requeue's fate

  /** Every waiting slot holds what was written under its tag; waiting tags are different, and none has run. */
  ghost predicate Tracked(t: Trace) {
    && t.Shape()
    && (forall x <- t.ran :: x < |t.written|)
    && (forall i: nat | i < t.count :: CellTracked(t, i))
    && forall i: nat, j: nat | i < j < t.count :: t.cells[i].tag != t.cells[j].tag
  }

  predicate CellTracked(t: Trace, i: nat)
    requires i < |t.cells|
  {
    var c := t.cells[i];
    c.tag < |t.written| && c.entry == t.written[c.tag] && c.tag !in t.ran
  }

  /** Every queue can be given tags, with nothing run or lost yet. */
  lemma Tagged(q: Queue) returns (t: Trace)
    requires q.Shape()
    ensures Tags(t, q) && Tracked(t) && t.ran == {} && forall x: nat :: !t.Lost(x)
  {
    var n := |q.jobs|;
    t := Trace(seq(CAPACITY, (i: nat) requires i < CAPACITY => Cell(q.slots[i], i)), n, q.slots[..n], {});
    forall x: nat ensures !t.Lost(x) { if x < n { assert t.cells[x].tag == x; } }
  }

  /** Everything ever put into a slot is waiting, or was run, or is lost -- exactly one of them. */
  lemma OneFate(t: Trace, x: nat)
    requires Tracked(t) && x < |t.written|
    ensures (t.Waiting(x) || x in t.ran || t.Lost(x)) && !(t.Waiting(x) && x in t.ran)
    ensures t.Lost(x) ==> !t.Waiting(x) && x !in t.ran
  {
    if t.Waiting(x) {
      var i: nat :| i < t.count && t.cells[i].tag == x;
      assert CellTracked(t, i);
    }
  }

  /** The tags a step throws away: those of requeues nested in a chain that ran from slot 0... */
  predicate HeadThrows(t: Trace, o: Outcome, x: nat) { |t.written| <= x < |t.written| + |o.nested| }

  /** ...and those of a chain run at once that a later requeue of the same run overwrote. */
  predicate SubmitThrows(t: Trace, o: Outcome, x: nat) { t.count == 0 && |t.written| <= x < |t.written| + |o.Writes()| - 1 }

  predicate DrainThrows(t: Trace, os: seq<Outcome>, x: nat)
    requires t.Shape()
    decreases |os|
  {
    os != [] && t.count != 0 && (HeadThrows(t, os[0], x) || DrainThrows(t.RunHead(os[0]), os[1..], x))
  }

  predicate Throws(t: Trace, s: Event, x: nat)
    requires t.Shape()
  {
    match s
    case Eval(_, drained, o) => DrainThrows(t, drained, x) || SubmitThrows(t.Drain(drained), o, x)
    case Advance(busy, o) => !busy && t.count != 0 && HeadThrows(t, o, x)
  }

  predicate RunThrows(t: Trace, steps: seq<Event>, x: nat)
    requires t.Shape()
    decreases |steps|
  {
    steps != [] && (Throws(t, steps[0], x) || RunThrows(Follow(t, steps[0]), steps[1..], x))
  }

  lemma PutAllTracked(t: Trace, ws: seq<Write>)
    requires t.Shape() && ws != []
    requires (forall x <- t.ran :: x < |t.written|) && (forall i: nat | 1 <= i < t.count :: CellTracked(t, i))
    requires forall i: nat, j: nat | 1 <= i < j < t.count :: t.cells[i].tag != t.cells[j].tag
    ensures Tracked(t.PutAll(ws))
  {
    var r := t.PutAll(ws);
    PutAllFacts(t, ws);
    forall i: nat | i < r.count ensures CellTracked(r, i) {
      if i > 0 { assert CellTracked(t, i); }
    }
    forall i: nat, j: nat | i < j < r.count ensures r.cells[i].tag != r.cells[j].tag {
      assert CellTracked(t, j);
    }
  }

  /** The state in which the chain from slot 0 runs: its own entry has run. */
  lemma Started(t: Trace)
    requires Tracked(t) && 0 < t.count
    ensures var s := t.(ran := t.ran + {t.cells[0].tag});
      && (forall x <- s.ran :: x < |s.written|) && (forall i: nat | 1 <= i < s.count :: CellTracked(s, i))
      && forall i: nat, j: nat | 1 <= i < j < s.count :: s.cells[i].tag != s.cells[j].tag
  {
    assert CellTracked(t, 0);
    forall i: nat | 1 <= i < t.count ensures CellTracked(t.(ran := t.ran + {t.cells[0].tag}), i) {
      assert CellTracked(t, i) && t.cells[0].tag != t.cells[i].tag;
    }
  }

  lemma PopTracked(t: Trace)
    requires t.Shape() && 0 < t.count && (forall x <- t.ran :: x < |t.written|)
    requires forall i: nat | 1 <= i < t.count :: CellTracked(t, i)
    requires forall i: nat, j: nat | 1 <= i < j < t.count :: t.cells[i].tag != t.cells[j].tag
    ensures Tracked(t.Pop())
    ensures forall x: nat :: t.Pop().Waiting(x) <==> exists i: nat | 1 <= i < t.count :: t.cells[i].tag == x
  {
    var r := t.Pop();
    forall i: nat | i < r.count ensures CellTracked(r, i) && r.cells[i] == t.cells[i + 1] { assert CellTracked(t, i + 1); }
    forall x: nat ensures r.Waiting(x) <==> exists i: nat | 1 <= i < t.count :: t.cells[i].tag == x {
      if i: nat :| 1 <= i < t.count && t.cells[i].tag == x { assert r.cells[i - 1].tag == x; }
      if r.Waiting(x) {
        var i: nat :| i < r.count && r.cells[i].tag == x;
        assert t.cells[i + 1].tag == x;
      }
    }
  }

  lemma RunHeadTracked(t: Trace, o: Outcome)
    requires Tracked(t) && 0 < t.count
    ensures Tracked(t.RunHead(o))
  {
    var s := t.(ran := t.ran + {t.cells[0].tag});
    Started(t);
    PutAllFacts(s, o.Writes());
    if o.Writes() != [] { PutAllTracked(s, o.Writes()); }
    if o.own.None? { PopTracked(s.PutAll(o.Writes())); }
  }

  /** What waits after slot 0 ran: the other slots as before, and the chain's own requeue if it made one. */
  lemma RunHeadWaiting(t: Trace, o: Outcome, x: nat)
    requires Tracked(t) && 0 < t.count
    ensures t.RunHead(o).Waiting(x) <==>
      (exists i: nat | 1 <= i < t.count :: t.cells[i].tag == x) || (o.own.Some? && x == |t.written| + |o.nested|)
  {
    var s := t.(ran := t.ran + {t.cells[0].tag});
    var r := s.PutAll(o.Writes());
    Started(t);
    PutAllFacts(s, o.Writes());
    if o.own.None? {
      if o.Writes() != [] { PutAllTracked(s, o.Writes()); }
      PopTracked(r);
      assert forall i: nat | 1 <= i < t.count :: r.cells[i] == t.cells[i];
    } else {
      assert r.cells[0].tag == |t.written| + |o.nested|;
      if i: nat :| 1 <= i < t.count && t.cells[i].tag == x { assert r.cells[i].tag == x; }
      if r.Waiting(x) {
        var i: nat :| i < r.count && r.cells[i].tag == x;
        if i > 0 { assert t.cells[i].tag == x; }
      }
    }
  }

  lemma WaitingSplit(t: Trace, x: nat)
    requires t.Shape() && 0 < t.count
    ensures t.Waiting(x) <==> t.cells[0].tag == x || exists i: nat | 1 <= i < t.count :: t.cells[i].tag == x
  {
    if i: nat :| 1 <= i < t.count && t.cells[i].tag == x { assert t.Waiting(x); }
  }

  lemma WaitingIsWritten(t: Trace, x: nat)
    requires Tracked(t) && t.Waiting(x)
    ensures x < |t.written| && x !in t.ran
  {
    var i: nat :| i < t.count && t.cells[i].tag == x;
    assert CellTracked(t, i);
  }

  /** Running slot 0 loses exactly the requeues nested in its chain, however the chain ends. */
  lemma RunHeadLoses(t: Trace, o: Outcome, x: nat)
    requires Tracked(t) && 0 < t.count
    ensures t.RunHead(o).Lost(x) <==> t.Lost(x) || HeadThrows(t, o, x)
  {
    var s := t.(ran := t.ran + {t.cells[0].tag});
    PutAllFacts(s, o.Writes());
    RunHeadWaiting(t, o, x);
    WaitingSplit(t, x);
    assert CellTracked(t, 0);
    if t.Waiting(x) { WaitingIsWritten(t, x); }
  }

  lemma SubmitTracked(t: Trace, e: Entry, o: Outcome)
    requires Tracked(t)
    ensures Tracked(t.Submit(e, o))
  {
    if t.count == 0 {
      if o.Writes() != [] { PutAllTracked(t, o.Writes()); }
    } else if t.count < CAPACITY {
      var r := t.Submit(e, o);
      forall i: nat | i < r.count ensures CellTracked(r, i) { if i < t.count { assert CellTracked(t, i); } }
      forall i: nat, j: nat | i < j < r.count ensures r.cells[i].tag != r.cells[j].tag { assert CellTracked(t, i); }
    }
  }

  /** Evaluating a chain loses exactly its own requeues before the last, and only when it runs at once. */
  lemma SubmitLoses(t: Trace, e: Entry, o: Outcome, x: nat)
    requires Tracked(t)
    ensures t.Submit(e, o).Lost(x) <==> t.Lost(x) || SubmitThrows(t, o, x)
  {
    var r := t.Submit(e, o);
    if t.count == 0 {
      PutAllFacts(t, o.Writes());
      if o.Writes() != [] { WaitingSplit(r, x); }
    } else if t.count < CAPACITY {
      if i: nat :| i < t.count && t.cells[i].tag == x { assert CellTracked(t, i) && r.cells[i].tag == x; }
      if i: nat :| i < r.count && r.cells[i].tag == x { assert i < t.count ==> t.cells[i].tag == x; }
      assert r.cells[t.count].tag == |t.written|;
    }
  }

  lemma {:induction false} DrainLoses(t: Trace, os: seq<Outcome>, x: nat)
    requires Tracked(t)
    ensures Tracked(t.Drain(os)) && (t.Drain(os).Lost(x) <==> t.Lost(x) || DrainThrows(t, os, x))
    decreases |os|
  {
    if os != [] && t.count != 0 {
      RunHeadTracked(t, os[0]);
      RunHeadLoses(t, os[0], x);
      DrainLoses(t.RunHead(os[0]), os[1..], x);
    }
  }

  /** Over every run of evaluations and advances: a requeue is in no slot and was never run if and only if it was
      nested in a chain that ran from slot 0, or belongs to a chain run at once that requeued again after it. */
  lemma {:induction false} RunLoses(t: Trace, steps: seq<Event>, x: nat)
    requires Tracked(t)
    ensures Tracked(FollowAll(t, steps))
    ensures FollowAll(t, steps).Lost(x) <==> t.Lost(x) || RunThrows(t, steps, x)
    decreases |steps|
  {
    if steps != [] {
      match steps[0] {
        case Eval(e, drained, o) =>
          DrainLoses(t, drained, x);
          SubmitTracked(t.Drain(drained), e, o);
          SubmitLoses(t.Drain(drained), e, o, x);
        case Advance(busy, o) =>
          if !busy && t.count != 0 {
            RunHeadTracked(t, o);
            RunHeadLoses(t, o, x);
          }
      }
      RunLoses(Follow(t, steps[0]), steps[1..], x);
    }
  }
}
