/** The eight-slot queue of deferred dialogue actions (roth_c/src/engine/dbase100.c). */
module ActionQueue {
  import opened Options

  const CAPACITY := 8

  /** A chain to run: its first record, how many records it has, and the caller's flags. */
  datatype Entry = Entry(chain: nat, count: int, flags: nat)

  /** A requeue by the interpreter: what it writes to slot 0. Opcode 0x1a leaves the flags as they are. */
  datatype Write = Write(chain: nat, count: int, flags: Option<nat>)

  function Written(slot: Entry, w: Write): Entry {
    Entry(w.chain, w.count, if w.flags.None? then slot.flags else w.flags.value)
  }

  /** Slot 0 after some requeues. */
  function WrittenAll(slot: Entry, ws: seq<Write>): Entry {
    if ws == [] then slot else Written(WrittenAll(slot, ws[..|ws| - 1]), ws[|ws| - 1])
  }

  /** What the interpreter did with a chain: the requeues of chains nested in it, whose results it ignores, and
      the requeue of the chain itself if that is how it ended. */
  datatype Outcome = Outcome(nested: seq<Write>, own: Option<Write>) {
    function Writes(): seq<Write> { if own.None? then nested else nested + [own.value] }
  }

  // --------------------------------------------------------------------- specification

  /** The slots, the jobs waiting in them, the jobs run to completion in order, and for every accepted job
      (numbered by arrival) the point it has to be run from. */
  datatype Queue = Queue(slots: seq<Entry>, jobs: seq<nat>, done: seq<nat>, point: seq<Entry>) {
    predicate Shape() { |slots| == CAPACITY && |jobs| <= CAPACITY }

    function SlotsAfter(o: Outcome): (r: seq<Entry>)
      requires Shape()
      ensures |r| == CAPACITY
    {
      slots[0 := WrittenAll(slots[0], o.Writes())]
    }

    /** Run the work in slot 0: a finished chain leaves and the others move up. Slot 0 is what a nested requeue
        overwrote, so that goes with it. */
    function Turn(o: Outcome): (r: Queue)
      requires Shape() && jobs != []
      ensures r.Shape()
    {
      var s := SlotsAfter(o);
      if o.own.None? then
        var n := |jobs| - 1;
        Queue(s[1..n + 1] + s[n..], jobs[1..], done + [jobs[0]], point)
      else Queue(s, jobs, done, if jobs[0] < |point| then point[jobs[0] := s[0]] else point)
    }

    /** Run a chain while nothing waits: a requeue makes the queue one of one. A nested requeue that is the last
        one becomes a job of its own. */
    function RunNow(e: Entry, o: Outcome): (r: Queue)
      requires Shape() && jobs == []
      ensures r.Shape()
    {
      var id, s := |point|, SlotsAfter(o);
      if o.own.Some? then Queue(s, [id], done, point + [s[0]])
      else if o.nested == [] then Queue(slots, [], done + [id], point + [e])
      else Queue(s, [id + 1], done + [id], point + [e, s[0]])
    }

    /** Evaluate a new chain: run it now when nothing waits, else queue it; a full queue refuses. */
    function Submit(e: Entry, o: Outcome): (r: Queue)
      requires Shape()
      ensures r.Shape()
    {
      if jobs == [] then RunNow(e, o)
      else if |jobs| == CAPACITY then this
      else Queue(slots[|jobs| := e], jobs + [|point|], done, point + [e])
    }

    /** Run the queue until it is empty, or the outcomes run out. */
    function Drain(os: seq<Outcome>): (r: Queue)
      requires Shape()
      ensures r.Shape()
      decreases |os|
    {
      if os == [] || jobs == [] then this else Turn(os[0]).Drain(os[1..])
    }
  }

  function Upto(n: nat): seq<nat> { seq(n, (i: nat) => i) }

  /** First come, first served, and exactly once: the finished jobs followed by the waiting ones are
      all accepted jobs in order of arrival, and every waiting job is stored with the point it has to be
      run from. */
  ghost predicate Inv(q: Queue) {
    && q.Shape()
    && q.done + q.jobs == Upto(|q.point|)
    && forall i | 0 <= i < |q.jobs| :: q.jobs[i] < |q.point| && q.slots[i] == q.point[q.jobs[i]]
  }

  datatype Event =
    | Eval(e: Entry, drained: seq<Outcome>, o: Outcome)
    | Advance(busy: bool, o: Outcome)

  function Apply(q: Queue, s: Event): (r: Queue)
    requires q.Shape()
    ensures r.Shape()
  {
    match s
    case Eval(e, drained, o) => q.Drain(drained).Submit(e, o)
    case Advance(busy, o) => if busy || q.jobs == [] then q else q.Turn(o)
  }

  function Run(q: Queue, steps: seq<Event>): (r: Queue)
    requires q.Shape()
    ensures r.Shape()
    decreases |steps|
  {
    if steps == [] then q else Run(Apply(q, steps[0]), steps[1..])
  }

  lemma WaitingOrder(q: Queue, i: nat)
    requires Inv(q) && i < |q.jobs|
    ensures q.jobs[i] == |q.done| + i && |q.point| == |q.done| + |q.jobs|
  {
    assert (q.done + q.jobs)[|q.done| + i] == q.jobs[i];
    assert |q.done + q.jobs| == |Upto(|q.point|)|;
  }

  lemma TurnKeepsInv(q: Queue, o: Outcome)
    requires Inv(q) && q.jobs != []
    ensures Inv(q.Turn(o))
  {
    var r := q.Turn(o);
    if o.own.None? {
      assert r.done + r.jobs == q.done + q.jobs;
    } else {
      forall i | 0 <= i < |q.jobs| ensures r.slots[i] == r.point[r.jobs[i]] {
        WaitingOrder(q, 0);
        WaitingOrder(q, i);
      }
    }
  }

  lemma UptoNext(n: nat)
    ensures Upto(n + 1) == Upto(n) + [n] && Upto(n + 2) == Upto(n) + [n, n + 1]
  {
  }

  lemma SubmitKeepsInv(q: Queue, e: Entry, o: Outcome)
    requires Inv(q)
    ensures Inv(q.Submit(e, o))
  {
    var id := |q.point|;
    UptoNext(id);
    if q.jobs != [] {
      assert q.done + (q.jobs + [id]) == (q.done + q.jobs) + [id];
    } else {
      assert q.done + q.jobs == q.done;
      assert q.done + [id] + [] == q.done + [id];
      assert q.done + [id] + [id + 1] == q.done + [id, id + 1];
    }
  }

  lemma {:induction false} DrainKeepsInv(q: Queue, os: seq<Outcome>)
    requires Inv(q)
    ensures Inv(q.Drain(os))
    decreases |os|
  {
    if os != [] && q.jobs != [] {
      TurnKeepsInv(q, os[0]);
      DrainKeepsInv(q.Turn(os[0]), os[1..]);
    }
  }

  lemma {:induction false} DrainSnoc(q: Queue, os: seq<Outcome>, o: Outcome)
    requires q.Shape() && q.Drain(os).jobs != []
    ensures q.Drain(os + [o]) == q.Drain(os).Turn(o)
    decreases |os|
  {
    if os == [] {
      assert [] + [o] == [o] && [o][1..] == [];
    } else if q.jobs != [] {
      assert (os + [o])[1..] == os[1..] + [o];
      DrainSnoc(q.Turn(os[0]), os[1..], o);
    }
  }

  lemma ApplyKeepsInv(q: Queue, s: Event)
    requires Inv(q)
    ensures Inv(Apply(q, s))
  {
    match s
    case Eval(e, drained, o) =>
      DrainKeepsInv(q, drained);
      SubmitKeepsInv(q.Drain(drained), e, o);
    case Advance(busy, o) =>
      if !busy && q.jobs != [] { TurnKeepsInv(q, o); }
  }

  /** Over every run of evaluations and advances: at most eight jobs wait, jobs finish in order of
      arrival and none twice, no accepted job is lost, and a finished job stays finished. */
  lemma {:induction false} RunKeepsInv(q: Queue, steps: seq<Event>)
    requires Inv(q)
    ensures Inv(Run(q, steps)) && q.done <= Run(q, steps).done && |q.point| <= |Run(q, steps).point|
    decreases |steps|
  {
    if steps != [] {
      ApplyKeepsInv(q, steps[0]);
      ApplyGrows(q, steps[0]);
      RunKeepsInv(Apply(q, steps[0]), steps[1..]);
    }
  }

  lemma {:induction false} DrainGrows(q: Queue, os: seq<Outcome>)
    requires Inv(q)
    ensures q.done <= q.Drain(os).done && |q.point| == |q.Drain(os).point|
    decreases |os|
  {
    if os != [] && q.jobs != [] {
      TurnKeepsInv(q, os[0]);
      DrainGrows(q.Turn(os[0]), os[1..]);
    }
  }

  lemma ApplyGrows(q: Queue, s: Event)
    requires Inv(q)
    ensures q.done <= Apply(q, s).done && |q.point| <= |Apply(q, s).point|
  {
    if s.Eval? { DrainGrows(q, s.drained); DrainKeepsInv(q, s.drained); }
  }

  /** A waiting job that is not at the head keeps its slot contents and its turn over an advance. */
  lemma AdvanceKeepsTheOthers(q: Queue, o: Outcome, i: nat)
    requires Inv(q) && 0 < i < |q.jobs|
    ensures var r := q.Turn(o); var j := if o.own.None? then i - 1 else i;
      r.jobs[j] == q.jobs[i] && r.slots[j] == q.slots[i] && r.point[r.jobs[j]] == q.point[q.jobs[i]]
  {
    WaitingOrder(q, 0);
    WaitingOrder(q, i);
  }

  /** The caller's flags of a chain that opcode 0x1a suspends from an empty queue are kept if and only if
      slot 0 happened to hold them already: of the requeues written since, or of whatever was there before. */
  lemma KeptFlagsAreStale(q: Queue, e: Entry, nested: seq<Write>, chain: nat, count: int)
    requires Inv(q) && q.jobs == []
    ensures var r := q.Submit(e, Outcome(nested, Some(Write(chain, count, None))));
      r.jobs == [|q.point|] && (r.slots[0].flags == e.flags <==> WrittenAll(q.slots[0], nested).flags == e.flags)
  {
    var ws := nested + [Write(chain, count, None)];
    assert ws[..|ws| - 1] == nested;
  }

  // -------------------------------------------------------------------- implementation

  /** The flags around the queue: a window is open, a dialogue context, movement frozen, the state of the voice,
      the queue may be drained, a cutscene overlay, a choice pending. */
  datatype Flags = Flags(busy: bool, context: bool, frozen: bool, voice: nat, active: bool, overlay: bool, choice: bool)

  /** The voice is cut short (`ended` is the state that leaves it in) and the window goes with it. */
  function Teardown(f: Flags, ended: nat): (r: Flags)
    ensures r.busy ==> r.voice == 1
    ensures !f.busy ==> r == f
  {
    if !f.busy then f
    else if ended != 1 then f.(active := false, voice := 0, busy := false, frozen := false, context := false)
    else f.(active := false, voice := 1)
  }

  /** Nothing happens while no window is open. Else the queue is no longer to be drained, and unless the voice ends in
      state 1 the window, the dialogue context and the freeze go and the voice is still; overlay and choice stay. */
  lemma TeardownMeaning(f: Flags, ended: nat)
    ensures var r := Teardown(f, ended);
      && (!f.busy ==> r == f)
      && (f.busy && ended == 1 ==> r == Flags(true, f.context, f.frozen, 1, false, f.overlay, f.choice))
      && (f.busy && ended != 1 ==> r == Flags(false, false, false, 0, false, f.overlay, f.choice))
  {
  }

  /** One chain run from the queue: what it did with slot 0, the flags it left, and how its voice ended. */
  datatype Turnout = Turnout(o: Outcome, flags: Flags, ended: nat)

  function Outcomes(ts: seq<Turnout>): (os: seq<Outcome>)
    ensures |os| == |ts|
  {
    seq(|ts|, (i: nat) requires i < |ts| => ts[i].o)
  }

  class DialogueQueue {
    const slots: array<Entry>
    var count: nat
    var flags: Flags
    var draining: bool
    /** The job history the slots stand for. */
    ghost var q: Queue

    ghost predicate Valid()
      reads this, slots
    {
      Inv(q) && q.slots == slots[..] && count == |q.jobs|
    }

    constructor ()
      ensures Valid() && fresh(slots) && q.jobs == [] && q.point == []
    {
      slots := new Entry[CAPACITY](_ => Entry(0, 0, 0));
      count, draining, flags := 0, false, Flags(false, false, false, 0, false, false, false);
      new;
      q := Queue(slots[..], [], [], []);
    }

    /** One requeue by the interpreter: overwrite slot 0; an empty queue becomes a queue of one. */
    method Requeue(w: Write)
      requires slots.Length == CAPACITY
      modifies this`count, slots
      ensures slots[..] == old(slots[..])[0 := Written(old(slots[0]), w)]
      ensures count == if old(count) == 0 then 1 else old(count)
    {
      slots[0] := slots[0].(chain := w.chain, count := w.count);
      if w.flags.Some? { slots[0] := slots[0].(flags := w.flags.value); }
      if count == 0 { count := count + 1; }
    }

    /** Everything a chain does to the queue while it runs. */
    method RunChain(o: Outcome)
      requires slots.Length == CAPACITY
      modifies this`count, slots
      ensures slots[..] == old(slots[..])[0 := WrittenAll(old(slots[0]), o.Writes())]
      ensures count == if o.Writes() != [] && old(count) == 0 then 1 else old(count)
    {
      var ws := o.Writes();
      assert old(slots[..])[0 := slots[0]] == slots[..];
      for i := 0 to |ws|
        invariant slots[..] == old(slots[..])[0 := WrittenAll(old(slots[0]), ws[..i])]
        invariant count == if 0 < i && old(count) == 0 then 1 else old(count)
      {
        assert ws[..i + 1][..i] == ws[..i];
        Requeue(ws[i]);
      }
      assert ws[..|ws|] == ws;
    }

    /** Pop slot 0 and move the others up. */
    method Pop()
      requires slots.Length == CAPACITY && 0 < count <= CAPACITY
      modifies this`count, slots
      ensures count == old(count) - 1
      ensures slots[..] == old(slots[1..count]) + old(slots[count - 1..])
    {
      count := count - 1;
      var i := 0;
      while i < count
        invariant 0 <= i <= count
        invariant forall k | 0 <= k < i :: slots[k] == old(slots[k + 1])
        invariant forall k | i <= k < CAPACITY :: slots[k] == old(slots[k])
        modifies slots
      {
        slots[i] := slots[i + 1];
        i := i + 1;
      }
    }

    /** Run slot 0 and pop it when it finished. */
    method RunHead(o: Outcome) returns (finished: bool)
      requires Valid() && count != 0
      modifies this`count, this`q, slots
      ensures Valid() && q == old(q).Turn(o) && finished == o.own.None?
    {
      TurnKeepsInv(q, o);
      RunChain(o);
      finished := o.own.None?;
      if finished { Pop(); }
      q := q.Turn(o);
    }

    /** One chain of a drain, and the voice it leaves. */
    method OneTurn(t: Turnout)
      requires Valid() && count != 0
      modifies this`count, this`q, this`flags, slots
      ensures Valid() && q == old(q).Turn(t.o) && flags == Teardown(t.flags, t.ended)
    {
      var _ := RunHead(t.o);
      flags := Teardown(t.flags, t.ended);
    }

    /** Run the queue until it is empty; `turns` is what the interpreter does chain by chain. A voice that still
        speaks is cut short before the first and after every chain, so no window stays open but over a voice in
        state 1; `used` says how many of the turns it took. */
    method RunAll(ended: nat, turns: seq<Turnout>) returns (ghost used: nat)
      requires Valid() && q.Drain(Outcomes(turns)).jobs == []
      modifies this, slots
      ensures Valid() && q == old(q).Drain(Outcomes(turns)) && count == 0
      ensures !draining && (flags.busy ==> flags.voice == 1)
      ensures used <= |turns| && q == old(q).Drain(Outcomes(turns)[..used])
      ensures flags == if used == 0 then Teardown(old(flags), ended) else Teardown(turns[used - 1].flags, turns[used - 1].ended)
    {
      draining := true;
      flags := Teardown(flags, ended);
      var i := 0;
      ghost var rest, seen: seq<Outcome> := Outcomes(turns), [];
      while count != 0
        invariant Valid() && 0 <= i <= |turns| && rest == Outcomes(turns)[i..]
        invariant q.Drain(rest) == old(q).Drain(Outcomes(turns))
        invariant flags == if i == 0 then Teardown(old(flags), ended) else Teardown(turns[i - 1].flags, turns[i - 1].ended)
        invariant seen == Outcomes(turns)[..i] && old(q).Drain(seen) == q
        decreases |turns| - i
      {
        DrainSnoc(old(q), seen, turns[i].o);
        OneTurn(turns[i]);
        i, rest, seen := i + 1, rest[1..], seen + [turns[i].o];
      }
      used := i;
      draining := false;
    }

    /** Clear the drain flag; the overlay closes once neither the queue nor a choice needs it. */
    method FinishEval()
      modifies this`flags
      ensures flags == old(flags).(active := false, overlay := old(flags.overlay) && (count != 0 || old(flags.choice)))
    {
      if count == 0 && !flags.choice && flags.overlay { flags := flags.(overlay := false); }
      flags := flags.(active := false);
    }

    /** Evaluate a record's chain; while the drain flag is set the waiting queue runs first. `after` are the flags
        the chain leaves if it runs. Returns whether it ran now, and whether it was accepted. */
    method EvalOrQueue(e: Entry, ended: nat, drained: seq<Turnout>, o: Outcome, after: Flags) returns (ran: bool, accepted: bool)
      requires Valid() && (flags.active ==> q.Drain(Outcomes(drained)).jobs == [])
      modifies this, slots
      ensures Valid() && q == Apply(old(q), Eval(e, if old(flags.active) then Outcomes(drained) else [], o))
      ensures ran == (old(flags.active) || old(count) == 0) && accepted == (ran || old(count) < CAPACITY)
      ensures ran ==> flags == after
      ensures !accepted ==> q == old(q) && flags == old(flags)
    {
      if flags.active && count != 0 { var _ := RunAll(ended, drained); }
      SubmitKeepsInv(q, e, o);
      ghost var next := q.Submit(e, o);
      if count == 0 {
        RunChain(o);
        q, flags := next, after;
        return true, true;
      }
      if count > 7 { return false, false; }
      slots[count] := e;
      count := count + 1;
      q := next;
      return false, true;
    }

    /** Run and pop one entry, unless a window is open or nothing waits; finish the evaluation when that was the
        last one. */
    method AdvanceQueue(o: Outcome, after: Flags)
      requires Valid()
      modifies this, slots
      ensures Valid() && q == Apply(old(q), Advance(old(flags.busy), o))
      ensures old(flags.busy) || old(count) == 0 ==> flags == old(flags)
      ensures !old(flags.busy) && old(count) != 0 ==>
        flags == if o.own.None? && old(count) == 1 then after.(active := false, overlay := after.overlay && after.choice)
                 else after
    {
      if flags.busy || count == 0 { return; }
      var finished := RunHead(o);
      flags := after;
      if finished && count == 0 { FinishEval(); }
    }
  }
}
