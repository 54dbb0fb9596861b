/** Interpreter runs as the queue sees them: which requeues of a run reach slot 0, and which are lost
    (roth_c/src/engine/dbase100.c). */
module QueueRuns {
  import opened Options
  import opened DbaseRecords
  import Seg = Segmenter
  import opened ActionQueue
  import opened Interpreter
  import opened RequeueTrace

  // ---------------------------------------------------------------- runs and the queue

  /** No called subsystem touches the queue, the nested drain included. */
  ghost predicate KeepsQueue(env: Env) {
    forall c: Callee, arg: nat, w: World :: SameQueue(env.call(c, arg, w).0, w)
  }

  predicate SameQueue(a: World, b: World) { a.core.queue == b.core.queue && a.core.queueCount == b.core.queueCount }

  /** `a` is `b` after the requeues `ws`. */
  predicate QueueAfter(a: World, b: World, ws: seq<Write>) {
    && 0 < |b.core.queue| && a.core.queue == b.core.queue[0 := WrittenAll(b.core.queue[0], ws)]
    && a.core.queueCount == if ws != [] && b.core.queueCount == 0 then 1 else b.core.queueCount
  }

  /** The requeue that the next step makes, if it makes one. */
  function StepWrite(env: Env, c: Config): Option<Write> {
    if !c.Running? || c.stack == [] || !Listed(c.w) then None
    else
      var f := c.stack[|c.stack| - 1];
      match Dispatch(env, c.w, f)
      case Return(_, ret) =>
        if ret == -1 then Some(Write(f.cur, f.count, if env.mem[f.cur].Op() == 0x1a then None else Some(f.flags))) else None
      case _ => None
  }

  function AsSeq(o: Option<Write>): seq<Write> { if o.None? then [] else [o.value] }

  /** The requeues of the next `n` steps. */
  function AllWrites(env: Env, c: Config, n: nat): seq<Write>
    decreases n
  {
    if n == 0 || !c.Running? then [] else AsSeq(StepWrite(env, c)) + AllWrites(env, Step(env, c), n - 1)
  }

  /** ...those made by chains with a caller, which ignores them... */
  function Nested(env: Env, c: Config, n: nat): seq<Write>
    decreases n
  {
    if n == 0 || !c.Running? then []
    else (if 1 < |c.stack| then AsSeq(StepWrite(env, c)) else []) + Nested(env, Step(env, c), n - 1)
  }

  /** ...and the one that ends the run. */
  function Own(env: Env, c: Config, n: nat): Option<Write>
    decreases n
  {
    if n == 0 || !c.Running? then None
    else if |c.stack| == 1 && StepWrite(env, c).Some? then StepWrite(env, c)
    else Own(env, Step(env, c), n - 1)
  }

  lemma FinalizeKeepsQueue(env: Env, w: World)
    requires KeepsQueue(env)
    ensures SameQueue(Finalize(env, w), w) && SameQueue(FinishEval(env, w), w)
  {
  }

  ghost predicate ConfigKeeps(w: World, c: Config) {
    match c
    case Running(w', _) => SameQueue(w', w)
    case Finished(w', _) => SameQueue(w', w)
    case Faulted => true
  }

  lemma {:induction false} ContinueKeepsQueue(env: Env, w: World, callers: seq<Frame>, f: Frame)
    requires KeepsQueue(env)
    ensures ConfigKeeps(w, Continue(env, w, callers, f))
    decreases |callers| + 1
  {
    FinalizeKeepsQueue(env, w);
    if f.count <= 0 && callers != [] {
      var w1 := Finalize(env, w);
      FinalizeKeepsQueue(env, w1);
      match f.after
      case Finish(choices) => PopKeepsQueue(env, FinishEval(env, w1), callers, choices);
      case _ => ContinueKeepsQueue(env, w1, callers[..|callers| - 1], Count(callers[|callers| - 1]));
    }
  }

  lemma {:induction false} PopKeepsQueue(env: Env, w: World, stack: seq<Frame>, ret: int)
    requires KeepsQueue(env) && stack != []
    ensures ConfigKeeps(w, PopFrame(env, w, stack, ret))
    decreases |stack|
  {
    var done, callers := stack[|stack| - 1], stack[..|stack| - 1];
    FinalizeKeepsQueue(env, w);
    if callers != [] {
      match done.after
      case Finish(choices) => PopKeepsQueue(env, FinishEval(env, w), callers, choices);
      case _ => ContinueKeepsQueue(env, w, callers[..|callers| - 1], Count(callers[|callers| - 1]));
    }
  }

  /** A record touches the queue only by requeueing, and then as Written says. */
  lemma DispatchQueue(env: Env, w: World, f: Frame)
    requires KeepsQueue(env) && Listed(w)
    ensures ActKeepsQueue(Dispatch(env, w, f), w)
  {
    if f.cur < |env.mem| {
      var op := env.mem[f.cur].Op();
      if op == 8 || op == 0x0d { ChoiceQueue(env, w, f); }
      else if op == 5 || op == 7 { ShowQueue(env, w, f); }
      else if op == 0x1a || op == 0x0b || op == 0x0e { ChunkQueue(env, w, f); }
    }
  }

  ghost predicate ActKeepsQueue(act: Act, w: World) {
    match act
    case Go(w', _) => SameQueue(w', w)
    case Return(w', ret) => ret != -1 ==> SameQueue(w', w)
    case Terminate(w', _) => SameQueue(w', w)
    case Enter(w', _, _) => SameQueue(w', w)
    case Fault => true
  }

  lemma ShowQueue(env: Env, w: World, f: Frame)
    requires KeepsQueue(env) && Listed(w) && f.cur < |env.mem| && env.mem[f.cur].Op() in {5, 7}
    ensures ActKeepsQueue(Dispatch(env, w, f), w)
  {
    assert SameQueue(DrainFirst(env, w), w);
  }

  lemma ChunkQueue(env: Env, w: World, f: Frame)
    requires KeepsQueue(env) && Listed(w) && f.cur < |env.mem| && env.mem[f.cur].Op() in {0x0b, 0x0e, 0x1a}
    ensures ActKeepsQueue(Dispatch(env, w, f), w)
  {
  }

  lemma ChoiceQueue(env: Env, w: World, f: Frame)
    requires KeepsQueue(env) && Listed(w) && f.cur < |env.mem|
    ensures ActKeepsQueue(ChoiceOp(env, w, f), w)
  {
    if !f.Scan() && !w.busy && f.count != 0 && f.cur + Left(f) <= |env.mem| {
      var b := Builds(env, w, f);
      if |b.table| <= 16 && b.rest != [] {
        var cur, indices := f.cur + (Left(f) - |b.rest|), b.table + w.core.choice.indices[|b.table|..];
        PublishQueue(env, w.(queueActive := false, core := w.core.(choice := w.core.choice.(indices := indices))),
                     f.(cur := cur, count := |b.rest|, sub := LineCount(env.mem, f.cur, cur, f.sub)), b);
      }
    }
  }

  lemma PublishQueue(env: Env, w: World, f: Frame, b: Menu.Built)
    requires KeepsQueue(env) && Listed(w)
    ensures ActKeepsQueue(Publish(env, w, f, b), w)
  {
    if 1 < |b.table| {
      var w1 := w.(core := w.core.(choice := Choice(Some(f.cur), |b.rest|, |b.table|, f.flags, w.core.choice.indices)));
      assert SameQueue(env.call(Window, 0, w1).0, w1);
    }
  }

  lemma DispatchRequeues(env: Env, w: World, f: Frame)
    requires KeepsQueue(env) && Listed(w) && Dispatch(env, w, f).Return? && Dispatch(env, w, f).ret == -1
    ensures f.cur < |env.mem|
    ensures QueueAfter(Dispatch(env, w, f).w, w,
                       [Write(f.cur, f.count, if env.mem[f.cur].Op() == 0x1a then None else Some(f.flags))])
  {
    var wr := Write(f.cur, f.count, if env.mem[f.cur].Op() == 0x1a then None else Some(f.flags));
    OneWrite(w.core.queue[0], wr);
    RequeueResumesTheRecord(env, w, f, Dispatch(env, w, f).w);
  }

  lemma OneWrite(slot: Entry, wr: Write)
    ensures WrittenAll(slot, [wr]) == Written(slot, wr)
  {
    assert [wr][..0] == [];
  }

  ghost predicate ConfigAfter(c: Config, w: World, ws: seq<Write>) {
    match c
    case Running(w', _) => QueueAfter(w', w, ws)
    case Finished(w', _) => QueueAfter(w', w, ws)
    case Faulted => true
  }

  lemma KeptIsAfter(w: World, w1: World, c: Config, ws: seq<Write>)
    requires QueueAfter(w1, w, ws) && ConfigKeeps(w1, c)
    ensures ConfigAfter(c, w, ws)
  {
  }

  lemma NoWrites(w: World, w1: World)
    requires SameQueue(w1, w) && 0 < |w.core.queue|
    ensures QueueAfter(w1, w, [])
  {
  }

  /** One step changes the queue by its requeue and nothing else. */
  lemma StepQueue(env: Env, c: Config)
    requires KeepsQueue(env) && c.Running? && c.stack != [] && Listed(c.w)
    ensures ConfigAfter(Step(env, c), c.w, AsSeq(StepWrite(env, c)))
  {
    var f, callers := c.stack[|c.stack| - 1], c.stack[..|c.stack| - 1];
    DispatchQueue(env, c.w, f);
    match Dispatch(env, c.w, f)
    case Go(w, f2) =>
      NoWrites(c.w, w);
      ContinueKeepsQueue(env, w, callers, f2);
      KeptIsAfter(c.w, w, Step(env, c), []);
    case Return(w, ret) =>
      if ret == -1 { DispatchRequeues(env, c.w, f); } else { NoWrites(c.w, w); }
      PopKeepsQueue(env, w, c.stack, ret);
      KeptIsAfter(c.w, w, Step(env, c), AsSeq(StepWrite(env, c)));
    case Terminate(w, ret) =>
      FinalizeKeepsQueue(env, w);
      NoWrites(c.w, Finalize(env, w));
      PopKeepsQueue(env, Finalize(env, w), c.stack, ret);
      KeptIsAfter(c.w, Finalize(env, w), Step(env, c), []);
    case Enter(w, f2, child) =>
      NoWrites(c.w, w);
    case Fault =>
  }

  lemma {:induction false} WrittenMore(slot: Entry, a: seq<Write>, b: seq<Write>)
    ensures WrittenAll(slot, a + b) == WrittenAll(WrittenAll(slot, a), b)
  {
    if b == [] {
      assert a + b == a;
    } else {
      assert (a + b)[..|a + b| - 1] == a + b[..|b| - 1];
      WrittenMore(slot, a, b[..|b| - 1]);
    }
  }

  lemma AfterBoth(w0: World, w1: World, w2: World, a: seq<Write>, b: seq<Write>)
    requires QueueAfter(w1, w0, a) && QueueAfter(w2, w1, b)
    ensures QueueAfter(w2, w0, a + b)
  {
    WrittenMore(w0.core.queue[0], a, b);
  }

  lemma {:induction false} RunQueue(env: Env, c: Config, n: nat, w: World, ret: int)
    requires KeepsQueue(env) && c.Running? && Steps(env, c, n) == Finished(w, ret)
    ensures 0 < |c.w.core.queue| && QueueAfter(w, c.w, AllWrites(env, c, n))
    decreases n
  {
    var next := Step(env, c);
    if c.stack == [] || !Listed(c.w) {
      StaysUnfinished(env, c, n);
    } else {
      StepQueue(env, c);
      if next.Running? {
        RunQueue(env, next, n - 1, w, ret);
        AfterBoth(c.w, next.w, w, AsSeq(StepWrite(env, c)), AllWrites(env, next, n - 1));
      } else {
        Settled(env, next, n - 1);
        assert AllWrites(env, next, n - 1) == [];
        assert AsSeq(StepWrite(env, c)) + [] == AsSeq(StepWrite(env, c));
      }
    }
  }

  lemma {:induction false} StaysUnfinished(env: Env, c: Config, n: nat)
    requires c.Running? && (c.stack == [] || !Listed(c.w))
    ensures !Steps(env, c, n).Finished?
    decreases n
  {
    if n > 0 {
      if c.stack == [] { StaysUnfinished(env, c, n - 1); } else { Settled(env, Step(env, c), n - 1); }
    }
  }

  /** The requeues of a run in order: the nested ones, then its own. */
  lemma {:induction false} WritesSplit(env: Env, c: Config, n: nat)
    ensures AllWrites(env, c, n) == Nested(env, c, n) + AsSeq(Own(env, c, n))
    decreases n
  {
    if n > 0 && c.Running? {
      var next := Step(env, c);
      if |c.stack| == 1 && StepWrite(env, c).Some? { OwnWriteEnds(env, c); }
      WritesSplit(env, next, n - 1);
      SplitStep(StepWrite(env, c), |c.stack|, next.Running?, AllWrites(env, next, n - 1),
                Nested(env, next, n - 1), Own(env, next, n - 1));
    }
  }

  lemma SplitStep(x: Option<Write>, depth: nat, goesOn: bool, all: seq<Write>, nested: seq<Write>, own: Option<Write>)
    requires all == nested + AsSeq(own) && (depth == 0 ==> x.None?)
    requires !goesOn ==> all == [] && nested == []
    requires depth == 1 && x.Some? ==> !goesOn
    ensures AsSeq(x) + all
         == ((if 1 < depth then AsSeq(x) else []) + nested) + AsSeq(if depth == 1 && x.Some? then x else own)
  {
    assert AsSeq(x) + (nested + AsSeq(own)) == (AsSeq(x) + nested) + AsSeq(own);
  }

  lemma OwnWriteEnds(env: Env, c: Config)
    requires c.Running? && |c.stack| == 1 && StepWrite(env, c).Some?
    ensures Step(env, c).Finished? && Step(env, c).ret == -1
  {
    assert c.stack[..0] == [];
  }

  /** The run has a requeue of its own if and only if it returns the requeue code. */
  lemma {:induction false} OwnIsTheCode(env: Env, c: Config, n: nat, w: World, ret: int)
    requires c.Running? && Steps(env, c, n) == Finished(w, ret)
    ensures ret == -1 <==> Own(env, c, n).Some?
    decreases n
  {
    var next := Step(env, c);
    if next.Running? {
      if |c.stack| == 1 && StepWrite(env, c).Some? { OwnWriteEnds(env, c); }
      OwnIsTheCode(env, next, n - 1, w, ret);
    } else {
      Settled(env, next, n - 1);
      assert Own(env, next, n - 1) == None;
      if ret == -1 { StepRequeues(env, c, w); }
      if |c.stack| == 1 && StepWrite(env, c).Some? { OwnWriteEnds(env, c); }
    }
  }

  /** What any finished run does to the queue, from any chain in any world: its nested requeues and its own, if
      it returned the requeue code, are written to slot 0 in order. So a run that completes leaves the queue as
      it was if no nested chain requeued; and an empty queue stays empty only then. */
  lemma RunIsOutcome(env: Env, w: World, chain: nat, count: int, flags: nat, n: nat, w': World, ret: int)
    requires KeepsQueue(env) && Steps(env, Start(w, chain, count, flags), n) == Finished(w', ret)
    ensures var c := Start(w, chain, count, flags); var o := Outcome(Nested(env, c, n), Own(env, c, n));
      && (ret == -1 <==> o.own.Some?)
      && QueueAfter(w', w, o.Writes())
      && (ret != -1 && o.nested == [] ==> SameQueue(w', w))
      && (w.core.queueCount == 0 ==> (w'.core.queueCount == 0 <==> ret != -1 && o.nested == []))
  {
    var c := Start(w, chain, count, flags);
    RunQueue(env, c, n, w', ret);
    WritesSplit(env, c, n);
    OwnIsTheCode(env, c, n, w', ret);
    if Own(env, c, n).None? { assert Nested(env, c, n) + [] == Nested(env, c, n); }
  }

  // ------------------------------------------------------------------ which runs lose one

  /** The next record belongs to a chain with a caller, and requeues. */
  predicate NestedMeets(env: Env, c: Config) {
    c.Running? && 1 < |c.stack| && Listed(c.w) && Requeues(env, c.w, c.stack[|c.stack| - 1])
  }

  /** So it stands at some point of the next `n` steps. */
  predicate NestedMeetsWithin(env: Env, c: Config, n: nat)
    decreases n
  {
    n > 0 && (NestedMeets(env, c) || NestedMeetsWithin(env, Step(env, c), n - 1))
  }

  /** A run has nested requeues if and only if a nested chain meets such a record. */
  lemma {:induction false} NestedIff(env: Env, c: Config, n: nat)
    ensures Nested(env, c, n) != [] <==> NestedMeetsWithin(env, c, n)
    decreases n
  {
    if n > 0 {
      if c.Running? {
        NestedFirst(env, c);
        NestedIff(env, Step(env, c), n - 1);
      } else {
        NeverMeets(env, c, n);
      }
    }
  }

  lemma {:induction false} NeverMeets(env: Env, c: Config, n: nat)
    requires !c.Running?
    ensures !NestedMeetsWithin(env, c, n)
    decreases n
  {
    if n > 0 { NeverMeets(env, Step(env, c), n - 1); }
  }

  lemma NestedFirst(env: Env, c: Config)
    requires c.Running?
    ensures 1 < |c.stack| && StepWrite(env, c).Some? <==> NestedMeets(env, c)
  {
    if c.stack != [] && Listed(c.w) { RequeueGuard(env, c.w, c.stack[|c.stack| - 1]); }
  }

  /** What a run leaves in slot 0 is what the trace has there before the pop. */
  lemma RunPuts(env: Env, w: World, t: Trace, n: nat, w': World, ret: int)
    requires KeepsQueue(env) && t.Shape() && 0 < t.count && w.core.queueCount == t.count
    requires |w.core.queue| == CAPACITY && forall i | 0 <= i < CAPACITY :: t.cells[i].entry == w.core.queue[i]
    requires var e := t.cells[0].entry; Steps(env, Start(w, e.chain, e.count, e.flags), n) == Finished(w', ret)
    ensures var e := t.cells[0].entry; var c := Start(w, e.chain, e.count, e.flags);
      var r := t.PutAll(Outcome(Nested(env, c, n), Own(env, c, n)).Writes());
      && r.count == w'.core.queueCount && |w'.core.queue| == CAPACITY
      && forall i | 0 <= i < CAPACITY :: r.cells[i].entry == w'.core.queue[i]
  {
    var e := t.cells[0].entry;
    var c := Start(w, e.chain, e.count, e.flags);
    RunIsOutcome(env, w, e.chain, e.count, e.flags, n, w', ret);
    PutAllFacts(t, Outcome(Nested(env, c, n), Own(env, c, n)).Writes());
  }

  /** The chain in slot 0 is run: a requeue gets lost by that if and only if a chain nested in it meets a record that
      requeues -- whatever the outer chain does, and whether it completes or requeues itself. */
  lemma QueuedRunLoses(env: Env, w: World, t: Trace, n: nat, w': World, ret: int)
    requires Tracked(t) && 0 < t.count
    requires var e := t.cells[0].entry; Steps(env, Start(w, e.chain, e.count, e.flags), n) == Finished(w', ret)
    ensures var e := t.cells[0].entry; var c := Start(w, e.chain, e.count, e.flags);
      (exists x: nat :: t.RunHead(Outcome(Nested(env, c, n), Own(env, c, n))).Lost(x) && !t.Lost(x))
      <==> NestedMeetsWithin(env, c, n)
  {
    var e := t.cells[0].entry;
    var c := Start(w, e.chain, e.count, e.flags);
    var o := Outcome(Nested(env, c, n), Own(env, c, n));
    NestedIff(env, c, n);
    forall x: nat ensures t.RunHead(o).Lost(x) <==> t.Lost(x) || HeadThrows(t, o, x) { RunHeadLoses(t, o, x); }
    if o.nested != [] { assert HeadThrows(t, o, |t.written|) && !t.Lost(|t.written|); }
  }

  /** No record that enters another chain: no random choice and no menu line. */
  predicate Unnested(mem: seq<Rec>) { forall r <- mem :: r.Op() != 0x08 && r.Op() != 0x0b }

  /** Scripts without such records have no nested requeues, in any run, so none of their requeues is lost. */
  lemma {:induction false} UnnestedRunsKeepAll(env: Env, c: Config, n: nat)
    requires Unnested(env.mem) && (c.Running? ==> |c.stack| <= 1)
    ensures Nested(env, c, n) == []
    decreases n
  {
    if n > 0 && c.Running? {
      StaysUnnested(env, c);
      UnnestedRunsKeepAll(env, Step(env, c), n - 1);
    }
  }

  lemma StaysUnnested(env: Env, c: Config)
    requires Unnested(env.mem) && c.Running? && |c.stack| <= 1
    ensures Step(env, c).Running? ==> |Step(env, c).stack| <= 1
  {
    if c.stack != [] && Listed(c.w) {
      NeverEnters(env, c.w, c.stack[0]);
      assert c.stack[..0] == [];
    }
  }

  lemma NeverEnters(env: Env, w: World, f: Frame)
    requires Unnested(env.mem) && Listed(w)
    ensures !Dispatch(env, w, f).Enter?
  {
    if f.cur < |env.mem| { assert env.mem[f.cur] in env.mem; }
    if f.cur + 1 < |env.mem| { assert env.mem[f.cur + 1] in env.mem; }
  }

  /** Callees that do nothing, in front of a window that opens. */
  const QUIET := (c: Callee, arg: nat, w: World) => (w, if c == AltWindow then 1 else 0)

  const SCRIPT := [Rec(0x05, 1), Rec(0x0b, 1), Rec(0x0e, 1)]

  ghost predicate Scene(env: Env) { env.mem == SCRIPT && env.call == QUIET && env.read(1, 0x3fc) != 0 }

  /** A requeue that is lost: a chain that waits in slot 0 opens a window and then picks, at random from one, a
      chain that shows an image. That chain requeues over slot 0 because of the window, the chain around it
      completes, and its entry -- now the requeued one -- is popped. */
  lemma RequeueIsLost(env: Env, w: World, t: Trace) returns (n: nat, w': World)
    requires Scene(env)
    requires Listed(w) && !w.busy && !w.context && !w.draining && w.pendingTopic == 0 && !PanelBlocks(w)
    requires Tracked(t) && t.count == 1 && t.cells[0].entry == Entry(0, 3, 0)
    ensures Steps(env, Start(w, 0, 3, 0), n) == Finished(w', 2)
    ensures w'.core.queue != [] && w'.core.queue[0] == Entry(2, 1, 0)
    ensures var c, x := Start(w, 0, 3, 0), |t.written|; var r := t.RunHead(Outcome(Nested(env, c, n), Own(env, c, n)));
      r.count == 0 && r.Lost(x) && r.written[x] == Entry(2, 1, 0)
  {
    var w1 := LostOpens(env, w);
    LostEnters(env, w1);
    LostRequeues(env, w1);
    LostWrites(env, w1);
    w' := Queued(w1, Entry(2, 1, 0));
    var c1 := Running(w1, [Frame(1, 2, 0, 1, 0, Top)]);
    var c2 := Running(w1, [Frame(3, 0, 0, 1, 0, Top), Frame(2, 1, 0, 0, 0, Ignore)]);
    n := ThreeSteps(env, Start(w, 0, 3, 0), c1, c2, Finished(w', 2), Write(2, 1, Some(0)));
    LostByHead(t, Write(2, 1, Some(0)));
    assert Written(t.cells[0].entry, Write(2, 1, Some(0))) == Entry(2, 1, 0);
  }

  lemma ThreeSteps(env: Env, c0: Config, c1: Config, c2: Config, c3: Config, wr: Write) returns (n: nat)
    requires c0.Running? && c1.Running? && c2.Running? && c3.Finished?
    requires Step(env, c0) == c1 && Step(env, c1) == c2 && Step(env, c2) == c3
    requires StepWrite(env, c0) == None == StepWrite(env, c1) && StepWrite(env, c2) == Some(wr) && 1 < |c2.stack|
    ensures Steps(env, c0, n) == c3 && Nested(env, c0, n) == [wr] && Own(env, c0, n) == None
  {
    OneStep(env, c2, c3, 0);
    OneStep(env, c1, c2, 1);
    OneStep(env, c0, c1, 2);
    n := 3;
    assert AsSeq(Some(wr)) + [] == [wr] && [] + [wr] == [wr];
  }

  lemma OneStep(env: Env, c: Config, c': Config, n: nat)
    requires c.Running? && Step(env, c) == c'
    ensures Steps(env, c, n + 1) == Steps(env, c', n)
    ensures Nested(env, c, n + 1) == (if 1 < |c.stack| then AsSeq(StepWrite(env, c)) else []) + Nested(env, c', n)
    ensures !(|c.stack| == 1 && StepWrite(env, c).Some?) ==> Own(env, c, n + 1) == Own(env, c', n)
  {
  }

  /** A single nested requeue is gone when the chain around it completes. */
  lemma LostByHead(t: Trace, wr: Write)
    requires Tracked(t) && t.count == 1
    ensures var r := t.RunHead(Outcome([wr], None));
      r.count == 0 && r.Lost(|t.written|) && r.written[|t.written|] == Written(t.cells[0].entry, wr)
  {
    var s := t.(ran := t.ran + {t.cells[0].tag});
    OneWrite(t.cells[0].entry, wr);
    PutAllFacts(s, [wr]);
    RunHeadLoses(t, Outcome([wr], None), |t.written|);
  }

  lemma LostOpens(env: Env, w: World) returns (w1: World)
    requires Scene(env)
    requires Listed(w) && !w.busy && !w.context && !w.draining && w.pendingTopic == 0
    ensures Step(env, Start(w, 0, 3, 0)) == Running(w1, [Frame(1, 2, 0, 1, 0, Top)])
    ensures StepWrite(env, Start(w, 0, 3, 0)) == None
    ensures Listed(w1) && w1.busy && w1.core == w.core && w1.pendingTopic == 0 && w1.ui == w.ui
  {
    var f := Frame(0, 3, 0, 0, 0, Top);
    w1 := FinishEval(env, w).(busy := true);
    assert Dispatch(env, w, f) == Go(w1, Frame(1, 2, 0, 1, 0, Top));
    assert [f][..0] == [];
  }

  lemma LostEnters(env: Env, w: World)
    requires Scene(env) && Listed(w) && w.busy
    ensures var c := Running(w, [Frame(1, 2, 0, 1, 0, Top)]);
      && Step(env, c) == Running(w, [Frame(3, 0, 0, 1, 0, Top), Frame(2, 1, 0, 0, 0, Ignore)])
      && StepWrite(env, c) == None
  {
    var f, next := Frame(1, 2, 0, 1, 0, Top), Frame(2, 1, 0, 1, 0, Top);
    var one := env.mem[2..3];
    assert Seg.Readable(env.mem, 2, 1) && Seg.Consumed(env.mem, 2, 1) == 1;
    assert one == [Rec(0x0e, 1)] && one[1..] == [];
    assert Seg.Live(one, w.core.bitmap) == one;
    assert Seg.Pieces(one, Seg.Entry(2, 0)) == [Seg.Entry(2, 1)];
    assert RandomChain(env, w, next) == Enter(w, Frame(3, 0, 0, 1, 0, Top), Frame(2, 1, 0, 0, 0, Ignore));
    assert [f][..0] == [];
  }

  lemma LostRequeues(env: Env, w: World)
    requires Scene(env) && Listed(w) && w.busy && w.pendingTopic == 0 && !PanelBlocks(w)
    ensures Step(env, Running(w, [Frame(3, 0, 0, 1, 0, Top), Frame(2, 1, 0, 0, 0, Ignore)]))
         == Finished(Queued(w, Entry(2, 1, 0)), 2)
  {
    var caller, f := Frame(3, 0, 0, 1, 0, Top), Frame(2, 1, 0, 0, 0, Ignore);
    ImageRequeues(env, w, f);
    ReturnsThrough(env, w, caller, f, Queued(w, Entry(2, 1, 0)));
  }

  lemma LostWrites(env: Env, w: World)
    requires Scene(env) && Listed(w) && w.busy && w.pendingTopic == 0 && !PanelBlocks(w)
    ensures StepWrite(env, Running(w, [Frame(3, 0, 0, 1, 0, Top), Frame(2, 1, 0, 0, 0, Ignore)]))
         == Some(Write(2, 1, Some(0)))
  {
    var caller, f := Frame(3, 0, 0, 1, 0, Top), Frame(2, 1, 0, 0, 0, Ignore);
    ImageRequeues(env, w, f);
    assert env.mem[2] == Rec(0x0e, 1);
    WritesAs(env, w, f, Running(w, [caller, f]), Queued(w, Entry(2, 1, 0)));
  }

  lemma WritesAs(env: Env, w: World, f: Frame, c: Config, w': World)
    requires c.Running? && c.w == w && c.stack != [] && c.stack[|c.stack| - 1] == f && Listed(w)
    requires f.cur < |env.mem| && env.mem[f.cur].Op() != 0x1a && Dispatch(env, w, f) == Return(w', -1)
    ensures StepWrite(env, c) == Some(Write(f.cur, f.count, Some(f.flags)))
  {
  }

  lemma ImageRequeues(env: Env, w: World, f: Frame)
    requires Scene(env) && Listed(w) && w.busy && !PanelBlocks(w) && f == Frame(2, 1, 0, 0, 0, Ignore)
    ensures Dispatch(env, w, f) == Return(Queued(w, Entry(2, 1, 0)), -1)
  {
  }

  /** The chain that was entered at random requeues and returns, and its caller has nothing left. */
  lemma ReturnsThrough(env: Env, w: World, caller: Frame, f: Frame, w': World)
    requires Listed(w) && Dispatch(env, w, f) == Return(w', -1) && w'.pendingTopic == 0
    requires caller == Frame(3, 0, 0, 1, 0, Top) && f.after == Ignore
    ensures Step(env, Running(w, [caller, f])) == Finished(w', 2)
  {
    NestedReturns(env, w', caller, f);
    assert [caller, f][1] == f;
  }

  lemma NestedReturns(env: Env, w: World, caller: Frame, f: Frame)
    requires caller == Frame(3, 0, 0, 1, 0, Top) && f.after == Ignore && w.pendingTopic == 0
    ensures PopFrame(env, w, [caller, f], -1) == Finished(w, 2)
  {
    assert [caller, f][..1] == [caller] && [caller][..0] == [];
  }
}
