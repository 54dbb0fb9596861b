/** What the records of a chain do to the run that executes them, in terms of top byte, operand and progress flags
    (roth_c/src/engine/dbase100.c). */
module OpcodeRuns {
  import opened Options
  import opened DbaseRecords
  import opened Interpreter
  import opened ActionQueue
  import Seg = Segmenter

  // ------------------------------------------------------------------- one record, one step

  /** The chain `f` on top of its callers stands at the record `r`, which is not skipped. */
  predicate Here(env: Env, w: World, f: Frame, r: Rec) {
    Listed(w) && f.cur < |env.mem| && env.mem[f.cur] == r && r.operand != 0
  }

  /** One step takes the chain to the record behind, with `gain` more counted. */
  ghost predicate GoesOn(env: Env, w: World, callers: seq<Frame>, f: Frame, w': World, gain: nat) {
    Step(env, Running(w, callers + [f]))
    == Continue(env, w', callers, f.(cur := f.cur + 1, count := f.count - 1, acc := f.acc + gain))
  }

  /** One step ends the chain, which answers `ret`. */
  ghost predicate Ends(env: Env, w: World, callers: seq<Frame>, f: Frame, w': World, ret: int) {
    Step(env, Running(w, callers + [f])) == PopFrame(env, w', callers + [f], ret)
  }

  /** A chain with records left goes on with them; at its end it loads the topic it staged and answers what it
      counted. Its caller then goes on with one more counted, or answers for it. */
  lemma ChainEnds(env: Env, w: World, callers: seq<Frame>, f: Frame)
    ensures 0 < f.count ==> Continue(env, w, callers, f) == Running(w, callers + [f])
    ensures f.count <= 0 && callers == [] ==> Continue(env, w, callers, f) == Finished(Finalize(env, w), f.acc)
    ensures f.count <= 0 && callers != [] ==>
      Continue(env, w, callers, f) == PopFrame(env, Finalize(env, w), callers + [f], f.acc)
  {
    assert (callers + [f])[..|callers|] == callers;
  }

  lemma CallerGoesOn(env: Env, w: World, callers: seq<Frame>, f: Frame, g: Frame, ret: int)
    ensures PopFrame(env, w, [f], ret) == Finished(w, ret)
    ensures !f.after.Finish? ==> PopFrame(env, w, callers + [g, f], ret) == Continue(env, w, callers, g.(acc := g.acc + 1))
    ensures f.after.Finish? ==>
      PopFrame(env, w, callers + [g, f], ret) == PopFrame(env, FinishEval(env, w), callers + [g], f.after.choices)
  {
    var all := callers + [g, f];
    assert all[|all| - 1] == f && all[..|all| - 1] == callers + [g] && (callers + [g])[..|callers|] == callers;
  }

  lemma StepOf(env: Env, w: World, callers: seq<Frame>, f: Frame)
    requires Listed(w)
    ensures var act, next := Dispatch(env, w, f), Step(env, Running(w, callers + [f]));
      && (act.Go? ==> next == Continue(env, act.w, callers, act.f))
      && (act.Return? ==> next == PopFrame(env, act.w, callers + [f], act.ret))
      && (act.Terminate? ==> next == PopFrame(env, Finalize(env, act.w), callers + [f], act.ret))
      && (act.Enter? ==> next == Running(act.w, callers + [act.f, act.child]))
  {
    assert (callers + [f])[..|callers|] == callers;
  }

  lemma StepGoesOn(env: Env, w: World, callers: seq<Frame>, f: Frame, w': World, gain: nat)
    requires Listed(w) && Dispatch(env, w, f) == Go(w', f.(cur := f.cur + 1, count := f.count - 1, acc := f.acc + gain))
    ensures GoesOn(env, w, callers, f, w', gain)
  {
    StepOf(env, w, callers, f);
  }

  lemma StepEnds(env: Env, w: World, callers: seq<Frame>, f: Frame, ret: int)
    requires Listed(w) && Dispatch(env, w, f) == Return(w, ret)
    ensures Ends(env, w, callers, f, w, ret)
  {
    StepOf(env, w, callers, f);
  }

  /** The opcode and the If-NOT bit of a record with this top byte. */
  lemma Decoded(env: Env, w: World, f: Frame, top: nat, operand: nat, op: nat)
    requires Here(env, w, f, Rec(top, operand)) && op < 0x80 && (top == op || top == op + 0x80)
    ensures env.mem[f.cur].Op() == op && (env.mem[f.cur].Not() <==> top == op + 0x80)
  {
  }

  /** The bitmap says that the flag is set; without a bitmap every flag is. */
  predicate Set(w: World, id: nat) { w.core.bitmap.NoBitmap? || id in w.core.bitmap.flags }

  /** If and If-NOT: the chain goes past one exactly when the flag is set, or clear, and answers 0 otherwise. */
  lemma FlagGate(env: Env, w: World, callers: seq<Frame>, f: Frame, top: nat, id: nat)
    requires Here(env, w, f, Rec(top, id)) && top in {0x01, 0x81}
    ensures if (top == 0x01 && Set(w, id)) || (top == 0x81 && !Set(w, id))
      then GoesOn(env, w, callers, f, w, 0) else Ends(env, w, callers, f, Finalize(env, w), 0)
  {
    Decoded(env, w, f, top, id, 0x01);
    StepOf(env, w, callers, f);
  }

  /** The inventory gates compare the stock of item `operand % 0x10000` with the number above: more, not more, another
      number, the same number. */
  lemma CountGate(env: Env, w: World, callers: seq<Frame>, f: Frame, top: nat, operand: nat)
    requires Here(env, w, f, Rec(top, operand)) && top in {0x02, 0x82, 0x03, 0x83}
    ensures var (w1, n) := env.call(Inventory, operand % 0x10000, w); var limit := operand / 0x10000;
      if (top == 0x02 && n > limit) || (top == 0x82 && n <= limit) || (top == 0x03 && n != limit) || (top == 0x83 && n == limit)
      then GoesOn(env, w, callers, f, w1, 0) else Ends(env, w, callers, f, Finalize(env, w1), 0)
  {
    Decoded(env, w, f, top, operand, if top % 0x80 == 2 then 0x02 else 0x03);
    StepOf(env, w, callers, f);
  }

  /** The selector gate passes for callers that do, or do not, set bit 0 of the flags, and in a scan. */
  lemma SelectorGate(env: Env, w: World, callers: seq<Frame>, f: Frame, top: nat, operand: nat)
    requires Here(env, w, f, Rec(top, operand)) && top in {0x1c, 0x9c}
    ensures if f.Scan() || (top == 0x1c && f.flags % 2 == 0) || (top == 0x9c && f.flags % 2 == 1)
      then GoesOn(env, w, callers, f, w, 0) else Ends(env, w, callers, f, Finalize(env, w), 0)
  {
    Decoded(env, w, f, top, operand, 0x1c);
    StepOf(env, w, callers, f);
  }

  /** An If in front of a record that is no menu line takes the chain to that record, or past it. */
  lemma SkipGate(env: Env, w: World, callers: seq<Frame>, f: Frame, top: nat, id: nat)
    requires Here(env, w, f, Rec(top, id)) && top in {0x0d, 0x8d} && f.cur + 1 < |env.mem| && env.mem[f.cur + 1].top != 8
    ensures (top == 0x0d && Set(w, id)) || (top == 0x8d && !Set(w, id)) ==> GoesOn(env, w, callers, f, w, 0)
    ensures (top == 0x0d && !Set(w, id)) || (top == 0x8d && Set(w, id)) ==>
      Step(env, Running(w, callers + [f])) == Continue(env, w, callers, f.(cur := f.cur + 2, count := f.count - 2))
  {
    Decoded(env, w, f, top, id, 0x0d);
    StepOf(env, w, callers, f);
  }

  /** 0x04 sets the flag and 0x84 clears it, and nothing else changes. */
  lemma FlagRecord(env: Env, w: World, callers: seq<Frame>, f: Frame, top: nat, id: nat) returns (flags: set<nat>)
    requires Here(env, w, f, Rec(top, id)) && top in {0x04, 0x84} && w.core.bitmap.Bits?
    ensures f.Scan() ==> Ends(env, w, callers, f, w, 1)
    ensures !f.Scan() ==> GoesOn(env, w, callers, f, w.(core := w.core.(bitmap := Bits(flags))), 1)
    ensures forall x: nat :: x in flags <==> if x == id then top == 0x04 else x in w.core.bitmap.flags
  {
    Decoded(env, w, f, top, id, 0x04);
    StepOf(env, w, callers, f);
    flags := if top == 0x04 then w.core.bitmap.flags + {id} else w.core.bitmap.flags - {id};
  }

  /** 0x11 gives the item and 0x91 takes it. */
  lemma ItemRecord(env: Env, w: World, callers: seq<Frame>, f: Frame, top: nat, operand: nat)
    requires Here(env, w, f, Rec(top, operand)) && top in {0x11, 0x91}
    ensures f.Scan() ==> Ends(env, w, callers, f, w, 1)
    ensures !f.Scan() && top == 0x11 ==> GoesOn(env, w, callers, f, env.call(GiveItem, operand % 0x10000, w).0, 1)
    ensures !f.Scan() && top == 0x91 ==> GoesOn(env, w, callers, f, env.call(RemoveItem, operand % 0x10000, w).0, 1)
  {
    Decoded(env, w, f, top, operand, 0x11);
    StepOf(env, w, callers, f);
  }

  /** A jump goes on behind the header of the record it names, with the records the header's byte length counts and a
      fresh line counter; what was counted stays. Without such a record it is skipped. */
  lemma JumpRecord(env: Env, w: World, callers: seq<Frame>, f: Frame, top: nat, id: nat)
    requires Here(env, w, f, Rec(top, id)) && top in {0x1d, 0x9d}
    ensures id >= |env.records| || env.records[id].None? ==> GoesOn(env, w, callers, f, w, 0)
    ensures id < |env.records| && env.records[id].Some? && env.records[id].value < |env.mem| ==>
      var target := env.records[id].value;
      Step(env, Running(w, callers + [f])) == Continue(env, w, callers,
        Frame(target + 1, env.mem[target].operand % 0x10000 / 4 - 1, f.flags, f.acc, 0, f.after))
  {
    Decoded(env, w, f, top, id, 0x1d);
    StepOf(env, w, callers, f);
  }

  /** The random record runs the piece the generator picks as a chain of its own, and its chain goes on behind all
      pieces; without pieces it only counts. */
  lemma RandomRecord(env: Env, w: World, f: Frame, top: nat, operand: nat)
    requires Here(env, w, f, Rec(top, operand)) && top in {0x0b, 0x8b} && f.count != 1
    requires Seg.Readable(env.mem, f.cur + 1, f.count - 1)
    ensures var pieces := Seg.Published(env.mem, f.cur + 1, f.count - 1, w.core.bitmap);
      var used := Seg.Consumed(env.mem, f.cur + 1, f.count - 1);
      var rest := f.(cur := f.cur + 1 + used, count := f.count - 1 - used);
      var pick := env.call(Random, |pieces|, w).1 % 0x10000;
      && (pieces == [] ==> Dispatch(env, w, f) == Go(w, rest.(acc := f.acc + 1)))
      && (0 < |pieces| < 128 && pick < |pieces| ==>
           Dispatch(env, w, f) == Enter(env.call(Random, |pieces|, w).0, rest,
             Frame(pieces[pick].ptr, pieces[pick].count, f.flags, 0, 0, Ignore)))
  {
    RandomDispatch(env, w, f, top, operand);
    RandomPick(env, w, f.(cur := f.cur + 1, count := f.count - 1));
  }

  lemma RandomDispatch(env: Env, w: World, f: Frame, top: nat, operand: nat)
    requires Here(env, w, f, Rec(top, operand)) && top in {0x0b, 0x8b}
    ensures Dispatch(env, w, f) == RandomChain(env, w, f.(cur := f.cur + 1, count := f.count - 1))
  {
    Decoded(env, w, f, top, operand, 0x0b);
  }

  lemma RandomPick(env: Env, w: World, next: Frame)
    requires next.count != 0 && Seg.Readable(env.mem, next.cur, next.count)
    ensures var pieces := Seg.Published(env.mem, next.cur, next.count, w.core.bitmap);
      var used := Seg.Consumed(env.mem, next.cur, next.count);
      var rest := next.(cur := next.cur + used, count := next.count - used);
      var pick := env.call(Random, |pieces|, w).1 % 0x10000;
      && (pieces == [] ==> RandomChain(env, w, next) == Go(w, rest.(acc := next.acc + 1)))
      && (0 < |pieces| < 128 && pick < |pieces| ==>
           RandomChain(env, w, next) == Enter(env.call(Random, |pieces|, w).0, rest,
             Frame(pieces[pick].ptr, pieces[pick].count, next.flags, 0, 0, Ignore)))
  {
  }

  /** The records that only count, make a sound, stage the topic, or end the chain with success. */
  lemma CountedRecord(env: Env, w: World, callers: seq<Frame>, f: Frame, top: nat, operand: nat)
    requires Here(env, w, f, Rec(top, operand))
    ensures top % 0x80 == 0x0a ==> Ends(env, w, callers, f, Finalize(env, w), 1)
    ensures top % 0x80 == 0x10 ==> GoesOn(env, w, callers, f, w, 1)
    ensures top % 0x80 == 0x19 ==> GoesOn(env, w, callers, f, env.call(Sound, operand - 1, w).0, 1)
    ensures top % 0x80 == 0x1b && f.Scan() ==> GoesOn(env, w, callers, f, w, 0)
    ensures top % 0x80 == 0x1b && !f.Scan() ==> GoesOn(env, w, callers, f, w.(pendingTopic := w.chunk), 1)
  {
    StepOf(env, w, callers, f);
  }

  /** The records that act and are not counted: two kinds of commands, health, the two switches of 0x2d and the
      reduction. The 16-bit operands of health and reduction are signed. */
  lemma SilentRecord(env: Env, w: World, callers: seq<Frame>, f: Frame, top: nat, operand: nat)
    requires Here(env, w, f, Rec(top, operand))
    ensures var low := operand % 0x10000;
      && (top % 0x80 == 0x23 ==>
           GoesOn(env, w, callers, f, if low == 0 then w else env.call(ResetCommands, low, w).0, 0))
      && (top % 0x80 == 0x36 ==>
           GoesOn(env, w, callers, f, if low == 0 then w else env.call(RunCommands, low, w).0, 0))
      && (top % 0x80 == 0x26 && 0 < low < 0x8000 ==> GoesOn(env, w, callers, f, env.call(Clamp, low, w).0, 0))
      && (top % 0x80 == 0x26 && (low == 0 || 0x8000 <= low) ==>
           GoesOn(env, w, callers, f, w.(ui := w.ui.(health := 0, pendingDeath := true)), 0))
      && (top % 0x80 == 0x37 ==> GoesOn(env, w, callers, f,
           w.(reduction := w.reduction + (if low < 0x8000 then low else low - 0x10000)), 0))
  {
    StepOf(env, w, callers, f);
  }

  lemma SwitchRecord(env: Env, w: World, callers: seq<Frame>, f: Frame, top: nat, operand: nat)
    requires Here(env, w, f, Rec(top, operand)) && top in {0x2d, 0xad}
    ensures GoesOn(env, w, callers, f,
      if operand % 0x100 == 4 then w.(ui := w.ui.(gdvPlayed := true))
      else if operand % 0x100 == 7 && w.ui.inventoryOpen != 0 then w.(ui := w.ui.(anchor := true))
      else w, 0)
  {
    Decoded(env, w, f, top, operand, 0x2d);
    StepOf(env, w, callers, f);
  }

  /** The text window: nothing while the queue is drained; else the queue runs first when a window or a dialogue is up,
      the evaluation is finished, and the line's window opens when it has text. */
  lemma WindowRecord(env: Env, w: World, callers: seq<Frame>, f: Frame, top: nat, operand: nat)
    requires Here(env, w, f, Rec(top, operand)) && top in {0x05, 0x85}
    ensures f.Scan() ==> Ends(env, w, callers, f, w, 1)
    ensures !f.Scan() && w.draining ==> GoesOn(env, w, callers, f, w, 1)
    ensures !f.Scan() && !w.draining ==>
      var w1 := if (w.context || w.busy) && w.queueActive then env.call(DrainQueue, 0, w).0 else w;
      Listed(w1) && !w1.busy ==>
        var w2 := FinishEval(env, w1);
        var (w3, shown) := env.call(AltWindow, 0, w2);
        GoesOn(env, w, callers, f, if env.read(operand, 0x3fc) == 0 then w2 else if shown == 0 then w3 else w3.(busy := true), 1)
  {
    Decoded(env, w, f, top, operand, 0x05);
    if f.Scan() {
      StepEnds(env, w, callers, f, 1);
    } else if w.draining {
      StepGoesOn(env, w, callers, f, w, 1);
    } else {
      var w1 := DrainFirst(env, w);
      if Listed(w1) && !w1.busy {
        WindowDispatch(env, w, f, w1);
        StepGoesOn(env, w, callers, f, WindowWorld(env, w1, operand), 1);
      }
    }
  }

  function WindowWorld(env: Env, w1: World, operand: nat): World {
    var w2 := FinishEval(env, w1);
    var (w3, shown) := env.call(AltWindow, 0, w2);
    if env.read(operand, 0x3fc) == 0 then w2 else if shown == 0 then w3 else w3.(busy := true)
  }

  lemma WindowDispatch(env: Env, w: World, f: Frame, w1: World)
    requires Listed(w) && f.cur < |env.mem| && env.mem[f.cur].operand != 0 && env.mem[f.cur].Op() == 0x05
    requires !f.Scan() && !w.draining && w1 == DrainFirst(env, w) && Listed(w1) && !w1.busy
    ensures Dispatch(env, w, f)
      == Go(WindowWorld(env, w1, env.mem[f.cur].operand), f.(cur := f.cur + 1, count := f.count - 1, acc := f.acc + 1))
  {
  }

  /** A cutscene and an image play when no window is open and the inspection panel is not over the inventory. */
  lemma ShowRecord(env: Env, w: World, callers: seq<Frame>, f: Frame, top: nat, operand: nat)
    requires Here(env, w, f, Rec(top, operand)) && top % 0x80 in {0x07, 0x0e}
    ensures f.Scan() ==> Ends(env, w, callers, f, w, 1)
    ensures top % 0x80 == 0x0e && !f.Scan() && !w.busy && !(w.ui.inventoryOpen != 0 && w.ui.popup == 1) ==>
      GoesOn(env, w, callers, f, env.call(Image, operand, w).0, 1)
    ensures top % 0x80 == 0x07 && !f.Scan() ==>
      var w1 := if (w.context || w.busy) && w.queueActive then env.call(DrainQueue, 0, w).0 else w;
      Listed(w1) && !w1.busy && !(w1.ui.inventoryOpen != 0 && w1.ui.popup == 1) ==>
        var w2 := env.call(Cutscene, operand, w1).0;
        GoesOn(env, w, callers, f, if env.playable(operand) then w2.(ui := w2.ui.(gdvPlayed := true)) else w1, 1)
  {
    if f.Scan() {
      StepEnds(env, w, callers, f, 1);
    } else if top % 0x80 == 0x0e {
      if !w.busy && !PanelBlocks(w) { StepGoesOn(env, w, callers, f, env.call(Image, operand, w).0, 1); }
    } else {
      var w1 := DrainFirst(env, w);
      if Listed(w1) && !w1.busy && !PanelBlocks(w1) {
        CutsceneDispatch(env, w, f, w1);
        StepGoesOn(env, w, callers, f, CutsceneWorld(env, w1, operand), 1);
      }
    }
  }

  function CutsceneWorld(env: Env, w1: World, operand: nat): World {
    var w2 := env.call(Cutscene, operand, w1).0;
    if env.playable(operand) then w2.(ui := w2.ui.(gdvPlayed := true)) else w1
  }

  lemma CutsceneDispatch(env: Env, w: World, f: Frame, w1: World)
    requires Listed(w) && f.cur < |env.mem| && env.mem[f.cur].operand != 0 && env.mem[f.cur].Op() == 0x07
    requires !f.Scan() && w1 == DrainFirst(env, w) && Listed(w1) && !w1.busy && !PanelBlocks(w1)
    ensures Dispatch(env, w, f)
      == Go(CutsceneWorld(env, w1, env.mem[f.cur].operand), f.(cur := f.cur + 1, count := f.count - 1, acc := f.acc + 1))
  {
  }

  /** The chunk record drops a running audio sequence and loads its chunk, whose sequence is processed unless loading
      answers something. */
  lemma ChunkRecord(env: Env, w: World, callers: seq<Frame>, f: Frame, top: nat, operand: nat)
    requires Here(env, w, f, Rec(top, operand)) && top in {0x1a, 0x9a}
    ensures f.Scan() ==> GoesOn(env, w, callers, f, w, 0)
    ensures !f.Scan() && !w.busy ==>
      var w1 := if w.audioSeq == 2 then env.call(FinalizeAudio, 0, w).0.(audioSeq := 0) else w;
      var (w2, answer) := env.call(LoadChunk, operand, w1);
      GoesOn(env, w, callers, f, if answer == 0 then env.call(ProcessAudio, 0, w2).0 else w2, 1)
  {
    Decoded(env, w, f, top, operand, 0x1a);
    StepOf(env, w, callers, f);
  }

  /** Records with operand zero or any other opcode are skipped. */
  lemma SkippedRecord(env: Env, w: World, callers: seq<Frame>, f: Frame)
    requires Listed(w) && f.cur < |env.mem|
    requires env.mem[f.cur].operand == 0 || env.mem[f.cur].top % 0x80 !in
      {0x01, 0x02, 0x03, 0x04, 0x05, 0x07, 0x08, 0x0a, 0x0b, 0x0d, 0x0e, 0x10, 0x11, 0x19, 0x1a, 0x1b, 0x1c, 0x1d, 0x23,
       0x26, 0x2d, 0x36, 0x37}
    ensures GoesOn(env, w, callers, f, w, 0)
  {
    StepOf(env, w, callers, f);
  }

  /** A staged topic is loaded once, when its chain ends; if loading answers nothing, a running sequence makes way and
      the new one is processed. */
  lemma TopicLoaded(env: Env, w: World)
    ensures w.pendingTopic == 0 ==> Finalize(env, w) == w
    ensures w.pendingTopic != 0 ==>
      var (w1, answer) := env.call(LoadChunk, w.pendingTopic, w);
      var w2 := if w1.audioSeq != 2 then w1
                else env.call(EmitMusic, 0, env.call(FinalizeAudio, 0, w1.(audioSeq := 0)).0).0;
      Finalize(env, w) == (if answer != 0 then w1 else env.call(ProcessAudio, 0, w2).0).(pendingTopic := 0)
  {
  }

  /** The end of an evaluation closes the overlay unless an action waits or a choice is pending. */
  lemma OverlayCloses(env: Env, w: World)
    ensures w.ui.overlay && w.core.queueCount == 0 && w.core.choice.cursor == None ==>
      FinishEval(env, w) == env.call(ExitOverlay, 0, w).0.(queueActive := false)
    ensures !w.ui.overlay || w.core.queueCount != 0 || w.core.choice.cursor != None ==>
      FinishEval(env, w) == w.(queueActive := false)
  {
  }

  // -------------------------------------------------------------------- chains of conditions

  /** The gate lets a chain pass: a flag set or clear, more or not more of an item than a number, another number or
      the same, the selector of the caller. */
  predicate Open(r: Rec, w: World, owned: nat -> nat, flags: nat) {
    var n, limit := owned(r.operand % 0x10000), r.operand / 0x10000;
    || (r.top == 0x01 && Set(w, r.operand)) || (r.top == 0x81 && !Set(w, r.operand))
    || (r.top == 0x02 && n > limit) || (r.top == 0x82 && n <= limit)
    || (r.top == 0x03 && n != limit) || (r.top == 0x83 && n == limit)
    || ((r.top == 0x1c || r.top == 0x9c) && flags / 2 % 2 == 1)
    || (r.top == 0x1c && flags % 2 == 0) || (r.top == 0x9c && flags % 2 == 1)
  }

  predicate IsGate(r: Rec) { r.operand != 0 && r.top in {0x01, 0x81, 0x02, 0x82, 0x03, 0x83, 0x1c, 0x9c} }

  /** The record at which a chain succeeds: the end of a condition, or for a scan any record with an effect. */
  predicate Succeeds(r: Rec, flags: nat) {
    && r.operand != 0
    && (r.top % 0x80 == 0x0a || (flags / 2 % 2 == 1 && r.top % 0x80 in {0x04, 0x05, 0x07, 0x08, 0x0e, 0x11}))
  }

  /** Asking for the stock of an item changes nothing. */
  ghost predicate Asks(env: Env, owned: nat -> nat) {
    forall id: nat, w: World :: env.call(Inventory, id, w) == (w, owned(id))
  }

  function Along(f: Frame, n: nat): Frame { f.(cur := f.cur + n, count := f.count - n) }

  lemma OneGate(env: Env, w: World, f: Frame, owned: nat -> nat)
    requires Asks(env, owned) && Listed(w) && w.pendingTopic == 0 && f.cur < |env.mem| && IsGate(env.mem[f.cur])
    requires 1 < f.count
    ensures Step(env, Running(w, [f])) ==
      if Open(env.mem[f.cur], w, owned, f.flags) then Running(w, [f.(cur := f.cur + 1, count := f.count - 1)]) else Finished(w, 0)
  {
    var r := env.mem[f.cur];
    assert [] + [f] == [f] && Rec(r.top, r.operand) == r;
    ChainEnds(env, w, [], f.(cur := f.cur + 1, count := f.count - 1));
    CallerGoesOn(env, w, [], f, f, 0);
    TopicLoaded(env, w);
    if r.top in {0x01, 0x81} { FlagGate(env, w, [], f, r.top, r.operand); }
    else if r.top in {0x1c, 0x9c} { SelectorGate(env, w, [], f, r.top, r.operand); }
    else { CountGate(env, w, [], f, r.top, r.operand); }
  }

  lemma LastOfCondition(env: Env, w: World, f: Frame)
    requires Listed(w) && w.pendingTopic == 0 && f.cur < |env.mem| && Succeeds(env.mem[f.cur], f.flags)
    ensures Step(env, Running(w, [f])) == Finished(w, 1)
  {
    assert [] + [f] == [f];
    StepOf(env, w, [], f);
    CallerGoesOn(env, w, [], f, f, 1);
    TopicLoaded(env, w);
  }

  /** The stations of the chain: at each open gate it steps on to the next one. */
  ghost predicate Stations(env: Env, cs: seq<Config>, open: seq<bool>, yes: Config, no: Config) {
    && |cs| == |open| + 1 && !yes.Running? && !no.Running?
    && (forall j: nat | j < |open| :: StepsOn(env, cs, open, j, no))
    && Step(env, cs[|open|]) == yes
  }

  ghost predicate StepsOn(env: Env, cs: seq<Config>, open: seq<bool>, j: nat, no: Config)
    requires j < |open| < |cs|
  {
    Step(env, cs[j]) == if open[j] then cs[j + 1] else no
  }

  lemma {:induction false} AllOpen(env: Env, cs: seq<Config>, open: seq<bool>, i: nat, yes: Config, no: Config)
    requires i <= |open| && Stations(env, cs, open, yes, no)
    ensures Steps(env, cs[i], |open| - i + 1) == if forall j | i <= j < |open| :: open[j] then yes else no
    decreases |open| - i
  {
    OneMore(env, cs[i], |open| - i);
    if i == |open| {
      Settled(env, yes, 0);
    } else {
      assert StepsOn(env, cs, open, i, no);
      if open[i] {
        AllOpen(env, cs, open, i + 1, yes, no);
      } else {
        Settled(env, no, |open| - i);
        assert !(forall j | i <= j < |open| :: open[j]);
      }
    }
  }

  lemma FromTheFirst(env: Env, cs: seq<Config>, open: seq<bool>, n: nat, yes: Config, no: Config)
    requires |open| == n && Stations(env, cs, open, yes, no)
    ensures Steps(env, cs[0], n + 1) == if forall j | 0 <= j < n :: open[j] then yes else no
  {
    AllOpen(env, cs, open, 0, yes, no);
  }

  lemma GateStation(env: Env, w: World, f: Frame, j: nat, owned: nat -> nat)
    requires Asks(env, owned) && Listed(w) && w.pendingTopic == 0 && f.cur + j < |env.mem| && IsGate(env.mem[f.cur + j])
    requires j + 1 < f.count
    ensures Step(env, Running(w, [Along(f, j)])) ==
      if Open(env.mem[f.cur + j], w, owned, f.flags) then Running(w, [Along(f, j + 1)]) else Finished(w, 0)
  {
    OneGate(env, w, Along(f, j), owned);
  }

  lemma StationStep(env: Env, w: World, f: Frame, j: nat, owned: nat -> nat, cs: seq<Config>, open: seq<bool>)
    requires Asks(env, owned) && Listed(w) && w.pendingTopic == 0 && f.cur + j < |env.mem| && IsGate(env.mem[f.cur + j])
    requires j + 1 < f.count && j < |open| < |cs| && open[j] == Open(env.mem[f.cur + j], w, owned, f.flags)
    requires cs[j] == Running(w, [Along(f, j)]) && cs[j + 1] == Running(w, [Along(f, j + 1)])
    ensures StepsOn(env, cs, open, j, Finished(w, 0))
  {
    GateStation(env, w, f, j, owned);
  }

  lemma Stationed(env: Env, w: World, f: Frame, n: nat, owned: nat -> nat) returns (cs: seq<Config>, open: seq<bool>)
    requires Asks(env, owned) && Listed(w) && w.pendingTopic == 0 && n < f.count && f.cur + n < |env.mem|
    requires forall k | f.cur <= k < f.cur + n :: IsGate(env.mem[k])
    requires Succeeds(env.mem[f.cur + n], f.flags)
    ensures |open| == n && Stations(env, cs, open, Finished(w, 1), Finished(w, 0)) && cs[0] == Running(w, [f])
    ensures forall j | 0 <= j < n :: open[j] == Open(env.mem[f.cur + j], w, owned, f.flags)
  {
    cs := seq(n + 1, (j: nat) => Running(w, [Along(f, j)]));
    open := seq(n, (j: nat) requires j < n => Open(env.mem[f.cur + j], w, owned, f.flags));
    forall j: nat | j < n ensures StepsOn(env, cs, open, j, Finished(w, 0)) { StationStep(env, w, f, j, owned, cs, open); }
    LastOfCondition(env, w, Along(f, n));
  }

  /** A chain of gates in front of a record at which it succeeds evaluates their conjunction: it answers 1 when all
      are open and else 0, and changes nothing -- for any number of gates, any flags and any stock. */
  lemma ConditionRun(env: Env, w: World, f: Frame, n: nat, owned: nat -> nat)
    requires Asks(env, owned) && Listed(w) && w.pendingTopic == 0 && n < f.count && f.cur + n < |env.mem|
    requires forall k | f.cur <= k < f.cur + n :: IsGate(env.mem[k])
    requires Succeeds(env.mem[f.cur + n], f.flags)
    ensures Steps(env, Running(w, [f]), n + 1)
      == Finished(w, if forall k | f.cur <= k < f.cur + n :: Open(env.mem[k], w, owned, f.flags) then 1 else 0)
  {
    var cs, open := Stationed(env, w, f, n, owned);
    EveryGate(env.mem, w, f, owned, open);
    FromTheFirst(env, cs, open, n, Finished(w, 1), Finished(w, 0));
  }

  lemma EveryGate(mem: seq<Rec>, w: World, f: Frame, owned: nat -> nat, open: seq<bool>)
    requires f.cur + |open| <= |mem| && forall j | 0 <= j < |open| :: open[j] == Open(mem[f.cur + j], w, owned, f.flags)
    ensures (forall j | 0 <= j < |open| :: open[j])
       <==> (forall k | f.cur <= k < f.cur + |open| :: Open(mem[k], w, owned, f.flags))
  {
    if forall j | 0 <= j < |open| :: open[j] {
      forall k | f.cur <= k < f.cur + |open| ensures Open(mem[k], w, owned, f.flags) { assert open[k - f.cur]; }
    }
  }

  lemma OneMore(env: Env, c: Config, n: nat)
    ensures Steps(env, c, n + 1) == Steps(env, Step(env, c), n) && Steps(env, c, 0) == c
  {
  }

  /** A jump to a record of two or more words continues exactly as an evaluation of that record with the same flags
      would run. A record of fewer words ends the chain, where an evaluation would still read one. */
  lemma JumpIsEvaluation(env: Env, w: World, f: Frame, top: nat, id: nat, n: nat)
    requires Here(env, w, f, Rec(top, id)) && top in {0x1d, 0x9d} && f.after == Top && f.acc == 0
    requires id < |env.records| && env.records[id].Some? && env.records[id].value < |env.mem|
    ensures var target := env.records[id].value; var words := env.mem[target].operand % 0x10000 / 4;
      Steps(env, Running(w, [f]), n + 1)
      == if 2 <= words then Steps(env, Start(w, target + 1, words - 1, f.flags), n) else Finished(Finalize(env, w), 0)
  {
    JumpStep(env, w, f, top, id);
    OneMore(env, Running(w, [f]), n);
    Settled(env, Finished(Finalize(env, w), 0), n);
  }

  lemma JumpStep(env: Env, w: World, f: Frame, top: nat, id: nat)
    requires Here(env, w, f, Rec(top, id)) && top in {0x1d, 0x9d} && f.after == Top && f.acc == 0
    requires id < |env.records| && env.records[id].Some? && env.records[id].value < |env.mem|
    ensures var target := env.records[id].value; var words := env.mem[target].operand % 0x10000 / 4;
      Step(env, Running(w, [f]))
      == if 2 <= words then Start(w, target + 1, words - 1, f.flags) else Finished(Finalize(env, w), 0)
  {
    var target := env.records[id].value;
    var words := env.mem[target].operand % 0x10000 / 4;
    JumpRecord(env, w, [], f, top, id);
    assert [] + [f] == [f];
    JumpLands(env, w, Frame(target + 1, words - 1, f.flags, 0, 0, Top));
  }

  lemma JumpLands(env: Env, w: World, g: Frame)
    ensures Continue(env, w, [], g) == if 0 < g.count then Running(w, [g]) else Finished(Finalize(env, w), g.acc)
  {
    ChainEnds(env, w, [], g);
    assert [] + [g] == [g];
  }
}
