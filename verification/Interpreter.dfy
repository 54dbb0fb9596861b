/** The DBASE100 bytecode interpreter as a machine of small steps over a stack of chains
    (roth_c/src/engine/dbase100.c). The subsystems it calls are opaque. */
module Interpreter {
  import opened Options
  import opened DbaseRecords
  import Menu = ChoiceMenu
  import Seg = Segmenter
  import opened ActionQueue

  // --------------------------------------------------------------------------- the world

  /** The published choice record. */
  datatype Choice = Choice(cursor: Option<nat>, remaining: int, count: nat, mode: nat, indices: seq<nat>)

  /** The state a scan must not change. */
  datatype Core = Core(bitmap: Bitmap, inventory: map<nat, nat>, queue: seq<Entry>, queueCount: nat, choice: Choice)

  datatype Ui = Ui(inventoryOpen: nat, inventoryRedraw: bool, popup: nat, anchor: bool, health: int, pendingDeath: bool,
                   gdvPlayed: bool, overlay: bool)

  datatype World = World(core: Core, busy: bool, context: bool, queueActive: bool, draining: bool,
                         pendingTopic: nat, chunk: nat, audioSeq: nat, reduction: int, ui: Ui)

  /** The called subsystems, by the address of the original function. */
  datatype Callee =
    | Inventory | GiveItem | RemoveItem | LoadChunk | FinalizeAudio | EmitMusic | ProcessAudio | Random
    | Sound | ResetCommands | RunCommands | Clamp | Window | AltWindow | Image | Cutscene | ExitOverlay | DrainQueue

  datatype Env = Env(mem: seq<Rec>, records: seq<Option<nat>>, read: (nat, int) -> nat, playable: nat -> bool,
                     call: (Callee, nat, World) -> (World, nat))

  /** A chain in progress. `then` says what its caller does with the return value. */
  datatype Frame = Frame(cur: nat, count: int, flags: nat, acc: nat, sub: nat, after: After) {
    predicate Scan() { (flags / 2) % 2 == 1 }
  }

  datatype After = Top | Ignore | Finish(choices: nat)

  // --------------------------------------------------------------------- one record

  /** What a record does: go on with the chain, return without or with finalizing, or run another
      chain first. */
  datatype Act = Go(w: World, f: Frame) | Return(w: World, ret: int) | Terminate(w: World, ret: int)
               | Enter(w: World, f: Frame, child: Frame) | Fault

  function Low16(x: nat): nat { x % 0x10000 }

  function Signed16(x: nat): int { if x % 0x10000 < 0x8000 then x % 0x10000 else x % 0x10000 - 0x10000 }

  function Count(f: Frame): Frame { f.(acc := f.acc + 1) }

  /** Write the current record back to slot 0: `f` is the chain before it was fetched. */
  function RequeueA(w: World, f: Frame): Act
    requires 0 < |w.core.queue|
  {
    var e := Entry(f.cur, f.count, f.flags);
    Return(Queued(w, e), -1)
  }

  function RequeueB(w: World, f: Frame): Act
    requires 0 < |w.core.queue|
  {
    Return(Queued(w, w.core.queue[0].(chain := f.cur, count := f.count)), -1)
  }

  function Queued(w: World, e: Entry): World
    requires 0 < |w.core.queue|
  {
    w.(core := w.core.(queue := w.core.queue[0 := e],
                       queueCount := if w.core.queueCount == 0 then 1 else w.core.queueCount))
  }

  function FinishEval(env: Env, w: World): World {
    var w1 := if w.core.queueCount == 0 && w.core.choice.cursor == None && w.ui.overlay then env.call(ExitOverlay, 0, w).0 else w;
    w1.(queueActive := false)
  }

  function Finalize(env: Env, w: World): World {
    if w.pendingTopic == 0 then w
    else
      var (w1, r) := env.call(LoadChunk, w.pendingTopic, w);
      var w2 := if r != 0 then w1
                else
                  var w3 := if w1.audioSeq == 2
                            then env.call(EmitMusic, 0, env.call(FinalizeAudio, 0, w1.(audioSeq := 0)).0).0 else w1;
                  env.call(ProcessAudio, 0, w3).0;
      w2.(pendingTopic := 0)
  }

  predicate Listed(w: World) { |w.core.queue| == CAPACITY && |w.core.choice.indices| == 16 }

  /** The inventory panel is closed when an image or a cutscene is about to be shown over it. */
  function PanelBlocks(w: World): bool { w.ui.inventoryOpen != 0 && w.ui.popup == 1 }

  function ClosePanel(w: World): World {
    if PanelBlocks(w) then w.(ui := w.ui.(inventoryOpen := 2, inventoryRedraw := true)) else w
  }

  function DrainFirst(env: Env, w: World): World {
    if (w.context || w.busy) && w.queueActive then env.call(DrainQueue, 0, w).0 else w
  }

  /** The records the builder may read: with a count that was negative already it stops after one. */
  function Left(f: Frame): nat { if f.count < 0 then 1 else f.count }

  /** Opcode 0x08, or an If in front of one: build the menu and publish it, or run its only branch. */
  function ChoiceOp(env: Env, w: World, f: Frame): Act
    requires Listed(w) && f.cur < |env.mem|
  {
    if f.Scan() then Return(w, 1)
    else if w.busy then RequeueA(w, f)
    else if f.count == 0 then Go(w.(queueActive := false), Count(f))
    else if f.cur + Left(f) > |env.mem| then Fault
    else
      var b := Builds(env, w, f);
      if |b.table| > 16 then Fault
      else
        var indices := b.table + w.core.choice.indices[|b.table|..];
        var w2 := w.(queueActive := false, core := w.core.(choice := w.core.choice.(indices := indices)));
        if b.rest == [] then Return(w2, 1)
        else
          var cur := f.cur + (Left(f) - |b.rest|);
          Publish(env, w2, f.(cur := cur, count := |b.rest|, sub := LineCount(env.mem, f.cur, cur, f.sub)), b)
  }

  /** What the builder makes of the records from the current one on. */
  function Builds(env: Env, w: World, f: Frame): (b: Menu.Built)
    requires f.cur + Left(f) <= |env.mem|
    ensures |b.rest| <= Left(f)
  {
    Menu.BuildStops(Menu.Env(w.core.bitmap, env.read), env.mem[f.cur..f.cur + Left(f)], 0x800, f.sub, false);
    Menu.Build(Menu.Env(w.core.bitmap, env.read), env.mem[f.cur..f.cur + Left(f)], 0x800, f.sub, false)
  }

  /** The menu is built and `f` is the chain behind its lines: publish the choices, or take the only one. */
  function Publish(env: Env, w: World, f: Frame, b: Menu.Built): Act
    requires Listed(w)
  {
    if b.table == [] then Go(w, Count(f))
    else
      var indices := w.core.choice.indices;
      if |b.table| == 1 then
        var w1 := w.(busy := false, context := false,
                     core := w.core.(choice := Choice(None, |b.rest|, 1, f.flags, indices)));
        var found := Menu.FindBranch(b.rest, indices[0]);
        Menu.FindPositive(b.rest, indices[0]);
        if found.None? then Return(w1, 1)
        else Enter(w1, f, Frame(f.cur + found.value, |b.rest| - found.value, f.flags, 0, 0, Finish(1)))
      else
        var w1 := w.(core := w.core.(choice := Choice(Some(f.cur), |b.rest|, |b.table|, f.flags, indices)));
        var (w2, shown) := env.call(Window, 0, w1);
        if shown == 0 then Go(w2, Count(f)) else Return(w2.(busy := true), 1)
  }

  /** The line counter after the builder passed records [from, end). */
  function LineCount(mem: seq<Rec>, from: nat, end: nat, sub: nat): nat
    requires from <= end <= |mem|
    decreases end - from
  {
    if from == end then sub else LineCount(mem, from + 1, end, if mem[from].Op() == 8 then sub + 1 else sub)
  }

  function Jump(env: Env, w: World, r: Rec, next: Frame): Act {
    if r.operand >= |env.records| || env.records[r.operand].None? then Go(w, next)
    else
      var target := env.records[r.operand].value;
      if target >= |env.mem| then Fault
      else Go(w, next.(cur := target + 1, count := Low16(env.mem[target].operand) / 4 - 1, sub := 0))
  }

  /** Room in the buffer the segmenter publishes to. */
  const PIECES := 128

  function RandomChain(env: Env, w: World, next: Frame): Act {
    if next.count == 0 then Go(w, Count(next))
    else if !Seg.Readable(env.mem, next.cur, next.count) then Fault
    else
      var pieces := Seg.Published(env.mem, next.cur, next.count, w.core.bitmap);
      var used := Seg.Consumed(env.mem, next.cur, next.count);
      var f2 := next.(cur := next.cur + used, count := next.count - used);
      if |pieces| >= PIECES then Fault
      else if pieces == [] then Go(w, Count(f2))
      else
        var (w1, pick) := env.call(Random, |pieces|, w);
        if Low16(pick) >= |pieces| then Fault
        else
          var p := pieces[Low16(pick)];
          Enter(w1, f2, Frame(p.ptr, p.count, next.flags, 0, 0, Ignore))
  }

  /** Execute the record at the top chain's cursor. */
  function Dispatch(env: Env, w: World, f: Frame): Act
    requires Listed(w)
  {
    if f.cur >= |env.mem| then Fault
    else
      var r := env.mem[f.cur];
      var next := f.(cur := f.cur + 1, count := f.count - 1);
      if r.operand == 0 then Go(w, next)
      else
        match r.Op()
        case 0x01 => if w.core.bitmap.Test(r.operand) != r.Not() then Go(w, next) else Terminate(w, 0)
        case 0x02 =>
          var (w1, n) := env.call(Inventory, Low16(r.operand), w);
          if (n > r.operand / 0x10000) != r.Not() then Go(w1, next) else Terminate(w1, 0)
        case 0x03 =>
          var (w1, n) := env.call(Inventory, Low16(r.operand), w);
          if (n != r.operand / 0x10000) != r.Not() then Go(w1, next) else Terminate(w1, 0)
        case 0x04 =>
          if f.Scan() then Return(w, 1)
          else Go(w.(core := w.core.(bitmap := SetFlag(w.core.bitmap, r.operand, !r.Not()))), Count(next))
        case 0x05 =>
          if f.Scan() then Return(w, 1)
          else if w.draining then Go(w, Count(next))
          else
            var w1 := DrainFirst(env, w);
            if !Listed(w1) then Fault
            else if w1.busy then RequeueA(w1, f)
            else
              var w2 := FinishEval(env, w1);
              if env.read(r.operand, 0x3fc) == 0 then Go(w2, Count(next))
              else
                var (w3, shown) := env.call(AltWindow, 0, w2);
                Go(if shown == 0 then w3 else w3.(busy := true), Count(next))
        case 0x07 =>
          if f.Scan() then Return(w, 1)
          else
            var w1 := DrainFirst(env, w);
            if !Listed(w1) then Fault
            else if w1.busy || PanelBlocks(w1) then RequeueA(ClosePanel(w1), f)
            else if !env.playable(r.operand) then Go(w1, Count(next))
            else
              var w2 := env.call(Cutscene, r.operand, w1).0;
              Go(w2.(ui := w2.ui.(gdvPlayed := true)), Count(next))
        case 0x08 => ChoiceOp(env, w, f)
        case 0x0a => Terminate(w, 1)
        case 0x0b => RandomChain(env, w, next)
        case 0x0d =>
          if next.cur >= |env.mem| then Fault
          else if env.mem[next.cur].top == 8 then ChoiceOp(env, w, f)
          else if w.core.bitmap.Test(r.operand) != r.Not() then Go(w, next)
          else Go(w, next.(cur := next.cur + 1, count := next.count - 1))
        case 0x0e =>
          if f.Scan() then Return(w, 1)
          else if w.busy || PanelBlocks(w) then RequeueA(ClosePanel(w), f)
          else Go(env.call(Image, r.operand, w).0, Count(next))
        case 0x10 => Go(w, Count(next))
        case 0x11 =>
          if f.Scan() then Return(w, 1)
          else Go(env.call(if r.Not() then RemoveItem else GiveItem, Low16(r.operand), w).0, Count(next))
        case 0x19 => Go(env.call(Sound, r.operand - 1, w).0, Count(next))
        case 0x1a =>
          if f.Scan() then Go(w, next)
          else if w.busy then RequeueB(w, f)
          else
            var w1 := if w.audioSeq == 2 then env.call(FinalizeAudio, 0, w).0.(audioSeq := 0) else w;
            var (w2, loaded) := env.call(LoadChunk, r.operand, w1);
            Go(if loaded != 0 then w2 else env.call(ProcessAudio, 0, w2).0, Count(next))
        case 0x1b => if f.Scan() then Go(w, next) else Go(w.(pendingTopic := w.chunk), Count(next))
        case 0x1c =>
          if f.Scan() || (f.flags % 2 == 1) == r.Not() then Go(w, next) else Terminate(w, 0)
        case 0x1d => Jump(env, w, r, next)
        case 0x23 => Go(if Low16(r.operand) == 0 then w else env.call(ResetCommands, Low16(r.operand), w).0, next)
        case 0x26 =>
          var v := Signed16(r.operand);
          Go(if v <= 0 then w.(ui := w.ui.(health := 0, pendingDeath := true)) else env.call(Clamp, v, w).0, next)
        case 0x2d =>
          var code := r.operand % 0x100;
          Go(if code == 4 then w.(ui := w.ui.(gdvPlayed := true))
             else if code == 7 && w.ui.inventoryOpen != 0 then w.(ui := w.ui.(anchor := true)) else w, next)
        case 0x36 => Go(if Low16(r.operand) == 0 then w else env.call(RunCommands, Low16(r.operand), w).0, next)
        case 0x37 => Go(w.(reduction := w.reduction + Signed16(r.operand)), next)
        case _ => Go(w, next)
  }

  function SetFlag(b: Bitmap, id: nat, on: bool): Bitmap {
    if b.NoBitmap? then b else if on then Bits(b.flags + {id}) else Bits(b.flags - {id})
  }

  // ------------------------------------------------------------------------- the machine

  datatype Config = Running(w: World, stack: seq<Frame>) | Finished(w: World, ret: int) | Faulted

  /** The top chain returned `ret`; its caller goes on. */
  function PopFrame(env: Env, w: World, stack: seq<Frame>, ret: int): Config
    requires stack != []
    decreases |stack|
  {
    var done, callers := stack[|stack| - 1], stack[..|stack| - 1];
    if callers == [] then Finished(w, ret)
    else
      var caller := callers[|callers| - 1];
      match done.after
      case Finish(choices) => PopFrame(env, FinishEval(env, w), callers, choices)
      case _ => Continue(env, w, callers[..|callers| - 1], Count(caller))
  }

  /** The end of a record: the next one while the count is positive, else finalize and return. */
  function Continue(env: Env, w: World, callers: seq<Frame>, f: Frame): Config
    decreases |callers| + 1
  {
    if f.count > 0 then Running(w, callers + [f])
    else if callers == [] then Finished(Finalize(env, w), f.acc)
    else
      var w1, caller := Finalize(env, w), callers[|callers| - 1];
      match f.after
      case Finish(choices) => PopFrame(env, FinishEval(env, w1), callers, choices)
      case _ => Continue(env, w1, callers[..|callers| - 1], Count(caller))
  }

  /** The machine after the chain on top did `act`. */
  function Settle(env: Env, stack: seq<Frame>, act: Act): Config
    requires stack != []
  {
    var callers := stack[..|stack| - 1];
    match act
    case Go(w, f2) => Continue(env, w, callers, f2)
    case Return(w, ret) => PopFrame(env, w, stack, ret)
    case Terminate(w, ret) => PopFrame(env, Finalize(env, w), stack, ret)
    case Enter(w, f2, child) => Running(w, callers + [f2, child])
    case Fault => Faulted
  }

  function Step(env: Env, c: Config): Config {
    if !c.Running? || c.stack == [] then c
    else if !Listed(c.w) then Faulted
    else Settle(env, c.stack, Dispatch(env, c.w, c.stack[|c.stack| - 1]))
  }

  function Steps(env: Env, c: Config, n: nat): Config
    decreases n
  {
    if n == 0 then c else Steps(env, Step(env, c), n - 1)
  }

  function Start(w: World, chain: nat, count: int, flags: nat): Config {
    Running(w, [Frame(chain, count, flags, 0, 0, Top)])
  }

  // -------------------------------------------------------------------------- scan mode

  /** The subsystems a scan can reach leave the protected state alone. Nothing is assumed of the others
      (items, windows, images, cutscenes, the nested queue drain). */
  ghost predicate ScanSafe(env: Env) {
    forall c: Callee, arg: nat, w: World |
      c in {Inventory, LoadChunk, FinalizeAudio, EmitMusic, ProcessAudio, Random, Sound, ResetCommands, RunCommands, Clamp} ::
      env.call(c, arg, w).0.core == w.core
  }

  ghost predicate Scanning(stack: seq<Frame>) { forall f <- stack :: f.Scan() && !f.after.Finish? }

  lemma FinalizeSafe(env: Env, w: World)
    requires ScanSafe(env)
    ensures Finalize(env, w).core == w.core
  {
  }

  /** One record of a scan: whatever it is, the protected state is untouched, the return value is 1 or
      comes from the accumulator, and a chain it enters is a scan too. */
  lemma ScanRecord(env: Env, w: World, f: Frame)
    requires ScanSafe(env) && Listed(w) && f.Scan() && !f.after.Finish?
    ensures match Dispatch(env, w, f)
      case Go(w', f') => w'.core == w.core && f'.Scan() && !f'.after.Finish?
      case Return(w', ret) => w'.core == w.core && ret == 1
      case Terminate(w', ret) => w'.core == w.core && 0 <= ret
      case Enter(w', f', child) => w'.core == w.core && Scanning([f', child])
      case Fault => true
  {
  }

  ghost predicate ScanKept(core: Core, c: Config) {
    match c
    case Running(w, stack) => w.core == core && Scanning(stack)
    case Finished(w, ret) => w.core == core && 0 <= ret
    case Faulted => true
  }

  lemma {:induction false} ContinueKept(env: Env, w: World, callers: seq<Frame>, f: Frame)
    requires ScanSafe(env) && Scanning(callers) && f.Scan() && !f.after.Finish?
    ensures ScanKept(w.core, Continue(env, w, callers, f))
    decreases |callers|
  {
    FinalizeSafe(env, w);
    if f.count <= 0 && callers != [] {
      var caller := callers[|callers| - 1];
      assert caller in callers;
      ContinueKept(env, Finalize(env, w), callers[..|callers| - 1], Count(caller));
    }
  }

  lemma PopKept(env: Env, w: World, stack: seq<Frame>, ret: int)
    requires ScanSafe(env) && Scanning(stack) && stack != [] && 0 <= ret
    ensures ScanKept(w.core, PopFrame(env, w, stack, ret))
  {
    var callers := stack[..|stack| - 1];
    assert stack[|stack| - 1] in stack;
    if callers != [] {
      var caller := callers[|callers| - 1];
      assert caller in stack;
      ContinueKept(env, w, callers[..|callers| - 1], Count(caller));
    }
  }

  lemma ScanStep(env: Env, c: Config)
    requires ScanSafe(env) && c.Running? && Scanning(c.stack)
    ensures ScanKept(c.w.core, Step(env, c))
  {
    if c.stack != [] && Listed(c.w) {
      var f, callers := c.stack[|c.stack| - 1], c.stack[..|c.stack| - 1];
      assert f in c.stack;
      ScanRecord(env, c.w, f);
      match Dispatch(env, c.w, f)
      case Go(w, f2) => ContinueKept(env, w, callers, f2);
      case Return(w, ret) => PopKept(env, w, c.stack, ret);
      case Terminate(w, ret) => FinalizeSafe(env, w); PopKept(env, Finalize(env, w), c.stack, ret);
      case Enter(w, f2, child) =>
        forall g | g in callers + [f2, child] ensures g.Scan() && !g.after.Finish? {
          if g !in callers { assert g in [f2, child]; }
        }
      case Fault =>
    }
  }

  /** Scan mode is safe over every run: however many records, jumps and nested random chains it
      executes, no step changes the progress bitmap, the inventory, the action queue or the published
      choice, and a scan never returns the requeue code. */
  lemma {:induction false} ScanChangesNothing(env: Env, c: Config, core: Core, n: nat)
    requires ScanSafe(env) && ScanKept(core, c)
    ensures ScanKept(core, Steps(env, c, n))
    decreases n
  {
    if n > 0 {
      if c.Running? { ScanStep(env, c); }
      ScanChangesNothing(env, Step(env, c), core, n - 1);
    }
  }

  /** ...in particular for a scan of any chain from any world. */
  lemma ScanOfChain(env: Env, w: World, chain: nat, count: int, flags: nat, n: nat)
    requires ScanSafe(env) && (flags / 2) % 2 == 1
    ensures ScanKept(w.core, Steps(env, Start(w, chain, count, flags), n))
  {
    ScanChangesNothing(env, Start(w, chain, count, flags), w.core, n);
  }

  /** The records a scan stops at: those with an effect, and an If in front of a menu line. */
  predicate StopsScan(env: Env, cur: nat)
    requires cur < |env.mem|
  {
    var r := env.mem[cur];
    && r.operand != 0
    && (r.Op() in {0x04, 0x05, 0x07, 0x08, 0x0e, 0x11} || (r.Op() == 0x0d && cur + 1 < |env.mem| && env.mem[cur + 1].top == 8))
  }

  /** A scan returns from a record if and only if it is one of those, and then answers 1 with nothing done. */
  lemma ScanStopsAtEffects(env: Env, w: World, f: Frame)
    requires Listed(w) && f.Scan() && f.cur < |env.mem|
    ensures Dispatch(env, w, f).Return? <==> StopsScan(env, f.cur)
    ensures Dispatch(env, w, f).Return? ==> Dispatch(env, w, f) == Return(w, 1)
  {
  }

  // -------------------------------------------------------------------------- requeueing

  /** The records that requeue, seen before they are dispatched: outside a scan, a menu while a window is open, a
      window or a cutscene that finds one open after the drain, a cutscene or an image over the inspection panel,
      an image or a chunk while a window is open. */
  predicate Requeues(env: Env, w: World, f: Frame) {
    && f.cur < |env.mem| && !f.Scan() && env.mem[f.cur].operand != 0
    && match env.mem[f.cur].Op()
       case 0x05 => !w.draining && Listed(DrainFirst(env, w)) && DrainFirst(env, w).busy
       case 0x07 => Listed(DrainFirst(env, w)) && (DrainFirst(env, w).busy || PanelBlocks(DrainFirst(env, w)))
       case 0x08 => w.busy
       case 0x0d => w.busy && f.cur + 1 < |env.mem| && env.mem[f.cur + 1].top == 8
       case 0x0e => w.busy || PanelBlocks(w)
       case 0x1a => w.busy
       case _ => false
  }

  /** A dispatched record requeues if and only if it is one of those. */
  lemma RequeueGuard(env: Env, w: World, f: Frame)
    requires Listed(w)
    ensures (Dispatch(env, w, f).Return? && Dispatch(env, w, f).ret == -1) <==> Requeues(env, w, f)
  {
  }

  /** Whenever a record requeues, slot 0 holds exactly the chain as it stood before the record was
      fetched: run again from there, the same record is dispatched with the same records left. The
      caller's flags are kept too, except by opcode 0x1a. */
  lemma RequeueResumesTheRecord(env: Env, w: World, f: Frame, w': World)
    requires Listed(w) && Dispatch(env, w, f) == Return(w', -1)
    ensures w'.core.queue != [] && 1 <= w'.core.queueCount
    ensures var e := w'.core.queue[0];
      && e.chain == f.cur && e.count == f.count
      && (env.mem[f.cur].Op() != 0x1a ==> e.flags == f.flags)
      && (env.mem[f.cur].Op() == 0x1a ==> e.flags == w.core.queue[0].flags)
  {
    var op := env.mem[f.cur].Op();
    if op == 0x08 || op == 0x0d { ChoiceRequeues(env, w, f, w'); }
  }

  lemma ChoiceRequeues(env: Env, w: World, f: Frame, w': World)
    requires Listed(w) && f.cur < |env.mem| && ChoiceOp(env, w, f) == Return(w', -1)
    ensures w'.core.queue != [] && 1 <= w'.core.queueCount && w'.core.queue[0] == Entry(f.cur, f.count, f.flags)
  {
  }

  ghost predicate NotRequeued(c: Config) { c.Finished? ==> 0 <= c.ret }

  /** Only a chain without callers hands its return value to the caller of the run; every other value of a
      finished run is an accumulator or a number of choices. */
  lemma {:induction false} ContinueNotRequeued(env: Env, w: World, callers: seq<Frame>, f: Frame)
    ensures NotRequeued(Continue(env, w, callers, f))
    decreases |callers| + 1
  {
    if f.count <= 0 && callers != [] {
      var w1, caller := Finalize(env, w), callers[|callers| - 1];
      match f.after
      case Finish(choices) => PopNotRequeued(env, FinishEval(env, w1), callers, choices);
      case _ => ContinueNotRequeued(env, w1, callers[..|callers| - 1], Count(caller));
    }
  }

  lemma {:induction false} PopNotRequeued(env: Env, w: World, stack: seq<Frame>, ret: int)
    requires stack != [] && (0 <= ret || 1 < |stack|)
    ensures NotRequeued(PopFrame(env, w, stack, ret))
    decreases |stack|
  {
    var done, callers := stack[|stack| - 1], stack[..|stack| - 1];
    if callers != [] {
      match done.after
      case Finish(choices) => PopNotRequeued(env, FinishEval(env, w), callers, choices);
      case _ => ContinueNotRequeued(env, w, callers[..|callers| - 1], Count(callers[|callers| - 1]));
    }
  }

  /** What a step that ends the run with the requeue code did. */
  lemma StepRequeues(env: Env, c: Config, w: World)
    requires c.Running? && Step(env, c) == Finished(w, -1)
    ensures |c.stack| == 1 && Listed(c.w) && Dispatch(env, c.w, c.stack[0]) == Return(w, -1)
  {
    var f, callers := c.stack[|c.stack| - 1], c.stack[..|c.stack| - 1];
    match Dispatch(env, c.w, f)
    case Go(w1, f2) => ContinueNotRequeued(env, w1, callers, f2);
    case Return(w1, ret) => if 0 <= ret || 1 < |c.stack| { PopNotRequeued(env, w1, c.stack, ret); }
    case Terminate(w1, ret) =>
      TerminateNotRequeued(env, c.w, f);
      PopNotRequeued(env, Finalize(env, w1), c.stack, ret);
    case _ =>
  }

  lemma TerminateNotRequeued(env: Env, w: World, f: Frame)
    requires Listed(w) && Dispatch(env, w, f).Terminate?
    ensures 0 <= Dispatch(env, w, f).ret
  {
  }

  /** A run that ends with the requeue code can be resumed: its outermost chain had reached a record that
      requeued, no callers were left to return to, and slot 0 holds that chain from that record on. */
  lemma {:induction false} RequeuedRun(env: Env, c: Config, n: nat, w: World) returns (m: nat, w0: World, f: Frame)
    requires c.Running? && Steps(env, c, n) == Finished(w, -1)
    ensures m < n && Steps(env, c, m) == Running(w0, [f]) && Listed(w0) && Dispatch(env, w0, f) == Return(w, -1)
    ensures w.core.queue != [] && 1 <= w.core.queueCount
    ensures w.core.queue[0].chain == f.cur && w.core.queue[0].count == f.count
    decreases n
  {
    var next := Step(env, c);
    if next.Running? {
      m, w0, f := RequeuedRun(env, next, n - 1, w);
      m := m + 1;
    } else {
      Settled(env, next, n - 1);
      StepRequeues(env, c, w);
      m, w0, f := 0, c.w, c.stack[0];
      assert c.stack == [f];
      RequeueResumesTheRecord(env, w0, f, w);
    }
  }

  lemma {:induction false} Settled(env: Env, c: Config, n: nat)
    requires !c.Running?
    ensures Steps(env, c, n) == c
    decreases n
  {
    if n > 0 { Settled(env, Step(env, c), n - 1); }
  }
}
