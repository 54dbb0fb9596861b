/** Progress flags and items over whole runs of the interpreter (roth_c/src/engine/dbase100.c). */
module FlagRuns {
  import opened Options
  import opened DbaseRecords
  import opened Interpreter
  import opened ActionQueue
  import Menu = ChoiceMenu

  // ------------------------------------------------------------------ what keeps the flags

  /** The called subsystems leave the progress flags alone. */
  ghost predicate KeepsFlags(env: Env) {
    forall c: Callee, arg: nat, w: World :: env.call(c, arg, w).0.core.bitmap == w.core.bitmap
  }

  /** They leave the inventory alone, but for the two that give and take items. */
  ghost predicate KeepsStock(env: Env) {
    forall c: Callee, arg: nat, w: World | c != GiveItem && c != RemoveItem ::
      env.call(c, arg, w).0.core.inventory == w.core.inventory
  }

  ghost predicate Kept(env: Env, c: Config, core: Core) {
    || c.Faulted?
    || ((KeepsFlags(env) ==> c.w.core.bitmap == core.bitmap) && (KeepsStock(env) ==> c.w.core.inventory == core.inventory))
  }

  lemma {:induction false} ContinueKeeps(env: Env, w: World, callers: seq<Frame>, f: Frame)
    ensures Kept(env, Continue(env, w, callers, f), w.core)
    decreases |callers| + 1
  {
    if f.count <= 0 && callers != [] {
      var w1, caller := Finalize(env, w), callers[|callers| - 1];
      match f.after
      case Finish(choices) => PopKeeps(env, FinishEval(env, w1), callers, choices);
      case _ => ContinueKeeps(env, w1, callers[..|callers| - 1], Count(caller));
    }
  }

  lemma {:induction false} PopKeeps(env: Env, w: World, stack: seq<Frame>, ret: int)
    requires stack != []
    ensures Kept(env, PopFrame(env, w, stack, ret), w.core)
    decreases |stack|
  {
    var done, callers := stack[|stack| - 1], stack[..|stack| - 1];
    if callers != [] {
      match done.after
      case Finish(choices) => PopKeeps(env, FinishEval(env, w), callers, choices);
      case _ => ContinueKeeps(env, w, callers[..|callers| - 1], Count(callers[|callers| - 1]));
    }
  }

  /** A step leaves what the record on top leaves. */
  lemma StepKeeps(env: Env, c: Config)
    requires c.Running? && c.stack != [] && Listed(c.w)
    ensures var act := Dispatch(env, c.w, c.stack[|c.stack| - 1]);
      !act.Fault? ==> Kept(env, Step(env, c), act.w.core)
  {
    var callers := c.stack[..|c.stack| - 1];
    match Dispatch(env, c.w, c.stack[|c.stack| - 1])
    case Go(w, f2) => ContinueKeeps(env, w, callers, f2);
    case Return(w, ret) => PopKeeps(env, w, c.stack, ret);
    case Terminate(w, ret) => PopKeeps(env, Finalize(env, w), c.stack, ret);
    case _ =>
  }

  // ---------------------------------------------------------------------- flags over a run

  /** Records are 32-bit words. */
  predicate Words(env: Env) { forall r <- env.mem :: r.top < 0x100 }

  /** Outside a scan, the chain on top stands at a record with this top byte and operand. */
  predicate Does(env: Env, c: Config, top: nat, operand: nat) {
    && c.Running? && c.stack != [] && Listed(c.w)
    && var f := c.stack[|c.stack| - 1];
       f.flags / 2 % 2 == 0 && f.cur < |env.mem| && env.mem[f.cur] == Rec(top, operand) && operand != 0
  }

  predicate Loaded(c: Config) { !c.Faulted? && c.w.core.bitmap.Bits? }

  function FlagsOf(c: Config): set<nat>
    requires Loaded(c)
  {
    c.w.core.bitmap.flags
  }

  ghost predicate ActKeeps(env: Env, act: Act, core: Core) {
    || act.Fault?
    || ((KeepsFlags(env) ==> act.w.core.bitmap == core.bitmap) && (KeepsStock(env) ==> act.w.core.inventory == core.inventory))
  }

  /** Only 0x04 writes flags, and only 0x11 gives and takes. */
  lemma RecordKeeps(env: Env, w: World, f: Frame)
    requires Listed(w) && f.cur < |env.mem|
    requires f.Scan() || env.mem[f.cur].operand == 0 || env.mem[f.cur].Op() !in {0x04, 0x11}
    ensures ActKeeps(env, Dispatch(env, w, f), w.core)
  {
    var op := env.mem[f.cur].Op();
    if op == 0x08 || op == 0x0d { ChoiceKeeps(env, w, f); }
    else if op == 0x05 { WindowKeeps(env, w, f); }
    else if op == 0x07 { CutsceneKeeps(env, w, f); }
    else if op == 0x0b { RandomKeeps(env, w, f); }
    else if op == 0x1a { ChunkKeeps(env, w, f); }
    else if op in {0x02, 0x03, 0x0e} { AskingKeeps(env, w, f); }
    else if op in {0x19, 0x23, 0x26, 0x36} { CommandKeeps(env, w, f); }
    else if op in {0x04, 0x11} { assert Dispatch(env, w, f) in
      {Return(w, 1), Go(w, f.(cur := f.cur + 1, count := f.count - 1))}; }
    else { QuietKeeps(env, w, f); }
  }

  lemma AskingKeeps(env: Env, w: World, f: Frame)
    requires Listed(w) && f.cur < |env.mem| && env.mem[f.cur].Op() in {0x02, 0x03, 0x0e}
    ensures ActKeeps(env, Dispatch(env, w, f), w.core)
  {
  }

  lemma CommandKeeps(env: Env, w: World, f: Frame)
    requires Listed(w) && f.cur < |env.mem| && env.mem[f.cur].Op() in {0x19, 0x23, 0x26, 0x36}
    ensures ActKeeps(env, Dispatch(env, w, f), w.core)
  {
  }

  lemma QuietKeeps(env: Env, w: World, f: Frame)
    requires Listed(w) && f.cur < |env.mem|
    requires env.mem[f.cur].Op() !in
      {0x02, 0x03, 0x04, 0x05, 0x07, 0x08, 0x0b, 0x0d, 0x0e, 0x11, 0x19, 0x1a, 0x23, 0x26, 0x36}
    ensures !Dispatch(env, w, f).Fault? ==> Dispatch(env, w, f).w.core == w.core
  {
  }

  lemma WindowKeeps(env: Env, w: World, f: Frame)
    requires Listed(w) && f.cur < |env.mem| && env.mem[f.cur].Op() == 0x05
    ensures ActKeeps(env, Dispatch(env, w, f), w.core)
  {
    assert Kept(env, Finished(DrainFirst(env, w), 0), w.core);
  }

  lemma CutsceneKeeps(env: Env, w: World, f: Frame)
    requires Listed(w) && f.cur < |env.mem| && env.mem[f.cur].Op() == 0x07
    ensures ActKeeps(env, Dispatch(env, w, f), w.core)
  {
    assert Kept(env, Finished(DrainFirst(env, w), 0), w.core);
  }

  lemma RandomKeeps(env: Env, w: World, f: Frame)
    requires Listed(w) && f.cur < |env.mem| && env.mem[f.cur].Op() == 0x0b
    ensures ActKeeps(env, Dispatch(env, w, f), w.core)
  {
  }

  lemma ChunkKeeps(env: Env, w: World, f: Frame)
    requires Listed(w) && f.cur < |env.mem| && env.mem[f.cur].Op() == 0x1a
    ensures ActKeeps(env, Dispatch(env, w, f), w.core)
  {
  }

  lemma ChoiceKeeps(env: Env, w: World, f: Frame)
    requires Listed(w) && f.cur < |env.mem|
    ensures ActKeeps(env, ChoiceOp(env, w, f), w.core)
  {
    if !f.Scan() && !w.busy && f.count != 0 && f.cur + Left(f) <= |env.mem| {
      var b := Builds(env, w, f);
      if |b.table| <= 16 && b.rest != [] {
        var cur, indices := f.cur + (Left(f) - |b.rest|), b.table + w.core.choice.indices[|b.table|..];
        PublishKeeps(env, w.(queueActive := false, core := w.core.(choice := w.core.choice.(indices := indices))),
                     f.(cur := cur, count := |b.rest|, sub := LineCount(env.mem, f.cur, cur, f.sub)), b);
      }
    }
  }

  lemma PublishKeeps(env: Env, w: World, f: Frame, b: Menu.Built)
    requires Listed(w)
    ensures ActKeeps(env, Publish(env, w, f, b), w.core)
  {
    if 1 < |b.table| {
      var w1 := w.(core := w.core.(choice := Choice(Some(f.cur), |b.rest|, |b.table|, f.flags, w.core.choice.indices)));
      assert Kept(env, Finished(env.call(Window, 0, w1).0, 0), w1.core);
    }
  }

  /** What 0x04 and 0x84 write. */
  lemma FlagWritten(env: Env, w: World, f: Frame)
    requires Listed(w) && f.cur < |env.mem| && !f.Scan()
    requires env.mem[f.cur].operand != 0 && env.mem[f.cur].Op() == 0x04 && w.core.bitmap.Bits?
    ensures var act, r, old' := Dispatch(env, w, f), env.mem[f.cur], w.core.bitmap.flags;
      act.Go? && act.w.core.bitmap == Bits(if r.top < 0x80 then old' + {r.operand} else old' - {r.operand})
  {
  }

  /** The record on top writes a flag. */
  predicate Writes(env: Env, c: Config) {
    && c.Running? && c.stack != [] && Listed(c.w)
    && var f := c.stack[|c.stack| - 1];
       !f.Scan() && f.cur < |env.mem| && env.mem[f.cur].operand != 0 && env.mem[f.cur].Op() == 0x04
  }

  lemma NotWritten(env: Env, c: Config)
    requires KeepsFlags(env) && Loaded(c) && !Writes(env, c) && !Step(env, c).Faulted?
    ensures Step(env, c).w.core.bitmap == c.w.core.bitmap
  {
    if c.Running? && c.stack != [] && Listed(c.w) {
      var f := c.stack[|c.stack| - 1];
      StepKeeps(env, c);
      if f.cur < |env.mem| {
        var r := env.mem[f.cur];
        if f.Scan() || r.operand == 0 || r.Op() != 0x11 { RecordKeeps(env, c.w, f); } else { ItemKeepsFlags(env, c.w, f); }
      }
    }
  }

  lemma WrittenStep(env: Env, c: Config)
    requires KeepsFlags(env) && Loaded(c) && Writes(env, c) && !Step(env, c).Faulted?
    ensures var r := env.mem[c.stack[|c.stack| - 1].cur];
      Step(env, c).w.core.bitmap == Bits(if r.top < 0x80 then FlagsOf(c) + {r.operand} else FlagsOf(c) - {r.operand})
  {
    StepKeeps(env, c);
    FlagWritten(env, c.w, c.stack[|c.stack| - 1]);
  }

  lemma StepFlags(env: Env, c: Config, id: nat)
    requires KeepsFlags(env) && Words(env) && Loaded(c) && !Step(env, c).Faulted?
    ensures Loaded(Step(env, c))
    ensures id in FlagsOf(Step(env, c)) <==> Does(env, c, 0x04, id) || (id in FlagsOf(c) && !Does(env, c, 0x84, id))
  {
    var next := Step(env, c);
    if Writes(env, c) { WrittenStep(env, c); } else { NotWritten(env, c); }
    DoesWrite(env, c, id);
  }

  lemma DoesWrite(env: Env, c: Config, id: nat)
    requires Words(env)
    ensures !Writes(env, c) ==> !Does(env, c, 0x04, id) && !Does(env, c, 0x84, id)
    ensures Writes(env, c) ==> var r := env.mem[c.stack[|c.stack| - 1].cur];
      && (Does(env, c, 0x04, id) <==> r.top < 0x80 && r.operand == id)
      && (Does(env, c, 0x84, id) <==> r.top >= 0x80 && r.operand == id)
  {
    if Writes(env, c) { assert env.mem[c.stack[|c.stack| - 1].cur] in env.mem; }
  }

  lemma ItemKeepsFlags(env: Env, w: World, f: Frame)
    requires KeepsFlags(env) && Listed(w) && f.cur < |env.mem| && env.mem[f.cur].Op() == 0x11
    ensures !Dispatch(env, w, f).Fault? ==> Dispatch(env, w, f).w.core.bitmap == w.core.bitmap
  {
  }

  predicate DoesAt(env: Env, c: Config, k: nat, top: nat, operand: nat) { Does(env, Steps(env, c, k), top, operand) }

  lemma {:induction false} StepsSnoc(env: Env, c: Config, k: nat)
    ensures Steps(env, c, k + 1) == Step(env, Steps(env, c, k))
    decreases k
  {
    if k > 0 { StepsSnoc(env, Step(env, c), k - 1); }
  }

  /** The last write decides, else the initial value. */
  predicate Decided(flag: seq<bool>, on: seq<bool>, off: seq<bool>, n: nat)
    requires n < |flag| && n <= |on| && n <= |off|
  {
    flag[n] <==>
      || (exists k | 0 <= k < n :: on[k] && forall j | k < j < n :: !off[j])
      || (flag[0] && forall j | 0 <= j < n :: !off[j])
  }

  lemma {:induction false} LastWrite(flag: seq<bool>, on: seq<bool>, off: seq<bool>, n: nat)
    requires n < |flag| && n <= |on| && n <= |off|
    requires forall k | 0 <= k < n :: flag[k + 1] == (on[k] || (flag[k] && !off[k]))
    ensures Decided(flag, on, off, n)
  {
    if n > 0 {
      LastWrite(flag, on, off, n - 1);
      assert flag[n - 1 + 1] == (on[n - 1] || (flag[n - 1] && !off[n - 1]));
      if on[n - 1] {
        assert exists k | 0 <= k < n :: on[k] && forall j | k < j < n :: !off[j];
      } else if flag[n - 1] && !off[n - 1] && !(flag[0] && forall j | 0 <= j < n - 1 :: !off[j]) {
        var k :| 0 <= k < n - 1 && on[k] && forall j | k < j < n - 1 :: !off[j];
        assert on[k] && forall j | k < j < n :: !off[j];
      }
    }
  }

  /** The stations of a run. */
  lemma {:induction false} Trail(env: Env, c: Config, n: nat) returns (ds: seq<Config>)
    ensures |ds| == n + 1 && ds[0] == c && ds[n] == Steps(env, c, n)
    ensures forall k: nat | k <= n :: ds[k] == Steps(env, c, k)
    ensures forall k | 0 <= k < n :: ds[k + 1] == Step(env, ds[k])
    decreases n
  {
    if n == 0 {
      ds := [c];
    } else {
      StepsSnoc(env, c, n - 1);
      ds := Trail(env, c, n - 1);
      ds := ds + [Steps(env, c, n)];
    }
  }

  lemma {:induction false} TrailLoaded(env: Env, ds: seq<Config>, id: nat, k: nat)
    requires KeepsFlags(env) && Words(env) && k < |ds| && Loaded(ds[0])
    requires (forall j | 0 <= j < |ds| :: !ds[j].Faulted?) && forall j | 0 <= j < |ds| - 1 :: ds[j + 1] == Step(env, ds[j])
    ensures Loaded(ds[k])
    decreases k
  {
    if k > 0 {
      TrailLoaded(env, ds, id, k - 1);
      assert ds[k - 1 + 1] == Step(env, ds[k - 1]);
      StepFlags(env, ds[k - 1], id);
    }
  }

  /** The fate of a flag over any run, through jumps, menus and nested chains: it is set at the end if and only if a
      record 0x04 set it and no 0x84 cleared it later, or it was set at the start and never cleared. */
  lemma FlagAfterRun(env: Env, c: Config, n: nat, id: nat)
    requires KeepsFlags(env) && Words(env) && Loaded(c) && !Steps(env, c, n).Faulted?
    ensures Loaded(Steps(env, c, n))
    ensures id in FlagsOf(Steps(env, c, n)) <==>
      || (exists k: nat | k < n :: DoesAt(env, c, k, 0x04, id) && forall j: nat | k < j < n :: !DoesAt(env, c, j, 0x84, id))
      || (id in FlagsOf(c) && forall j: nat | j < n :: !DoesAt(env, c, j, 0x84, id))
  {
    var ds := Trail(env, c, n);
    TrailSteps(env, c, n, ds, id);
    var flag := seq(n + 1, (k: nat) requires k <= n => id in FlagsOf(ds[k]));
    var on := seq(n, (k: nat) requires k < n => Does(env, ds[k], 0x04, id));
    var off := seq(n, (k: nat) requires k < n => Does(env, ds[k], 0x84, id));
    LastWrite(flag, on, off, n);
    DecidedAt(env, c, n, id, flag, on, off);
  }

  lemma TrailSteps(env: Env, c: Config, n: nat, ds: seq<Config>, id: nat)
    requires KeepsFlags(env) && Words(env) && Loaded(c) && !Steps(env, c, n).Faulted?
    requires |ds| == n + 1 && ds[0] == c && ds[n] == Steps(env, c, n)
    requires forall k | 0 <= k < n :: ds[k + 1] == Step(env, ds[k])
    ensures forall k | 0 <= k <= n :: Loaded(ds[k])
    ensures forall k | 0 <= k < n :: id in FlagsOf(ds[k + 1]) <==>
      Does(env, ds[k], 0x04, id) || (id in FlagsOf(ds[k]) && !Does(env, ds[k], 0x84, id))
  {
    TrailUnfaulted(env, ds, n);
    forall k: nat | k <= n ensures Loaded(ds[k]) { TrailLoaded(env, ds, id, k); }
    forall k | 0 <= k < n ensures id in FlagsOf(ds[k + 1]) <==>
      Does(env, ds[k], 0x04, id) || (id in FlagsOf(ds[k]) && !Does(env, ds[k], 0x84, id))
    {
      assert ds[k + 1] == Step(env, ds[k]);
      StepFlags(env, ds[k], id);
    }
  }

  lemma {:induction false} TrailUnfaulted(env: Env, ds: seq<Config>, n: nat)
    requires |ds| == n + 1 && !ds[n].Faulted? && forall k | 0 <= k < n :: ds[k + 1] == Step(env, ds[k])
    ensures forall k | 0 <= k <= n :: !ds[k].Faulted?
    decreases n
  {
    if n > 0 {
      assert ds[n - 1 + 1] == Step(env, ds[n - 1]);
      TrailUnfaulted(env, ds[..n], n - 1);
      forall k | 0 <= k <= n ensures !ds[k].Faulted? { if k < n { assert ds[..n][k] == ds[k]; } }
    }
  }

  /** The decided sequences say the same of the run. */
  lemma DecidedAt(env: Env, c: Config, n: nat, id: nat, flag: seq<bool>, on: seq<bool>, off: seq<bool>)
    requires |flag| == n + 1 && |on| == n && |off| == n && Decided(flag, on, off, n)
    requires forall k: nat | k < n :: on[k] == DoesAt(env, c, k, 0x04, id) && off[k] == DoesAt(env, c, k, 0x84, id)
    ensures flag[n] <==>
      || (exists k: nat | k < n :: DoesAt(env, c, k, 0x04, id) && forall j: nat | k < j < n :: !DoesAt(env, c, j, 0x84, id))
      || (flag[0] && forall j: nat | j < n :: !DoesAt(env, c, j, 0x84, id))
  {
    if k :| 0 <= k < n && on[k] && forall j | k < j < n :: !off[j] {
      assert DoesAt(env, c, k, 0x04, id);
      forall j: nat | k < j < n ensures !DoesAt(env, c, j, 0x84, id) { assert !off[j]; }
    }
    if k: nat :| k < n && DoesAt(env, c, k, 0x04, id) && forall j: nat | k < j < n :: !DoesAt(env, c, j, 0x84, id) {
      assert on[k];
      forall j | k < j < n ensures !off[j] { assert off[j] == DoesAt(env, c, j, 0x84, id); }
    }
    if forall j | 0 <= j < n :: !off[j] {
      forall j: nat | j < n ensures !DoesAt(env, c, j, 0x84, id) { assert !off[j]; }
    }
    if forall j: nat | j < n :: !DoesAt(env, c, j, 0x84, id) {
      forall j | 0 <= j < n ensures !off[j] { assert off[j] == DoesAt(env, c, j, 0x84, id); }
    }
  }

  // ---------------------------------------------------------------------- items over a run

  function Held(core: Core, id: nat): nat { if id in core.inventory then core.inventory[id] else 0 }

  /** Giving adds one item, and taking removes one that is held; no other call touches the inventory. */
  ghost predicate Stocks(env: Env, id: nat) {
    && KeepsStock(env)
    && (forall arg: nat, w: World ::
         Held(env.call(GiveItem, arg, w).0.core, id) == Held(w.core, id) + if arg == id then 1 else 0)
    && (forall arg: nat, w: World ::
         Held(env.call(RemoveItem, arg, w).0.core, id) == Held(w.core, id) - if arg == id && 0 < Held(w.core, id) then 1 else 0)
  }

  /** Outside a scan, the chain on top stands at a record that gives (0x11) or takes (0x91) the item. */
  predicate Deals(env: Env, c: Config, top: nat, id: nat) {
    && c.Running? && c.stack != [] && Listed(c.w)
    && var f := c.stack[|c.stack| - 1];
       && f.flags / 2 % 2 == 0 && f.cur < |env.mem|
       && env.mem[f.cur].top == top && env.mem[f.cur].operand != 0 && env.mem[f.cur].operand % 0x10000 == id
  }

  function HeldBy(c: Config, id: nat): nat
    requires !c.Faulted?
  {
    Held(c.w.core, id)
  }

  lemma ItemDealt(env: Env, w: World, f: Frame, id: nat)
    requires Stocks(env, id) && Listed(w) && f.cur < |env.mem| && !f.Scan()
    requires env.mem[f.cur].operand != 0 && env.mem[f.cur].Op() == 0x11
    ensures var act, r := Dispatch(env, w, f), env.mem[f.cur]; var mine := r.operand % 0x10000 == id;
      && act.Go?
      && (r.top < 0x80 ==> Held(act.w.core, id) == Held(w.core, id) + if mine then 1 else 0)
      && (r.top >= 0x80 ==> Held(act.w.core, id) == Held(w.core, id) - if mine && 0 < Held(w.core, id) then 1 else 0)
  {
  }

  /** The record on top gives or takes something. */
  predicate Trades(env: Env, c: Config) {
    && c.Running? && c.stack != [] && Listed(c.w)
    && var f := c.stack[|c.stack| - 1];
       !f.Scan() && f.cur < |env.mem| && env.mem[f.cur].operand != 0 && env.mem[f.cur].Op() == 0x11
  }

  lemma NotTraded(env: Env, c: Config)
    requires KeepsStock(env) && !Trades(env, c) && !c.Faulted? && !Step(env, c).Faulted?
    ensures Step(env, c).w.core.inventory == c.w.core.inventory
  {
    if c.Running? && c.stack != [] && Listed(c.w) {
      var f := c.stack[|c.stack| - 1];
      StepKeeps(env, c);
      if f.cur < |env.mem| {
        var r := env.mem[f.cur];
        if f.Scan() || r.operand == 0 || r.Op() != 0x04 { RecordKeeps(env, c.w, f); } else { FlagKeepsStock(env, c.w, f); }
      }
    }
  }

  lemma FlagKeepsStock(env: Env, w: World, f: Frame)
    requires Listed(w) && f.cur < |env.mem| && env.mem[f.cur].Op() == 0x04
    ensures var act := Dispatch(env, w, f); !act.Fault? && act.w.core.inventory == w.core.inventory
  {
  }

  lemma TradedStep(env: Env, c: Config, id: nat)
    requires Stocks(env, id) && Words(env) && Trades(env, c) && !Step(env, c).Faulted?
    ensures HeldBy(Step(env, c), id) ==
      HeldBy(c, id) + (if Deals(env, c, 0x11, id) then 1 else 0) - if Deals(env, c, 0x91, id) && 0 < HeldBy(c, id) then 1 else 0
  {
    var f := c.stack[|c.stack| - 1];
    var r := env.mem[f.cur];
    assert r in env.mem && (r.top == 0x11 || r.top == 0x91);
    StepKeeps(env, c);
    ItemDealt(env, c.w, f, id);
    DealsHere(env, c, r, id);
  }

  lemma DealsHere(env: Env, c: Config, r: Rec, id: nat)
    requires c.Running? && c.stack != [] && Listed(c.w) && c.stack[|c.stack| - 1].cur < |env.mem|
    requires r == env.mem[c.stack[|c.stack| - 1].cur] && !c.stack[|c.stack| - 1].Scan()
    ensures forall top: nat :: Deals(env, c, top, id) <==> r.top == top && r.operand != 0 && r.operand % 0x10000 == id
  {
  }

  lemma StepStock(env: Env, c: Config, id: nat)
    requires Stocks(env, id) && Words(env) && !c.Faulted? && !Step(env, c).Faulted?
    ensures HeldBy(Step(env, c), id) ==
      HeldBy(c, id) + (if Deals(env, c, 0x11, id) then 1 else 0) - if Deals(env, c, 0x91, id) && 0 < HeldBy(c, id) then 1 else 0
  {
    if Trades(env, c) { TradedStep(env, c, id); } else { NotTraded(env, c); NoDeal(env, c, id); }
  }

  lemma NoDeal(env: Env, c: Config, id: nat)
    requires !Trades(env, c)
    ensures !Deals(env, c, 0x11, id) && !Deals(env, c, 0x91, id)
  {
  }

  /** How many of the next `n` steps give the item. */
  function Gives(env: Env, c: Config, n: nat, id: nat): nat
    decreases n
  {
    if n == 0 then 0 else (if Deals(env, c, 0x11, id) then 1 else 0) + Gives(env, Step(env, c), n - 1, id)
  }

  /** How many of them take one that is held. */
  function Takes(env: Env, c: Config, n: nat, id: nat): nat
    decreases n
  {
    if n == 0 || c.Faulted? then 0
    else (if Deals(env, c, 0x91, id) && 0 < HeldBy(c, id) then 1 else 0) + Takes(env, Step(env, c), n - 1, id)
  }

  lemma {:induction false} FaultStays(env: Env, c: Config, n: nat)
    requires c.Faulted?
    ensures Steps(env, c, n).Faulted?
    decreases n
  {
    if n > 0 { FaultStays(env, Step(env, c), n - 1); }
  }

  /** Conservation: after any run there are as many of an item as before, plus one for every 0x11 that was executed
      for it, minus one for every 0x91 that found one. */
  lemma {:induction false} StockAfterRun(env: Env, c: Config, n: nat, id: nat)
    requires Stocks(env, id) && Words(env) && !c.Faulted? && !Steps(env, c, n).Faulted?
    ensures HeldBy(Steps(env, c, n), id) == HeldBy(c, id) + Gives(env, c, n, id) - Takes(env, c, n, id)
    decreases n
  {
    if n > 0 {
      if Step(env, c).Faulted? { FaultStays(env, Step(env, c), n - 1); }
      StepStock(env, c, id);
      StockAfterRun(env, Step(env, c), n - 1, id);
    }
  }
}
