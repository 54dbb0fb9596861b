/** Menus in interpreter runs: the menu with a single choice, and the line counter over a run
    (roth_c/src/engine/dbase100.c). */
module MenuRuns {
  import opened Options
  import opened DbaseRecords
  import Menu = ChoiceMenu
  import opened Interpreter

  // ---------------------------------------------------------------------- the only choice

  /** The menu `m` is the next thing in the chain, in front of `rest`. */
  predicate MenuAt(env: Env, f: Frame, m: Menu.Menu, rest: seq<Rec>) {
    && Menu.WellFormed(m) && 0 < f.count && f.cur + f.count <= |env.mem|
    && env.mem[f.cur..f.cur + f.count] == Menu.Flat(m) + rest
  }

  /** The look-ahead enters the builder at the first record: it is a line, or the only If of one whose bit 31 is
      clear. */
  predicate StartsMenu(m: Menu.Menu)
    requires Menu.WellFormed(m)
  {
    var l := m.lines[0];
    if l.ifs == [] then l.text.operand != 0 else |l.ifs| == 1 && l.ifs[0].operand != 0 && l.text.top == 8
  }

  function ShownLines(env: Env, w: World, m: Menu.Menu): seq<nat> {
    Menu.Offered(Menu.Env(w.core.bitmap, env.read), m.lines, 0x800, 0)
  }

  /** Line `i` is shown if and only if it has text for the room the lines shown before it leave of 0x800 characters,
      and no If in front, or a last one that is an If on a set flag or an If-NOT on a clear one. */
  lemma ShownLine(env: Env, w: World, m: Menu.Menu, i: nat) returns (spaces: seq<int>)
    requires i < |m.lines|
    ensures |spaces| == |m.lines| + 1 && spaces[0] == 0x800
    ensures forall k: nat | k < |m.lines| ::
      spaces[k + 1] == spaces[k] - if k in ShownLines(env, w, m) then env.read(m.lines[k].text.operand, spaces[k]) else 0
    ensures var l := m.lines[i];
      i in ShownLines(env, w, m) <==>
        && env.read(l.text.operand, spaces[i]) != 0
        && (l.ifs == [] ||
            var last := l.ifs[|l.ifs| - 1];
            var isSet := w.core.bitmap.NoBitmap? || last.operand % 0x10000 in w.core.bitmap.flags;
            (last.top < 0x80 && isSet) || (last.top >= 0x80 && !isSet))
  {
    var menuEnv := Menu.Env(w.core.bitmap, env.read);
    spaces := Menu.LinesPlaced(menuEnv, m.lines, 0x800, 0);
    Menu.HiddenBy(menuEnv, m.lines[i]);
    var offered := ShownLines(env, w, m);
    assert Menu.Placed(menuEnv, m.lines, offered, 0, spaces, i);
    forall k: nat | k < |m.lines|
      ensures spaces[k + 1] == spaces[k] - if k in offered then env.read(m.lines[k].text.operand, spaces[k]) else 0
    {
      assert Menu.Placed(menuEnv, m.lines, offered, 0, spaces, k);
    }
  }

  lemma MenuRecords(env: Env, f: Frame, m: Menu.Menu, rest: seq<Rec>)
    requires MenuAt(env, f, m, rest)
    ensures var after := Menu.FlatBranches(m.branches) + rest;
      && env.mem[f.cur..f.cur + f.count] == Menu.FlatLines(m.lines) + after
      && |Menu.FlatLines(m.lines)| + |after| == f.count && after != [] && after[0].top == 9
    ensures var l := m.lines[0]; env.mem[f.cur] == (if l.ifs == [] then l.text else l.ifs[0])
    ensures |m.lines[0].ifs| == 1 ==> 1 < f.count && env.mem[f.cur + 1] == m.lines[0].text
  {
    var all, after := env.mem[f.cur..f.cur + f.count], Menu.FlatBranches(m.branches) + rest;
    assert all == Menu.FlatLines(m.lines) + after;
    Menu.FlatLine(m.lines, after);
    assert |all| == f.count && all[0] == env.mem[f.cur];
    Menu.FlatBranch(m.branches, rest);
    assert m.branches.Branch? && Menu.WellFormedBranches(m.branches);
    assert after[0] == m.branches.head;
    if |m.lines[0].ifs| == 1 { assert all[1] == env.mem[f.cur + 1]; }
  }

  lemma EntersBuilder(env: Env, w: World, f: Frame, m: Menu.Menu, rest: seq<Rec>)
    requires Listed(w) && MenuAt(env, f, m, rest) && StartsMenu(m)
    ensures f.cur < |env.mem| && Dispatch(env, w, f) == ChoiceOp(env, w, f)
  {
    MenuRecords(env, f, m, rest);
    var l := m.lines[0];
    assert l in m.lines;
    if l.ifs != [] { assert l.ifs[0] in l.ifs; }
  }

  /** A menu that offers a single line acts on it at once: the interpreter enters exactly the body of that
      line's branch, with the records left behind it, if and only if its line counter stands at the number of
      marked lines nested before that branch -- at zero, when there are none. No choice stays pending. */
  lemma OnlyChoiceRunsItsBranch(env: Env, w: World, f: Frame, m: Menu.Menu, rest: seq<Rec>)
    requires Listed(w) && !f.Scan() && !w.busy && MenuAt(env, f, m, rest) && StartsMenu(m)
    requires |ShownLines(env, w, m)| == 1
    ensures var act, line := Dispatch(env, w, f), ShownLines(env, w, m)[0];
      && line < Menu.Size(m.branches)
      && (act.Enter? || act.Return?) && act.w.core.choice.cursor == None
      && !act.w.busy && !act.w.context && !act.w.queueActive
      && var start := |Menu.FlatLines(m.lines)| + Menu.BodyStart(m.branches, line);
         (act.Enter? && act.child == Frame(f.cur + start, f.count - start, f.flags, 0, 0, Finish(1)))
         <==> f.sub == Menu.MarkedBefore(m.branches, line)
  {
    EntersBuilder(env, w, f, m, rest);
    OnlyChoiceBuilt(env, w, f, m, rest);
  }

  lemma OnlyChoiceBuilt(env: Env, w: World, f: Frame, m: Menu.Menu, rest: seq<Rec>)
    requires Listed(w) && !f.Scan() && !w.busy && MenuAt(env, f, m, rest) && |ShownLines(env, w, m)| == 1
    ensures f.cur < |env.mem| && ShownLines(env, w, m)[0] < Menu.Size(m.branches)
    ensures var act, line := ChoiceOp(env, w, f), ShownLines(env, w, m)[0];
      && (act.Enter? || act.Return?) && act.w.core.choice.cursor == None
      && !act.w.busy && !act.w.context && !act.w.queueActive
      && var start := |Menu.FlatLines(m.lines)| + Menu.BodyStart(m.branches, line);
         (act.Enter? && act.child == Frame(f.cur + start, f.count - start, f.flags, 0, 0, Finish(1)))
         <==> f.sub == Menu.MarkedBefore(m.branches, line)
  {
    var line, after := ShownLines(env, w, m)[0], Menu.FlatBranches(m.branches) + rest;
    MenuRecords(env, f, m, rest);
    MenuBuilt(env, w, f, m, rest);
    Menu.FindsBranch(m.branches, rest, line, line + f.sub);
    OnlyTaken(env, w, f, line + f.sub, after);
  }

  lemma OnlyTaken(env: Env, w: World, f: Frame, index: nat, after: seq<Rec>)
    requires Listed(w) && !f.Scan() && !w.busy && 0 < f.count && f.cur + f.count <= |env.mem|
    requires after != [] && Builds(env, w, f) == Menu.Built([index], after)
    ensures var act, found := ChoiceOp(env, w, f), Menu.FindBranch(after, index);
      && (act.Enter? || act.Return?) && act.w.core.choice.cursor == None && act.Enter? == found.Some?
      && !act.w.busy && !act.w.context && !act.w.queueActive
      && var passed := f.count - |after|;
         (found.Some? ==>
           act.child == Frame(f.cur + passed + found.value, f.count - passed - found.value, f.flags, 0, 0, Finish(1)))
  {
  }

  lemma MenuBuilt(env: Env, w: World, f: Frame, m: Menu.Menu, rest: seq<Rec>)
    requires MenuAt(env, f, m, rest) && |ShownLines(env, w, m)| == 1
    ensures ShownLines(env, w, m)[0] < Menu.Size(m.branches)
    ensures Menu.Build(Menu.Env(w.core.bitmap, env.read), env.mem[f.cur..f.cur + f.count], 0x800, f.sub, false)
         == Menu.Built([ShownLines(env, w, m)[0] + f.sub], Menu.FlatBranches(m.branches) + rest)
  {
    var menuEnv, after := Menu.Env(w.core.bitmap, env.read), Menu.FlatBranches(m.branches) + rest;
    MenuRecords(env, f, m, rest);
    Menu.BuildLines(menuEnv, m.lines, after, 0x800, f.sub);
    Menu.OfferedShift(menuEnv, m.lines, 0x800, 0, f.sub);
    Menu.OfferedInOrder(menuEnv, m.lines, 0x800, 0);
  }

  /** Showing the window leaves the published choice alone. */
  ghost predicate WindowKeepsChoice(env: Env) {
    forall arg: nat, w: World :: env.call(Window, arg, w).0.core.choice == w.core.choice
  }

  /** The choice points behind the menu's lines, and its entry `j` finds the branch of line `shown[j]` if and only if
      the line counter stands at the marked lines nested before that branch. */
  predicate EntryServes(mem: seq<Rec>, f: Frame, m: Menu.Menu, shown: seq<nat>, c: Choice, j: nat)
    requires Menu.WellFormed(m)
  {
    && c.cursor.Some? && c.mode == f.flags && c.count == |shown| && 0 <= c.remaining
    && c.cursor.value + c.remaining == f.cur + f.count <= |mem|
    && j < |shown| && j < |c.indices| && shown[j] < Menu.Size(m.branches)
    && (Menu.FindBranch(mem[c.cursor.value..c.cursor.value + c.remaining], c.indices[j])
          == Some(Menu.BodyStart(m.branches, shown[j]))
        <==> f.sub == Menu.MarkedBefore(m.branches, shown[j]))
  }

  /** A menu that offers several lines publishes them all, for the branch finder to start from once a choice is made;
      every entry serves its line exactly under the condition above. The chain returns when the window opens, and
      goes on when it does not. */
  lemma PublishedChoicesFindTheirBranches(env: Env, w: World, f: Frame, m: Menu.Menu, rest: seq<Rec>, j: nat)
    requires Listed(w) && !f.Scan() && !w.busy && MenuAt(env, f, m, rest) && StartsMenu(m) && WindowKeepsChoice(env)
    requires j < |ShownLines(env, w, m)| && 1 < |ShownLines(env, w, m)| <= 16
    ensures var act := Dispatch(env, w, f);
      && ((act.Go? && act.f.acc == f.acc + 1) || (act.Return? && act.ret == 1 && act.w.busy))
      && EntryServes(env.mem, f, m, ShownLines(env, w, m), act.w.core.choice, j)
  {
    var table, after := Menu.Offered(Menu.Env(w.core.bitmap, env.read), m.lines, 0x800, f.sub),
                        Menu.FlatBranches(m.branches) + rest;
    EntersBuilder(env, w, f, m, rest);
    MenuRecords(env, f, m, rest);
    OfferedBuilt(env, w, f, m, rest, j);
    SeveralPublished(env, w, f, table, after);
    EntryFinds(env, w, f, m, rest, j, ChoiceOp(env, w, f).w.core.choice);
  }

  lemma OfferedBuilt(env: Env, w: World, f: Frame, m: Menu.Menu, rest: seq<Rec>, j: nat)
    requires MenuAt(env, f, m, rest) && j < |ShownLines(env, w, m)|
    ensures var table := Menu.Offered(Menu.Env(w.core.bitmap, env.read), m.lines, 0x800, f.sub);
      && Builds(env, w, f) == Menu.Built(table, Menu.FlatBranches(m.branches) + rest)
      && |table| == |ShownLines(env, w, m)| && table[j] == ShownLines(env, w, m)[j] + f.sub
    ensures ShownLines(env, w, m)[j] < Menu.Size(m.branches)
  {
    var menuEnv, after := Menu.Env(w.core.bitmap, env.read), Menu.FlatBranches(m.branches) + rest;
    MenuRecords(env, f, m, rest);
    Menu.BuildLines(menuEnv, m.lines, after, 0x800, f.sub);
    Menu.OfferedShift(menuEnv, m.lines, 0x800, 0, f.sub);
    Menu.OfferedInOrder(menuEnv, m.lines, 0x800, 0);
  }

  lemma EntryFinds(env: Env, w: World, f: Frame, m: Menu.Menu, rest: seq<Rec>, j: nat, c: Choice)
    requires MenuAt(env, f, m, rest) && j < |ShownLines(env, w, m)|
    requires var table, after := Menu.Offered(Menu.Env(w.core.bitmap, env.read), m.lines, 0x800, f.sub),
                                 Menu.FlatBranches(m.branches) + rest;
      |after| <= f.count && |table| <= |w.core.choice.indices|
      && c == Choice(Some(f.cur + (f.count - |after|)), |after|, |table|, f.flags,
                     table + w.core.choice.indices[|table|..])
    ensures EntryServes(env.mem, f, m, ShownLines(env, w, m), c, j)
  {
    MenuRecords(env, f, m, rest);
    OfferedBuilt(env, w, f, m, rest, j);
    BehindLines(env.mem, f.cur, f.count, Menu.FlatLines(m.lines), Menu.FlatBranches(m.branches) + rest);
    EntryOfLine(env.mem, f, m, rest, ShownLines(env, w, m), c, j);
  }

  lemma EntryOfLine(mem: seq<Rec>, f: Frame, m: Menu.Menu, rest: seq<Rec>, shown: seq<nat>, c: Choice, j: nat)
    requires Menu.WellFormed(m) && f.cur + f.count <= |mem| && 0 <= c.remaining && c.cursor.Some?
    requires c.cursor.value + c.remaining == f.cur + f.count && c.mode == f.flags && c.count == |shown|
    requires mem[c.cursor.value..c.cursor.value + c.remaining] == Menu.FlatBranches(m.branches) + rest
    requires j < |shown| && shown[j] < Menu.Size(m.branches) && j < |c.indices| && c.indices[j] == shown[j] + f.sub
    ensures EntryServes(mem, f, m, shown, c, j)
  {
    Menu.FindsBranch(m.branches, rest, shown[j], shown[j] + f.sub);
  }

  lemma BehindLines(mem: seq<Rec>, from: nat, count: nat, lines: seq<Rec>, after: seq<Rec>)
    requires from + count <= |mem| && mem[from..from + count] == lines + after
    ensures |lines| <= count && mem[from + |lines|..from + count] == after
  {
    var all := mem[from..from + count];
    assert |all| == count && all[|lines|..] == after && all[|lines|..] == mem[from + |lines|..from + count];
  }

  lemma SeveralPublished(env: Env, w: World, f: Frame, table: seq<nat>, after: seq<Rec>)
    requires Listed(w) && !f.Scan() && !w.busy && 0 < f.count && f.cur + f.count <= |env.mem| && WindowKeepsChoice(env)
    requires after != [] && 1 < |table| <= 16 && Builds(env, w, f) == Menu.Built(table, after)
    ensures var act := ChoiceOp(env, w, f);
      && ((act.Go? && act.f.acc == f.acc + 1) || (act.Return? && act.ret == 1 && act.w.busy))
      && act.w.core.choice == Choice(Some(f.cur + (f.count - |after|)), |after|, |table|, f.flags,
                                     table + w.core.choice.indices[|table|..])
  {
  }

  // ---------------------------------------------------------------- the line counter of a run

  /** The opcode-8 records of a stretch. */
  function Lines(recs: seq<Rec>): nat { if recs == [] then 0 else (if recs[0].Op() == 8 then 1 else 0) + Lines(recs[1..]) }

  lemma {:induction false} LineCountIsLines(mem: seq<Rec>, from: nat, end: nat, sub: nat)
    requires from <= end <= |mem|
    ensures LineCount(mem, from, end, sub) == sub + Lines(mem[from..end])
    decreases end - from
  {
    if from < end {
      assert mem[from..end][1..] == mem[from + 1..end];
      LineCountIsLines(mem, from + 1, end, if mem[from].Op() == 8 then sub + 1 else sub);
    }
  }

  lemma {:induction false} LinesOfMenu(lines: seq<Menu.Line>)
    requires Menu.WellFormedLines(lines)
    ensures Lines(Menu.FlatLines(lines)) == |lines|
  {
    if lines != [] {
      var l, more := lines[0], Menu.FlatLines(lines[1..]);
      assert l in lines && forall k <- lines[1..] :: k in lines;
      LinesOfMenu(lines[1..]);
      assert l.ifs + [l.text] + more == l.ifs + ([l.text] + more) && ([l.text] + more)[1..] == more;
      LinesBehindIfs(l.ifs, [l.text] + more);
    }
  }

  lemma {:induction false} LinesBehindIfs(ifs: seq<Rec>, more: seq<Rec>)
    requires forall r <- ifs :: r.Op() == 0x0d
    ensures Lines(ifs + more) == Lines(more)
  {
    if ifs == [] {
      assert ifs + more == more;
    } else {
      assert ifs[0] in ifs && (ifs + more)[1..] == ifs[1..] + more;
      LinesBehindIfs(ifs[1..], more);
    }
  }

  /** A menu none of whose lines is offered is passed: the chain goes on at its first branch with one more counted, and
      all lines on the counter. */
  lemma HiddenMenuPassed(env: Env, w: World, f: Frame, m: Menu.Menu, rest: seq<Rec>)
    requires Listed(w) && !f.Scan() && !w.busy && MenuAt(env, f, m, rest) && StartsMenu(m) && ShownLines(env, w, m) == []
    ensures var act, n := Dispatch(env, w, f), |Menu.FlatLines(m.lines)|;
      && act.Go? && act.w.(queueActive := w.queueActive) == w && !act.w.queueActive
      && act.f == f.(cur := f.cur + n, count := f.count - n, acc := f.acc + 1, sub := f.sub + |m.lines|)
  {
    var after := Menu.FlatBranches(m.branches) + rest;
    EntersBuilder(env, w, f, m, rest);
    MenuRecords(env, f, m, rest);
    HiddenBuilt(env, w, f, m, rest);
    HiddenTaken(env, w, f, after);
    PassedLines(env.mem, f.cur, f.count, m.lines, after, f.sub);
  }

  lemma PassedLines(mem: seq<Rec>, from: nat, count: nat, lines: seq<Menu.Line>, after: seq<Rec>, sub: nat)
    requires from + count <= |mem| && mem[from..from + count] == Menu.FlatLines(lines) + after && Menu.WellFormedLines(lines)
    ensures |Menu.FlatLines(lines)| + |after| == count
    ensures LineCount(mem, from, from + |Menu.FlatLines(lines)|, sub) == sub + |lines|
  {
    var all, flat := mem[from..from + count], Menu.FlatLines(lines);
    assert |all| == count && all[..|flat|] == flat && all[..|flat|] == mem[from..from + |flat|];
    LinesOfMenu(lines);
    LineCountIsLines(mem, from, from + |flat|, sub);
  }

  lemma HiddenBuilt(env: Env, w: World, f: Frame, m: Menu.Menu, rest: seq<Rec>)
    requires MenuAt(env, f, m, rest) && ShownLines(env, w, m) == []
    ensures Builds(env, w, f) == Menu.Built([], Menu.FlatBranches(m.branches) + rest)
  {
    var menuEnv, after := Menu.Env(w.core.bitmap, env.read), Menu.FlatBranches(m.branches) + rest;
    MenuRecords(env, f, m, rest);
    Menu.BuildLines(menuEnv, m.lines, after, 0x800, f.sub);
    Menu.OfferedShift(menuEnv, m.lines, 0x800, 0, f.sub);
  }

  lemma HiddenTaken(env: Env, w: World, f: Frame, after: seq<Rec>)
    requires Listed(w) && !f.Scan() && !w.busy && 0 < f.count && f.cur + f.count <= |env.mem|
    requires after != [] && Builds(env, w, f) == Menu.Built([], after)
    ensures var act, cur := ChoiceOp(env, w, f), f.cur + (f.count - |after|);
      && act.Go? && act.w.(queueActive := w.queueActive) == w && !act.w.queueActive
      && act.f == f.(cur := cur, count := |after|, acc := f.acc + 1, sub := LineCount(env.mem, f.cur, cur, f.sub))
  {
    assert [] + w.core.choice.indices[0..] == w.core.choice.indices;
  }

  /** A chain that ends inside a menu answers 1, and one that has no records left when it gets to a line only counts. */
  lemma CutMenu(env: Env, w: World, f: Frame)
    requires Listed(w) && !f.Scan() && !w.busy && f.cur < |env.mem| && env.mem[f.cur].operand != 0
    requires env.mem[f.cur].top % 0x80 == 8
    requires 0 <= f.count && f.cur + f.count <= |env.mem|
    requires forall k | f.cur <= k < f.cur + f.count :: env.mem[k].top % 0x80 in {8, 0x0d}
    ensures f.count == 0 ==> Dispatch(env, w, f) == Go(w.(queueActive := false), f.(acc := f.acc + 1))
    ensures 0 < f.count && |Builds(env, w, f).table| <= 16 ==> Dispatch(env, w, f).Return? && Dispatch(env, w, f).ret == 1
  {
    assert Dispatch(env, w, f) == ChoiceOp(env, w, f);
    if 0 < f.count { NothingBehind(Menu.Env(w.core.bitmap, env.read), env.mem[f.cur..f.cur + f.count], 0x800, f.sub, false); }
  }

  lemma {:induction false} NothingBehind(env: Menu.Env, recs: seq<Rec>, space: int, sub: nat, failed: bool)
    requires forall r <- recs :: r.Op() == 8 || r.Op() == 0x0d
    ensures Menu.Build(env, recs, space, sub, failed).rest == []
    decreases |recs|
  {
    if recs != [] {
      assert recs[0] in recs && forall r <- recs[1..] :: r in recs;
      if recs[0].Op() == 8 {
        var r := env.read(recs[0].operand, space);
        NothingBehind(env, recs[1..], if failed || r == 0 then space else space - r, sub + 1, false);
      } else {
        NothingBehind(env, recs[1..], space, sub, !env.Holds(recs[0]));
      }
    }
  }

  /** The frame a record leaves for the chain that it belongs to. */
  function Remaining(act: Act): Option<Frame> {
    match act
    case Go(_, f) => Some(f)
    case Enter(_, f, _) => Some(f)
    case _ => None
  }

  /** The record is a jump that is taken. */
  predicate JumpsAt(env: Env, f: Frame) {
    f.cur < |env.mem| && var r := env.mem[f.cur];
    r.operand != 0 && r.Op() == 0x1d && r.operand < |env.records| && env.records[r.operand].Some?
  }

  /** The record is a line, or an If in front of one: the builder reads on from here. */
  predicate BuildsAt(env: Env, f: Frame) {
    f.cur < |env.mem| && var r := env.mem[f.cur];
    r.operand != 0 && (r.Op() == 8 || (r.Op() == 0x0d && f.cur + 1 < |env.mem| && env.mem[f.cur + 1].top == 8))
  }

  /** The lines that one record of a chain passes. */
  function Passed(env: Env, f: Frame, f2: Frame): nat {
    if BuildsAt(env, f) && f.cur <= f2.cur <= |env.mem| then Lines(env.mem[f.cur..f2.cur]) else 0
  }

  /** A jump starts the line counter again, a menu adds the lines it passed, any other record leaves it. */
  lemma RecordCounts(env: Env, w: World, f: Frame)
    requires Listed(w)
    ensures var l := Remaining(Dispatch(env, w, f));
      l.Some? ==> l.value.sub == if JumpsAt(env, f) then 0 else f.sub + Passed(env, f, l.value)
  {
    if BuildsAt(env, f) {
      assert Dispatch(env, w, f) == ChoiceOp(env, w, f);
      ChoiceCounts(env, w, f);
    } else {
      OthersCount(env, w, f);
    }
  }

  lemma OthersCount(env: Env, w: World, f: Frame)
    requires Listed(w) && !BuildsAt(env, f)
    ensures var l := Remaining(Dispatch(env, w, f)); l.Some? ==> l.value.sub == if JumpsAt(env, f) then 0 else f.sub
  {
  }

  lemma ChoiceCounts(env: Env, w: World, f: Frame)
    requires Listed(w) && f.cur < |env.mem|
    ensures var l := Remaining(ChoiceOp(env, w, f));
      l.Some? ==> f.cur <= l.value.cur <= |env.mem| && l.value.sub == f.sub + Lines(env.mem[f.cur..l.value.cur])
  {
    var l := Remaining(ChoiceOp(env, w, f));
    if l.Some? && f.cur <= l.value.cur <= |env.mem| { LineCountIsLines(env.mem, f.cur, l.value.cur, f.sub); }
  }

  /** Lines passed by the outermost chain since it started or last jumped, `s` of them before the `n` steps. */
  function LinesSince(env: Env, c: Config, n: nat, s: nat): nat
    decreases n
  {
    if n == 0 || !c.Running? || c.stack == [] then s
    else LinesSince(env, Step(env, c), n - 1, if |c.stack| == 1 then Tally(env, c.w, c.stack[0], s) else s)
  }

  function Tally(env: Env, w: World, f: Frame, s: nat): nat {
    if !Listed(w) || Remaining(Dispatch(env, w, f)).None? then s
    else if JumpsAt(env, f) then 0
    else s + Passed(env, f, Remaining(Dispatch(env, w, f)).value)
  }

  lemma {:induction false} BottomKept(env: Env, w: World, callers: seq<Frame>, f: Frame)
    ensures match Continue(env, w, callers, f)
      case Running(_, stack) => stack != [] && stack[0].sub == (if callers == [] then f.sub else callers[0].sub)
      case _ => true
    decreases |callers| + 1
  {
    if f.count <= 0 && callers != [] {
      var w1, caller := Finalize(env, w), callers[|callers| - 1];
      match f.after
      case Finish(choices) => BottomKeptByPop(env, FinishEval(env, w1), callers, choices);
      case _ => BottomKept(env, w1, callers[..|callers| - 1], Count(caller));
    }
  }

  lemma {:induction false} BottomKeptByPop(env: Env, w: World, stack: seq<Frame>, ret: int)
    requires stack != []
    ensures match PopFrame(env, w, stack, ret)
      case Running(_, stack') => stack' != [] && stack'[0].sub == stack[0].sub
      case _ => true
    decreases |stack|
  {
    var done, callers := stack[|stack| - 1], stack[..|stack| - 1];
    if callers != [] {
      match done.after
      case Finish(choices) => BottomKeptByPop(env, FinishEval(env, w), callers, choices);
      case _ => BottomKept(env, w, callers[..|callers| - 1], Count(callers[|callers| - 1]));
    }
  }

  lemma StepCounts(env: Env, c: Config)
    requires c.Running? && c.stack != []
    ensures var next := Step(env, c);
      next.Running? ==>
        && next.stack != []
        && next.stack[0].sub == if |c.stack| == 1 then Tally(env, c.w, c.stack[0], c.stack[0].sub) else c.stack[0].sub
  {
    if Listed(c.w) {
      var f := c.stack[|c.stack| - 1];
      RecordCounts(env, c.w, f);
      SettleCounts(env, c.stack, Dispatch(env, c.w, f));
    }
  }

  lemma SettleCounts(env: Env, stack: seq<Frame>, act: Act)
    requires stack != []
    ensures var next := Settle(env, stack, act);
      next.Running? ==>
        && next.stack != []
        && next.stack[0].sub == if |stack| == 1 && Remaining(act).Some? then Remaining(act).value.sub else stack[0].sub
  {
    var callers := stack[..|stack| - 1];
    match act
    case Go(w, f2) => BottomKept(env, w, callers, f2);
    case Return(w, ret) => BottomKeptByPop(env, w, stack, ret);
    case Terminate(w, ret) => BottomKeptByPop(env, Finalize(env, w), stack, ret);
    case _ =>
  }

  /** Over every run the line counter is the number of lines the chain passed since it started or last jumped,
      menus that nothing was offered from included. */
  lemma {:induction false} CounterOfRun(env: Env, c: Config, n: nat)
    requires c.Running? && c.stack != [] && Steps(env, c, n).Running?
    ensures Steps(env, c, n).stack != [] && Steps(env, c, n).stack[0].sub == LinesSince(env, c, n, c.stack[0].sub)
    decreases n
  {
    if n > 0 {
      var next := Step(env, c);
      if !next.Running? { Settled(env, next, n - 1); }
      StepCounts(env, c);
      CounterOfRun(env, next, n - 1);
    }
  }

  /** A menu whose only line is hidden, then a menu with one line. */
  const TWO_MENUS := [Rec(0x0d, 5), Rec(8, 1), Rec(9, 1), Rec(8, 2), Rec(9, 2), Rec(0x10, 1)]

  /** A run that reaches its second menu with the counter at one: the menu offers its only line, whose branch is
      the record at 5, and the run ends without executing it. */
  lemma SecondMenuMisses(env: Env, w: World) returns (n: nat, w2: World, w3: World)
    requires env.mem == TWO_MENUS && Listed(w) && !w.busy && !w.core.bitmap.Test(5) && env.read(2, 0x800) != 0
    ensures Steps(env, Start(w, 0, 6, 0), n) == Running(w2, [Frame(3, 3, 0, 1, 1, Top)])
    ensures Steps(env, Start(w, 0, 6, 0), n + 1) == Finished(w3, 1)
    ensures var m := SecondOfTwo();
      MenuAt(env, Frame(3, 3, 0, 1, 1, Top), m, []) && ShownLines(env, w2, m) == [0] && Menu.MarkedBefore(m.branches, 0) == 0
  {
    var f1, f2 := Frame(2, 4, 0, 1, 1, Top), Frame(3, 3, 0, 1, 1, Top);
    w2 := HiddenMenu(env, w);
    BranchHeadIsPassed(env, w2);
    w3 := SecondMenu(env, w2);
    n := ThreeSteps(env, Start(w, 0, 6, 0), Running(w2, [f1]), Running(w2, [f2]), Finished(w3, 1));
    SecondMenuShape(env, w2);
  }

  lemma ThreeSteps(env: Env, c0: Config, c1: Config, c2: Config, c3: Config) returns (n: nat)
    requires Step(env, c0) == c1 && Step(env, c1) == c2 && Step(env, c2) == c3
    ensures Steps(env, c0, n) == c2 && Steps(env, c0, n + 1) == c3
  {
    OneStep(env, c2, c3, 0);
    OneStep(env, c1, c2, 1);
    OneStep(env, c1, c2, 0);
    OneStep(env, c0, c1, 2);
    OneStep(env, c0, c1, 1);
    n := 2;
  }

  lemma OneStep(env: Env, c: Config, c': Config, n: nat)
    requires Step(env, c) == c'
    ensures Steps(env, c, n + 1) == Steps(env, c', n)
  {
  }

  lemma BranchHeadIsPassed(env: Env, w: World)
    requires env.mem == TWO_MENUS && Listed(w)
    ensures Step(env, Running(w, [Frame(2, 4, 0, 1, 1, Top)])) == Running(w, [Frame(3, 3, 0, 1, 1, Top)])
  {
    assert Dispatch(env, w, Frame(2, 4, 0, 1, 1, Top)) == Go(w, Frame(3, 3, 0, 1, 1, Top));
    assert [Frame(2, 4, 0, 1, 1, Top)][..0] == [];
  }

  function SecondOfTwo(): Menu.Menu {
    Menu.Menu([Menu.Line([], Rec(8, 2))], Menu.Branch(Rec(9, 2), Menu.Step(Rec(0x10, 1), Menu.Done), Menu.NoMore))
  }

  lemma SecondMenuShape(env: Env, w: World)
    requires env.mem == TWO_MENUS && env.read(2, 0x800) != 0
    ensures var m := SecondOfTwo();
      MenuAt(env, Frame(3, 3, 0, 1, 1, Top), m, []) && ShownLines(env, w, m) == [0] && Menu.MarkedBefore(m.branches, 0) == 0
  {
    var m, line := SecondOfTwo(), Menu.Line([], Rec(8, 2));
    assert [line][1..] == [] && Menu.FlatLines([line]) == [Rec(8, 2)];
    var space: int := 0x800 - env.read(2, 0x800) as int;
    assert Menu.Offered(Menu.Env(w.core.bitmap, env.read), [], space, 1) == [];
    assert Menu.WellFormedBody(m.branches.body) && Menu.WellFormedBranches(m.branches) && Menu.WellFormed(m);
    assert Menu.FlatBody(m.branches.body) == [Rec(0x10, 1)];
    assert Menu.FlatBranches(m.branches) == [Rec(9, 2)] + [Rec(0x10, 1)] + [];
    assert env.mem[3..6] == [Rec(8, 2)] + ([Rec(9, 2)] + [Rec(0x10, 1)] + []) + [];
  }

  lemma HiddenMenu(env: Env, w: World) returns (w2: World)
    requires env.mem == TWO_MENUS && Listed(w) && !w.busy && !w.core.bitmap.Test(5)
    ensures Step(env, Start(w, 0, 6, 0)) == Running(w2, [Frame(2, 4, 0, 1, 1, Top)])
    ensures Listed(w2) && w2.core.bitmap == w.core.bitmap && !w2.busy
  {
    var f := Frame(0, 6, 0, 0, 0, Top);
    var menuEnv, recs := Menu.Env(w.core.bitmap, env.read), env.mem[0..6];
    assert recs == TWO_MENUS && recs[1..][1..] == [Rec(9, 1), Rec(8, 2), Rec(9, 2), Rec(0x10, 1)];
    assert Menu.Build(menuEnv, recs[1..][1..], 0x800, 1, false) == Menu.Built([], recs[1..][1..]);
    assert Menu.Build(menuEnv, recs[1..], 0x800, 0, true) == Menu.Built([], recs[1..][1..]);
    assert Menu.Build(menuEnv, recs, 0x800, 0, false) == Menu.Built([], recs[1..][1..]);
    assert LineCount(env.mem, 1, 2, 0) == LineCount(env.mem, 2, 2, 1) == 1 == LineCount(env.mem, 0, 2, 0);
    var act := Dispatch(env, w, f);
    assert act.Go? && act.f == Frame(2, 4, 0, 1, 1, Top);
    w2 := act.w;
    assert [f][..0] == [];
  }

  lemma SecondMenu(env: Env, w: World) returns (w3: World)
    requires env.mem == TWO_MENUS && Listed(w) && !w.busy && env.read(2, 0x800) != 0
    ensures Step(env, Running(w, [Frame(3, 3, 0, 1, 1, Top)])) == Finished(w3, 1)
  {
    var f := Frame(3, 3, 0, 1, 1, Top);
    var menuEnv, recs := Menu.Env(w.core.bitmap, env.read), env.mem[3..6];
    var r: int := env.read(2, 0x800);
    assert recs == [Rec(8, 2), Rec(9, 2), Rec(0x10, 1)] && recs[1..] == [Rec(9, 2), Rec(0x10, 1)];
    assert recs[1..][1..] == [Rec(0x10, 1)];
    assert Menu.Build(menuEnv, recs[1..], 0x800 - r, 2, false) == Menu.Built([], recs[1..]);
    assert Menu.Build(menuEnv, recs, 0x800, 1, false) == Menu.Built([1], recs[1..]);
    assert recs[1..][1..][1..] == [];
    assert Menu.FindBranch(recs[1..][1..], 0) == None;
    assert Menu.FindBranch(recs[1..], 1) == None;
    var act := Dispatch(env, w, f);
    assert act.Return? && act.ret == 1;
    w3 := act.w;
  }
}
