/** The choice menu: the builder that records which lines are shown, and the branch finder that
    runs the branch of the chosen line (roth_c/src/engine/dbase100.c). */
module ChoiceMenu {
  import opened Options
  import opened DbaseRecords

  // ------------------------------------------------------------- menus and their records

  /** A line of a menu, with the If records in front of it. */
  datatype Line = Line(ifs: seq<Rec>, text: Rec)

  /** Records of a branch: plain records and nested menus. */
  datatype Body = Done | Step(r: Rec, next: Body) | Sub(menu: Menu, next: Body)

  datatype Branches = NoMore | Branch(head: Rec, body: Body, next: Branches)

  datatype Menu = Menu(lines: seq<Line>, branches: Branches)

  predicate WellFormedLines(lines: seq<Line>) {
    forall l <- lines :: l.text.Op() == 8 && forall r <- l.ifs :: r.Op() == 0x0d
  }

  predicate WellFormedBody(b: Body) {
    match b
    case Done => true
    case Step(r, next) => r.top != 8 && r.top != 9 && WellFormedBody(next)
    case Sub(menu, next) => WellFormed(menu) && WellFormedBody(next)
  }

  predicate WellFormedBranches(bs: Branches) {
    bs.Branch? ==> bs.head.top == 9 && WellFormedBody(bs.body) && WellFormedBranches(bs.next)
  }

  function Size(bs: Branches): nat { if bs.NoMore? then 0 else 1 + Size(bs.next) }

  /** Opcode-8 lines first, with bit 31 set or clear, then one opcode-9 branch for each line. */
  predicate WellFormed(m: Menu) {
    m.lines != [] && |m.lines| == Size(m.branches) && WellFormedLines(m.lines) && WellFormedBranches(m.branches)
  }

  function FlatLines(lines: seq<Line>): seq<Rec> {
    if lines == [] then [] else lines[0].ifs + [lines[0].text] + FlatLines(lines[1..])
  }

  function FlatBody(b: Body): seq<Rec> {
    match b
    case Done => []
    case Step(r, next) => [r] + FlatBody(next)
    case Sub(menu, next) => Flat(menu) + FlatBody(next)
  }

  function FlatBranches(bs: Branches): seq<Rec> {
    if bs.NoMore? then [] else [bs.head] + FlatBody(bs.body) + FlatBranches(bs.next)
  }

  function Flat(m: Menu): seq<Rec> { FlatLines(m.lines) + FlatBranches(m.branches) }

  /** Where the body of branch `i` starts in the flattened branches. */
  function BodyStart(bs: Branches, i: nat): nat
    requires i < Size(bs)
  {
    if i == 0 then 1 else 1 + |FlatBody(bs.body)| + BodyStart(bs.next, i - 1)
  }

  // --------------------------------------------------------------------- branch finder

  function Shift(n: nat, r: Option<nat>): Option<nat> { if r.None? then None else Some(n + r.value) }

  /** Scan the records after the menu lines for the branch `index`: an opcode 8 counts up, an
      opcode 9 counts down, and the opcode 9 met at zero is the branch. */
  function FindBranch(recs: seq<Rec>, index: nat): Option<nat> {
    if recs == [] then None
    else if recs[0].top == 8 then Shift(1, FindBranch(recs[1..], index + 1))
    else if recs[0].top == 9 then if index == 0 then Some(1) else Shift(1, FindBranch(recs[1..], index - 1))
    else Shift(1, FindBranch(recs[1..], index))
  }

  lemma ShiftShift(a: nat, b: nat, r: Option<nat>)
    ensures Shift(a, Shift(b, r)) == Shift(a + b, r)
  {
  }

  lemma {:induction false} SkipPlain(recs: seq<Rec>, rest: seq<Rec>, index: nat)
    requires forall r <- recs :: r.top != 8 && r.top != 9
    ensures FindBranch(recs + rest, index) == Shift(|recs|, FindBranch(rest, index))
  {
    if recs == [] {
      assert recs + rest == rest;
    } else {
      assert recs[0] in recs;
      assert (recs + rest)[1..] == recs[1..] + rest;
      SkipPlain(recs[1..], rest, index);
    }
  }

  lemma Regroup<T>(a: seq<T>, b: seq<T>, c: seq<T>, d: seq<T>)
    ensures (a + b + c) + d == a + (b + (c + d))
  {
  }

  lemma FlatLine(lines: seq<Line>, rest: seq<Rec>)
    requires lines != []
    ensures FlatLines(lines) + rest == lines[0].ifs + ([lines[0].text] + (FlatLines(lines[1..]) + rest))
    ensures |FlatLines(lines)| == |lines[0].ifs| + 1 + |FlatLines(lines[1..])|
  {
    Regroup(lines[0].ifs, [lines[0].text], FlatLines(lines[1..]), rest);
  }

  lemma FlatBranch(bs: Branches, rest: seq<Rec>)
    requires bs.Branch?
    ensures FlatBranches(bs) + rest == [bs.head] + (FlatBody(bs.body) + (FlatBranches(bs.next) + rest))
    ensures |FlatBranches(bs)| == 1 + |FlatBody(bs.body)| + |FlatBranches(bs.next)|
  {
    Regroup([bs.head], FlatBody(bs.body), FlatBranches(bs.next), rest);
  }

  /** The lines whose word has bit 31 set: lines for the builder, not for the finder. */
  function Marked(lines: seq<Line>): (n: nat)
    ensures n <= |lines|
  {
    if lines == [] then 0 else (if lines[0].text.top == 8 then 0 else 1) + Marked(lines[1..])
  }

  /** The marked lines of all menus nested in a body. */
  function MarkedBody(b: Body): nat {
    match b
    case Done => 0
    case Step(_, next) => MarkedBody(next)
    case Sub(menu, next) => Marked(menu.lines) + MarkedIn(menu.branches) + MarkedBody(next)
  }

  function MarkedIn(bs: Branches): nat { if bs.NoMore? then 0 else MarkedBody(bs.body) + MarkedIn(bs.next) }

  /** The marked lines in the bodies of the branches before branch `i`. */
  function MarkedBefore(bs: Branches, i: nat): nat
    requires i < Size(bs)
  {
    if i == 0 then 0 else MarkedBody(bs.body) + MarkedBefore(bs.next, i - 1)
  }

  lemma SkipLine(l: Line, more: seq<Rec>, index: nat)
    requires l.text.Op() == 8 && forall r <- l.ifs :: r.Op() == 0x0d
    ensures FindBranch(l.ifs + ([l.text] + more), index)
         == Shift(|l.ifs| + 1, FindBranch(more, if l.text.top == 8 then index + 1 else index))
  {
    SkipPlain(l.ifs, [l.text] + more, index);
    assert ([l.text] + more)[1..] == more;
  }

  /** The lines of a nested menu raise the counter by the number of those without bit 31, whatever their Ifs
      say. */
  lemma {:induction false} SkipLines(lines: seq<Line>, rest: seq<Rec>, index: nat)
    requires WellFormedLines(lines)
    ensures FindBranch(FlatLines(lines) + rest, index)
         == Shift(|FlatLines(lines)|, FindBranch(rest, index + |lines| - Marked(lines)))
  {
    if lines == [] {
      assert FlatLines(lines) + rest == rest;
    } else {
      var l, more := lines[0], FlatLines(lines[1..]) + rest;
      assert l in lines;
      FlatLine(lines, rest);
      SkipLine(l, more, index);
      SkipLines(lines[1..], rest, if l.text.top == 8 then index + 1 else index);
      ShiftShift(|l.ifs| + 1, |FlatLines(lines[1..])|, FindBranch(rest, index + |lines| - Marked(lines)));
    }
  }

  lemma FlatSub(menu: Menu, next: Body, rest: seq<Rec>)
    ensures FlatBody(Sub(menu, next)) + rest == FlatLines(menu.lines) + (FlatBranches(menu.branches) + (FlatBody(next) + rest))
    ensures |FlatBody(Sub(menu, next))| == |FlatLines(menu.lines)| + |FlatBranches(menu.branches)| + |FlatBody(next)|
  {
    Regroup(FlatLines(menu.lines), FlatBranches(menu.branches), FlatBody(next), rest);
  }

  function Minus(a: nat, b: nat): nat { if b <= a then a - b else 0 }

  /** What a scan that starts at `index` makes of `n` records which need a counter of `need`: it gets through
      and continues with the scan `g` of the rest, or it stops inside them. */
  predicate Passes(f: Option<nat>, n: nat, need: nat, index: nat, g: Option<nat>) {
    if need <= index then f == Shift(n, g) else f.Some? && 1 <= f.value <= n
  }

  lemma PassesBoth(f: Option<nat>, n: nat, need: nat, index: nat, g: Option<nat>, n': nat, need': nat, h: Option<nat>)
    requires Passes(f, n, need, index, g)
    requires need <= index ==> Passes(g, n', need', index - need, h)
    ensures Passes(f, n + n', need + need', index, h)
  {
  }

  /** The scan of `rest` with what `need` leaves of the counter. */
  function Rest(rest: seq<Rec>, index: nat, need: nat): Option<nat> { FindBranch(rest, Minus(index, need)) }

  /** A body takes as much off the counter as its nested menus have marked lines, and nothing otherwise. */
  lemma {:induction false} SkipBody(b: Body, rest: seq<Rec>, index: nat)
    requires WellFormedBody(b)
    ensures Passes(FindBranch(FlatBody(b) + rest, index), |FlatBody(b)|, MarkedBody(b), index, Rest(rest, index, MarkedBody(b)))
    decreases b, 1
  {
    match b
    case Done =>
      assert FlatBody(b) + rest == rest;
    case Step(r, next) =>
      assert (FlatBody(b) + rest)[1..] == FlatBody(next) + rest;
      SkipBody(next, rest, index);
    case Sub(menu, next) =>
      FlatSub(menu, next, rest);
      SkipSub(menu, next, rest, FlatBody(b) + rest, index);
  }

  lemma {:induction false} SkipSub(menu: Menu, next: Body, rest: seq<Rec>, recs: seq<Rec>, index: nat)
    requires WellFormed(menu) && WellFormedBody(next)
    requires recs == FlatLines(menu.lines) + (FlatBranches(menu.branches) + (FlatBody(next) + rest))
    ensures var need := Marked(menu.lines) + MarkedIn(menu.branches) + MarkedBody(next);
      Passes(FindBranch(recs, index), |Flat(menu)| + |FlatBody(next)|, need, index, Rest(rest, index, need))
    decreases Sub(menu, next), 0
  {
    var after, need := FlatBody(next) + rest, Marked(menu.lines) + MarkedIn(menu.branches);
    SkipMenu(menu, after, index);
    SkipBody(next, rest, Minus(index, need));
    PassesBoth(FindBranch(recs, index), |Flat(menu)|, need, index,
               Rest(after, index, need), |FlatBody(next)|, MarkedBody(next), Rest(rest, index, need + MarkedBody(next)));
  }

  lemma {:induction false} SkipMenu(m: Menu, rest: seq<Rec>, index: nat)
    requires WellFormed(m)
    ensures var need := Marked(m.lines) + MarkedIn(m.branches);
      Passes(FindBranch(FlatLines(m.lines) + (FlatBranches(m.branches) + rest), index),
             |Flat(m)|, need, index, Rest(rest, index, need))
    decreases m, 0
  {
    var x := index + |m.lines| - Marked(m.lines);
    SkipLines(m.lines, FlatBranches(m.branches) + rest, index);
    SkipBranches(m.branches, rest, x);
  }

  lemma BranchHead(head: Rec, more: seq<Rec>, index: nat)
    requires head.top == 9
    ensures FindBranch([head] + more, index) == if index == 0 then Some(1) else Shift(1, FindBranch(more, index - 1))
  {
    assert ([head] + more)[1..] == more;
  }

  lemma PassesHead(head: Rec, more: seq<Rec>, index: nat, n: nat, need: nat, g: Option<nat>)
    requires head.top == 9 && (0 < index ==> Passes(FindBranch(more, index - 1), n, need, index - 1, g))
    ensures Passes(FindBranch([head] + more, index), 1 + n, 1 + need, index, g)
  {
    BranchHead(head, more, index);
  }

  /** All branches of a menu take one each and their marked lines off the counter. */
  lemma {:induction false} SkipBranches(bs: Branches, rest: seq<Rec>, index: nat)
    requires WellFormedBranches(bs)
    ensures var need := Size(bs) + MarkedIn(bs);
      Passes(FindBranch(FlatBranches(bs) + rest, index), |FlatBranches(bs)|, need, index, Rest(rest, index, need))
    decreases bs, 1
  {
    if bs.NoMore? {
      assert FlatBranches(bs) + rest == rest;
    } else {
      var need := MarkedBody(bs.body) + (Size(bs.next) + MarkedIn(bs.next));
      FlatBranch(bs, rest);
      if 0 < index { SkipBranch(bs.head, bs.body, bs.next, rest, index - 1); }
      PassesHead(bs.head, FlatBody(bs.body) + (FlatBranches(bs.next) + rest), index, |FlatBranches(bs)| - 1, need,
                 Rest(rest, index, 1 + need));
    }
  }

  lemma {:induction false} SkipBranch(head: Rec, body: Body, next: Branches, rest: seq<Rec>, index: nat)
    requires WellFormedBody(body) && WellFormedBranches(next)
    ensures var need := MarkedBody(body) + (Size(next) + MarkedIn(next));
      Passes(FindBranch(FlatBody(body) + (FlatBranches(next) + rest), index),
             |FlatBody(body)| + |FlatBranches(next)|, need, index, Rest(rest, index, need))
    decreases Branch(head, body, next), 0
  {
    var more, need, need' := FlatBranches(next) + rest, MarkedBody(body), Size(next) + MarkedIn(next);
    SkipBody(body, more, index);
    SkipBranches(next, rest, Minus(index, need));
    PassesBoth(FindBranch(FlatBody(body) + more, index), |FlatBody(body)|, need, index, Rest(more, index, need),
               |FlatBranches(next)|, need', Rest(rest, index, need + need'));
  }

  /** The scan lands on the body of branch `i`, at any nesting depth, if and only if it starts at `i` plus the
      number of marked lines in the bodies before. */
  lemma {:induction false} FindsBranch(bs: Branches, rest: seq<Rec>, i: nat, index: nat)
    requires WellFormedBranches(bs) && i < Size(bs)
    ensures FindBranch(FlatBranches(bs) + rest, index) == Some(BodyStart(bs, i)) <==> index == i + MarkedBefore(bs, i)
  {
    var more := FlatBranches(bs.next) + rest;
    FlatBranch(bs, rest);
    BranchHead(bs.head, FlatBody(bs.body) + more, index);
    if 0 < index {
      FindPositive(FlatBody(bs.body) + more, index - 1);
      if 0 < i {
        SkipBody(bs.body, more, index - 1);
        if MarkedBody(bs.body) <= index - 1 { FindsBranch(bs.next, rest, i - 1, index - 1 - MarkedBody(bs.body)); }
      }
    }
  }

  lemma {:induction false} BodyStartOrder(bs: Branches, i: nat, j: nat)
    requires i < Size(bs)
    ensures BodyStart(bs, i) <= |FlatBranches(bs)|
    ensures i < j < Size(bs) ==> BodyStart(bs, i) < BodyStart(bs, j)
  {
    if i > 0 { BodyStartOrder(bs.next, i - 1, if j > 0 then j - 1 else 0); }
    else if 0 < j < Size(bs) { BodyStartOrder(bs.next, j - 1, j - 1); }
  }

  lemma FindPositive(recs: seq<Rec>, index: nat)
    ensures FindBranch(recs, index).Some? ==> 1 <= FindBranch(recs, index).value <= |recs|
  {
  }

  // ----------------------------------------------------------------------- menu builder

  /** What the builder reads: the progress flags, and the length `read_next_dialogue_line` returns
      for a line offset and the text space left (0 = no text, the line is not offered). */
  datatype Env = Env(bitmap: Bitmap, read: (nat, int) -> nat) {
    /** The builder tests the low 16 bits of the flag number. */
    predicate Holds(r: Rec) { bitmap.Test(r.operand % 0x10000) != r.Not() }
  }

  /** The table of recorded line numbers, and the records left when the builder stopped (none if
      the records ran out before another opcode was met). */
  datatype Built = Built(table: seq<nat>, rest: seq<Rec>)

  function Build(env: Env, recs: seq<Rec>, space: int, sub: nat, failed: bool): Built {
    if recs == [] then Built([], [])
    else if recs[0].Op() == 8 then
      var r := env.read(recs[0].operand, space);
      if failed || r == 0 then Build(env, recs[1..], space, sub + 1, false)
      else
        var b := Build(env, recs[1..], space - r, sub + 1, false);
        b.(table := [sub] + b.table)
    else if recs[0].Op() == 0x0d then Build(env, recs[1..], space, sub, !env.Holds(recs[0]))
    else Built([], recs)
  }

  lemma BuildStops(env: Env, recs: seq<Rec>, space: int, sub: nat, failed: bool)
    ensures |Build(env, recs, space, sub, failed).rest| <= |recs|
  {
  }

  predicate Hidden(env: Env, l: Line) { l.ifs != [] && !env.Holds(l.ifs[|l.ifs| - 1]) }

  /** The line numbers of a menu that are offered: the last If in front of the line holds and the
      line has text. */
  function Offered(env: Env, lines: seq<Line>, space: int, line: nat): seq<nat> {
    if lines == [] then []
    else
      var r := env.read(lines[0].text.operand, space);
      if Hidden(env, lines[0]) || r == 0 then Offered(env, lines[1..], space, line + 1)
      else [line] + Offered(env, lines[1..], space - r, line + 1)
  }

  lemma {:induction false} BuildIfs(env: Env, ifs: seq<Rec>, rest: seq<Rec>, space: int, sub: nat, failed: bool)
    requires forall r <- ifs :: r.Op() == 0x0d
    ensures Build(env, ifs + rest, space, sub, failed)
         == Build(env, rest, space, sub, if ifs == [] then failed else !env.Holds(ifs[|ifs| - 1]))
  {
    if ifs == [] {
      assert ifs + rest == rest;
    } else {
      assert ifs[0] in ifs;
      assert (ifs + rest)[1..] == ifs[1..] + rest;
      BuildIfs(env, ifs[1..], rest, space, sub, !env.Holds(ifs[0]));
    }
  }

  /** On the lines of a menu the builder records exactly the offered lines, counted among all lines
      from the starting value `line`, and stops at the first branch. */
  lemma {:induction false} BuildLines(env: Env, lines: seq<Line>, rest: seq<Rec>, space: int, line: nat)
    requires WellFormedLines(lines) && rest != [] && rest[0].Op() != 8 && rest[0].Op() != 0x0d
    ensures Build(env, FlatLines(lines) + rest, space, line, false) == Built(Offered(env, lines, space, line), rest)
  {
    if lines == [] {
      assert FlatLines(lines) + rest == rest;
    } else {
      var l := lines[0];
      var r := env.read(l.text.operand, space);
      assert l in lines;
      FlatLine(lines, rest);
      BuildLine(env, l, FlatLines(lines[1..]) + rest, space, line);
      BuildLines(env, lines[1..], rest, if Hidden(env, l) || r == 0 then space else space - r, line + 1);
    }
  }

  /** The starting value only shifts the recorded numbers. */
  lemma {:induction false} OfferedShift(env: Env, lines: seq<Line>, space: int, line: nat, sub: nat)
    ensures var t, u := Offered(env, lines, space, line), Offered(env, lines, space, line + sub);
      |u| == |t| && forall j | 0 <= j < |t| :: u[j] == t[j] + sub
  {
    if lines != [] {
      var r := env.read(lines[0].text.operand, space);
      OfferedShift(env, lines[1..], if Hidden(env, lines[0]) || r == 0 then space else space - r, line + 1, sub);
    }
  }

  lemma BuildLine(env: Env, l: Line, more: seq<Rec>, space: int, sub: nat)
    requires l.text.Op() == 8 && forall r <- l.ifs :: r.Op() == 0x0d
    ensures var r := env.read(l.text.operand, space);
      Build(env, l.ifs + ([l.text] + more), space, sub, false)
      == if Hidden(env, l) || r == 0 then Build(env, more, space, sub + 1, false)
         else var b := Build(env, more, space - r, sub + 1, false); b.(table := [sub] + b.table)
  {
    BuildIfs(env, l.ifs, [l.text] + more, space, sub, false);
    assert ([l.text] + more)[1..] == more;
  }

  lemma {:induction false} OfferedInOrder(env: Env, lines: seq<Line>, space: int, line: nat)
    ensures var t := Offered(env, lines, space, line);
      && (forall j | 0 <= j < |t| :: line <= t[j] < line + |lines|)
      && (forall i, j | 0 <= i < j < |t| :: t[i] < t[j])
  {
    if lines != [] {
      var r := env.read(lines[0].text.operand, space);
      if Hidden(env, lines[0]) || r == 0 {
        OfferedInOrder(env, lines[1..], space, line + 1);
        assert Offered(env, lines, space, line) == Offered(env, lines[1..], space, line + 1);
      } else {
        OfferedInOrder(env, lines[1..], space - r, line + 1);
        assert Offered(env, lines, space, line) == [line] + Offered(env, lines[1..], space - r, line + 1);
      }
    }
  }

  lemma {:induction false} OfferedOnce(env: Env, lines: seq<Line>, space: int, line: nat)
    ensures lines != [] ==> var r := env.read(lines[0].text.operand, space);
      forall x :: x in Offered(env, lines, space, line) <==>
        if Hidden(env, lines[0]) || r == 0 then x in Offered(env, lines[1..], space, line + 1)
        else x == line || x in Offered(env, lines[1..], space - r, line + 1)
    ensures forall x <- Offered(env, lines, space, line) :: line <= x < line + |lines|
  {
    OfferedInOrder(env, lines, space, line);
  }

  /** Line `i` is among the offered ones if and only if it is not hidden and has text for the space left to it, which
      then leaves so much less to the next. */
  predicate Placed(env: Env, lines: seq<Line>, offered: seq<nat>, line: nat, spaces: seq<int>, i: nat)
    requires i < |lines| < |spaces|
  {
    var r := env.read(lines[i].text.operand, spaces[i]);
    && (line + i in offered <==> !Hidden(env, lines[i]) && r != 0)
    && spaces[i + 1] == spaces[i] - if line + i in offered then r else 0
  }

  lemma {:induction false} LinesPlaced(env: Env, lines: seq<Line>, space: int, line: nat) returns (spaces: seq<int>)
    ensures |spaces| == |lines| + 1 && spaces[0] == space
    ensures forall i: nat | i < |lines| :: Placed(env, lines, Offered(env, lines, space, line), line, spaces, i)
  {
    spaces := [space];
    if lines != [] {
      var l, r := lines[0], env.read(lines[0].text.operand, space);
      var left := if Hidden(env, l) || r == 0 then space else space - r;
      var rest := LinesPlaced(env, lines[1..], left, line + 1);
      OfferedOnce(env, lines, space, line);
      OfferedOnce(env, lines[1..], left, line + 1);
      spaces := [space] + rest;
      forall i: nat | i < |lines| ensures Placed(env, lines, Offered(env, lines, space, line), line, spaces, i) {
        if i > 0 {
          assert Placed(env, lines[1..], Offered(env, lines[1..], left, line + 1), line + 1, rest, i - 1);
          assert spaces[i] == rest[i - 1] && spaces[i + 1] == rest[i] && lines[1..][i - 1] == lines[i];
        }
      }
    }
  }

  /** The flag an If tests, by its low 16 bits, reads as set; without a bitmap every flag does. */
  predicate ReadsSet(env: Env, r: Rec) { env.bitmap.NoBitmap? || r.operand % 0x10000 in env.bitmap.flags }

  lemma HiddenBy(env: Env, l: Line)
    ensures l.ifs == [] ==> !Hidden(env, l)
    ensures l.ifs != [] ==> var last := l.ifs[|l.ifs| - 1];
      (Hidden(env, l) <==> (last.top < 0x80 && !ReadsSet(env, last)) || (last.top >= 0x80 && ReadsSet(env, last)))
  {
  }

  /** Choosing offered choice `j` of a menu runs the branch of that line, for every menu tree, any
      records behind it and any starting value of the line counter -- if and only if the counter
      started at the number of marked lines nested before that branch. Without such lines that means at zero,
      which the counter is for the first menu of a run; a later menu of the same run continues from the lines
      of the earlier one. */
  lemma ChosenBranch(env: Env, m: Menu, rest: seq<Rec>, space: int, sub: nat, j: nat)
    requires WellFormed(m)
    ensures var b := Build(env, Flat(m) + rest, space, sub, false); var lines := Offered(env, m.lines, space, 0);
      && |b.table| == |lines|
      && (j < |lines| ==>
           && lines[j] < Size(m.branches)
           && (FindBranch(b.rest, b.table[j]) == Some(BodyStart(m.branches, lines[j]))
               <==> sub == MarkedBefore(m.branches, lines[j])))
  {
    var after := FlatBranches(m.branches) + rest;
    assert Flat(m) + rest == FlatLines(m.lines) + after;
    BuildLines(env, m.lines, after, space, sub);
    OfferedShift(env, m.lines, space, 0, sub);
    OfferedInOrder(env, m.lines, space, 0);
    var lines := Offered(env, m.lines, space, 0);
    if j < |lines| { FindsBranch(m.branches, rest, lines[j], lines[j] + sub); }
  }

  /** Seen from the lines: with `spaces[k]` the room the lines offered before line `k` leave, the builder records line
      `i` of any menu tree if and only if it has text for its room and no If in front, or a last one that is an If
      on a set flag or an If-NOT on a clear one. Its branch is then found if and only if the counter started at the
      marked lines nested before that branch. */
  lemma OfferedLineRunsItsBranch(env: Env, m: Menu, rest: seq<Rec>, space: int, sub: nat, i: nat) returns (spaces: seq<int>)
    requires WellFormed(m) && i < |m.lines|
    ensures |spaces| == |m.lines| + 1 && spaces[0] == space && i < Size(m.branches)
    ensures var table := Build(env, Flat(m) + rest, space, sub, false).table;
      forall k: nat | k < |m.lines| :: spaces[k + 1] ==
        if sub + k in table then spaces[k] - env.read(m.lines[k].text.operand, spaces[k]) else spaces[k]
    ensures var b, l := Build(env, Flat(m) + rest, space, sub, false), m.lines[i];
      sub + i in b.table <==>
        && env.read(l.text.operand, spaces[i]) != 0
        && (l.ifs == [] || (l.ifs[|l.ifs| - 1].top < 0x80 && ReadsSet(env, l.ifs[|l.ifs| - 1]))
                        || (l.ifs[|l.ifs| - 1].top >= 0x80 && !ReadsSet(env, l.ifs[|l.ifs| - 1])))
    ensures var b := Build(env, Flat(m) + rest, space, sub, false);
      FindBranch(b.rest, sub + i) == Some(BodyStart(m.branches, i)) <==> sub == MarkedBefore(m.branches, i)
  {
    var after := FlatBranches(m.branches) + rest;
    FlatBranch(m.branches, rest);
    assert Flat(m) + rest == FlatLines(m.lines) + after;
    BuildLines(env, m.lines, after, space, sub);
    spaces := LinesPlaced(env, m.lines, space, sub);
    HiddenBy(env, m.lines[i]);
    var offered := Offered(env, m.lines, space, sub);
    assert Placed(env, m.lines, offered, sub, spaces, i);
    forall k: nat | k < |m.lines|
      ensures spaces[k + 1] == if sub + k in offered then spaces[k] - env.read(m.lines[k].text.operand, spaces[k]) else spaces[k]
    {
      assert Placed(env, m.lines, offered, sub, spaces, k);
    }
    FindsBranch(m.branches, rest, i, sub + i);
  }

  /** A stale counter misses every branch with no marked line nested before it. */
  lemma StaleCounterMisses(bs: Branches, rest: seq<Rec>, i: nat, sub: nat)
    requires WellFormedBranches(bs) && i < Size(bs) && 0 < sub && MarkedBefore(bs, i) == 0
    ensures FindBranch(FlatBranches(bs) + rest, i + sub) != Some(BodyStart(bs, i))
  {
    FindsBranch(bs, rest, i, i + sub);
  }

  /** The smallest case of a marked line: the first branch holds a menu whose only line has bit 31 set. The
      builder would offer that line, but the scan for the second branch does not count it and never finds that
      branch, while it does when the bit is clear. */
  lemma MarkedLineMisleads(env: Env, space: int, top: nat, rest: seq<Rec>)
    requires env.read(1, space) != 0 && (top == 8 || top == 0x88)
    ensures var head, line := Rec(9, 1), Line([], Rec(top, 1));
      var nested := Menu([line], Branch(head, Done, NoMore));
      var bs := Branch(head, Sub(nested, Done), Branch(head, Done, NoMore));
      && WellFormedBranches(bs)
      && Build(env, Flat(nested), space, 0, false).table == [0]
      && (FindBranch(FlatBranches(bs) + rest, 1) == Some(BodyStart(bs, 1)) <==> top == 8)
  {
    var head, line := Rec(9, 1), Line([], Rec(top, 1));
    var nested := Menu([line], Branch(head, Done, NoMore));
    var bs := Branch(head, Sub(nested, Done), Branch(head, Done, NoMore));
    assert WellFormedLines([line]) && Marked([line]) == (if top == 8 then 0 else 1);
    assert WellFormedBranches(nested.branches) && WellFormed(nested) && MarkedIn(nested.branches) == 0;
    assert WellFormedBody(bs.body) && WellFormedBranches(bs.next) && MarkedBody(bs.body) == Marked([line]);
    assert MarkedBefore(bs.next, 0) == 0 && Size(bs) == 2;
    FindsBranch(bs, rest, 1, 1);
    assert FlatLines([line])== [Rec(top, 1)] && FlatBranches(nested.branches) == [head];
    BuildLines(env, [line], [head], space, 0);
    assert Offered(env, [], space - env.read(1, space), 1) == [];
  }

  /** The lines recorded so far in front of what is still to be built. */
  function Joined(table: seq<nat>, b: Built): Built { b.(table := table + b.table) }

  lemma JoinedNext(table: seq<nat>, sub: nat, b: Built)
    ensures Joined(table, b.(table := [sub] + b.table)) == Joined(table + [sub], b)
    ensures |table| < |Joined(table, b.(table := [sub] + b.table)).table|
  {
    assert table + ([sub] + b.table) == table + [sub] + b.table;
  }

  // -------------------------------------------------------------------- implementation

  /** The published choice record and the table of line numbers. `cursor` is None while no choice is
      pending. */
  class Choices {
    var cursor: Option<nat>
    var remaining: int
    var mode: nat
    var count: nat
    const indices: array<nat>

    constructor (indices: array<nat>)
      ensures this.indices == indices && cursor == None
    {
      this.indices := indices;
      cursor, remaining, mode, count := None, 0, 0, 0;
    }

    /** Build the menu from the record at `cur0`, with `count0` records left in the chain and the
        line counter at `sub0`. `published` is false when the chain ends inside the menu or no line
        is offered; the published record is the one the branch finder starts from. */
    method BuildMenu(env: Env, mem: seq<Rec>, cur0: nat, count0: nat, sub0: nat, flags: nat)
      returns (published: bool, cur: nat, left: nat, choices: nat)
      requires 0 < count0 && cur0 + count0 <= |mem|
      requires |Build(env, mem[cur0..cur0 + count0], 0x800, sub0, false).table| <= indices.Length
      modifies this, indices
      ensures var b := Build(env, mem[cur0..cur0 + count0], 0x800, sub0, false);
        && cur + left == cur0 + count0 && mem[cur..cur0 + count0] == b.rest
        && choices == |b.table| && indices[..choices] == b.table
        && published == (b.table != [] && b.rest != [])
        && (published ==> cursor == Some(cur) && remaining == left && count == choices && mode == flags)
        && (!published ==> cursor == old(cursor) && remaining == old(remaining) && count == old(count) && mode == old(mode))
    {
      ghost var whole := Build(env, mem[cur0..cur0 + count0], 0x800, sub0, false);
      ghost var rest := mem[cur0..cur0 + count0];
      cur, left, choices, published := cur0, count0, 0, false;
      var sub, space: int, failed, stop := sub0, 0x800, false, false;
      while left > 0 && !stop
        invariant cur + left == cur0 + count0 && rest == mem[cur..cur0 + count0] && choices <= indices.Length
        invariant whole == Joined(indices[..choices], if stop then Built([], rest) else Build(env, rest, space, sub, failed))
        invariant stop ==> left > 0
        modifies indices
        decreases left, !stop
      {
        var w := mem[cur];
        var previousFailed := failed;
        failed := false;
        if w.Op() == 8 {
          if !previousFailed {
            var r := env.read(w.operand, space);
            if r != 0 {
              ghost var table := indices[..choices];
              JoinedNext(table, sub, Build(env, rest[1..], space - r, sub + 1, false));
              indices[choices] := sub;
              choices := choices + 1;
              assert indices[..choices] == table + [sub];
              space := space - r;
            }
          }
          cur, sub, left := cur + 1, sub + 1, left - 1;
          rest := rest[1..];
        } else if w.Op() == 0x0d {
          if !env.Holds(w) { failed := true; }
          cur, left := cur + 1, left - 1;
          rest := rest[1..];
        } else {
          stop := true;
        }
      }
      if left > 0 && choices > 0 {
        published := true;
        cursor, remaining, count, mode := Some(cur), left, choices, flags;
      }
    }

    /** Run the branch of the choice at `index` of the table: the chain to execute, if the scan finds
        one. The pending choice is consumed either way. */
    method ExecuteBranch(mem: seq<Rec>, index: nat) returns (chain: Option<(nat, nat)>)
      requires index < indices.Length
      requires cursor.Some? && remaining > 0 ==> cursor.value + remaining <= |mem|
      modifies this
      ensures cursor == None && remaining == old(remaining) && count == old(count) && mode == old(mode)
      ensures old(cursor.None? || remaining <= 0) ==> chain == None
      ensures old(cursor.Some? && remaining > 0) ==>
        var c, n := old(cursor).value, old(remaining);
        var found := FindBranch(mem[c..c + n], indices[index]);
        chain == if found.None? then None else Some((c + found.value, n - found.value))
    {
      if cursor.None? { return None; }
      var cur, left, i := cursor.value, remaining, indices[index];
      cursor := None;
      if left <= 0 { return None; }
      ghost var start, end := cur, cur + left;
      ghost var whole := FindBranch(mem[cur..end], i);
      while true
        invariant start <= cur && 0 < left && cur + left == end
        invariant whole == Shift(cur - start, FindBranch(mem[cur..end], i))
        decreases left
      {
        var op := mem[cur].top;
        assert mem[cur..end][1..] == mem[cur + 1..end];
        left, cur := left - 1, cur + 1;
        if op == 8 {
          i := i + 1;
        } else if op == 9 {
          if i == 0 { return Some((cur, left)); }
          i := i - 1;
        }
        if left == 0 { break; }
      }
      return None;
    }
  }
}
