# Models of the engine's hard cores and of the SDK release tooling

This project models five parts of the repository and proves properties of the models. Nothing of the original
code is executed by it. `dafny verify dfyconfig.toml` checks the whole project.

**Automap lines.** `AutomapClip` is the two-axis clipper with its 16-bit registers and truncating division,
`AutomapDraw` the Bresenham loop, `AutomapEdge` the path project, clip, draw. A visible segment is never dropped,
accepted endpoints are in the rectangle and near the line, the decision variable keeps to a closed form whose sign
the 16-bit test reads correctly, and the drawn pixels do not depend on the order of the endpoints. `AutomapNear` says
which invisible segments are accepted, `AutomapSign` for which deltas exactly the sign test is right.

**DBASE100 scripts.** `ChoiceMenu` is the menu builder and the branch finder over menus nested to any depth,
`Segmenter` the record segmenter of the random-choice opcode, `EntityDef` the builder of monster definitions,
`ActionQueue` the queue of eight deferred actions, `Interpreter` the bytecode loop as a machine of small steps over a
stack of chains, with the subsystems it calls left opaque. `OpcodeRuns` says what each record does to the run that
executes it, `FlagRuns` what becomes of progress flags and items over whole runs. `RequeueTrace` follows every entry
that is written to a slot until it is run or lost. `QueueRuns` connects interpreter runs with the queue, `MenuRuns`
with the menus and their line counter.

**ABI and identity.** `AbiHistory`, `Baseline`, `PluginLayout`, `Resolver` and `Identity` model the release gates, the
choice of the baseline directory, the layout of the plugin struct, the prototype resolver and the identity table. The
main results are about whole histories of releases, each gated only against one before it, and the load rule is shown
to be exact: any looser one would load plugins that some gated history does not serve.

**Override chain.** `OverrideChain` models the emitted next functions and dispatch thunks. A callback is anything
that decides from its arguments and earlier results whether to call next again.

**Blocks and images.** `BlockList` is the doubly linked list of OS memory blocks, `ImageBuild` the loader of the
data image with its comparator. `MachineInt`, `Options` and `DbaseRecords` hold shared types.

## Where the code falls short of a promise

Each of these is proved, with the exact condition under which the promise holds where one is named.

- The choice menu's line counter is not reset between two menus of one chain, and the builder masks bit 31 off a
  line's opcode while the branch finder does not. In menus whose branch heads have bit 31 clear, a chosen line runs its
  own branch if and only if the counter started at the number of nested lines with that bit before the branch
  (`ChoiceMenu.ChosenBranch`). The finder misses a branch head with that bit for the same reason; no claim is made about
  menus with such heads. A run that gets to its second menu with the counter at one and skips its branch is
  `MenuRuns.SecondMenuMisses`.
- A chain nested in a waiting one can requeue itself over slot 0; when the chain around it completes, that entry is
  popped and the requeued record never runs (`QueueRuns.RequeueIsLost`). Running the queue's head loses a requeue if and
  only if a chain nested in it meets a record that requeues (`QueueRuns.QueuedRunLoses`); which records do, and when, is
  `Interpreter.RequeueGuard`. Scripts without nested chains lose none (`QueueRuns.UnnestedRunsKeepAll`). Over any sequence
  of evaluations and advances every entry ever written to a slot is waiting, was run, or is lost
  (`RequeueTrace.OneFate`), and `RequeueTrace.RunLoses` says exactly which are lost.
- A chain that opcode 0x1a suspends from an empty queue keeps the flags of an earlier entry
  (`ActionQueue.KeptFlagsAreStale`).
- The automap clipper drops visible lines and lets endpoints escape when a coordinate difference leaves 16 bits
  (`AutomapClip.WideLineDropped`, `AutomapClip.TallLineEscapes`). Horizontal lines and lines at most one column wide are
  kept even then (`AutomapNear.FlatOrNarrowKept`). With exact differences it accepts invisible lines
  too, but only such as pass less than one unit above or below the rectangle (`AutomapNear.AcceptedIsNear`), all of
  those that cross at most one of its columns (`AutomapNear.OneColumnExact`), and none at all between the columns
  (`AutomapNear.ColumnsExact`).
- A full array of a monster definition is written over the word behind it, which goes unnoticed if and only if the
  word held the value already (`EntityDef.OverflowClobbers`), and a skipped block of fewer than four bytes holds the
  block walk forever (`EntityDef.WalkEnds`).
- The gates compare with the last release directory in string order. That is the newest release if and only if every
  digit of its minor version before the last is a nine (`Baseline.LatestIsNewest`): up to minor 9, then not before 90.
  From release 11 on a gated release can take away what an earlier one of the same major version had; it serves
  exactly the releases on its path of baselines (`Baseline.LatestBaselineServes`).
- The id gate's remedy for a stale canonical name is to seed the table again, and its message and the rules at
  tools/sdk_ids.py:21-24 say that the old name is then kept as an alias. The seeder does not read the table it
  replaces, so this holds if and only if no function loses an engine name that differs from its corpus name
  (`Identity.ReseedPassesGate`, `Identity.SecondRenameFails`).
- The page and paragraph counts wrap for the largest requests, and only for those the granted memory does not hold the
  block (`BlockList.PagesHold`, `BlockList.ParagraphsHold`).
- The comment at roth_c/src/data/obj3_build.c:23-25 says that a relocation slot never falls into an owned region,
  while the tables and the comparator have such slots and mask them. The model follows the code.

Two limits of the code are out of reach of its callers. The rasteriser's 16-bit sign test is wrong for some deltas
(`AutomapSign.SignExactly` says which), but right for every edge clipped to a rectangle of at most 0x4000 pixels a
side (`AutomapEdge.AcceptedDrawable`). The ABI gate calls a struct that only grew identical, but sizes the generator
writes follow from the fields, so it never writes such a struct (`AbiHistory.LoadRuleCovers`,
`PluginLayout.LayoutSizeFollows`).

## Model

| member | source | states |
|---|---|---|
| AutomapClip.ClipLow | roth_c/src/engine/automap.c:147-155 | the registers after the low interpolation, with every 16-bit truncation, are MoveLow's; MoveLowExact says what that is |
| AutomapClip.ClipHigh | roth_c/src/engine/automap.c:158-166 | the same for the high interpolation and MoveHigh |
| AutomapClip.LineClipTest | roth_c/src/engine/automap.c:141-171 | verdict and registers of the one-axis test, tied to LineClip |
| AutomapClip.ClipLine | roth_c/src/engine/automap.c:177-200 | verdict and coordinates of the whole clip, tied to ClipMapLine; a rejected line leaves the caller's coordinates alone |
| AutomapClip.MoveLowExact | roth_c/src/engine/automap.c:147-155 | with exact 16-bit differences the low interpolation stays between the endpoints and misses the true height by less than one unit, towards the first endpoint |
| AutomapClip.MoveHighExact | roth_c/src/engine/automap.c:158-166 | likewise for the high interpolation, towards the second endpoint |
| AutomapClip.LineClipAccepts | roth_c/src/engine/automap.c:141-171 | an accepted axis lies inside its bounds, and no coordinate left the bounding box |
| AutomapClip.LineClipDrift | roth_c/src/engine/automap.c:141-171 | up to two truncated interpolations move the endpoints off any affine line by at most one and two times its slope coefficient |
| AutomapClip.LineClipVerdict | roth_c/src/engine/automap.c:141-171 | for every 16-bit input the verdict depends only on the clipped axis, so a wrapped quotient in a line about to be rejected does not matter |
| AutomapClip.RisingClipKeepsBounds | roth_c/src/engine/automap.c:147-167 | the two roundings never lose an integer bound that the exact line met |
| AutomapClip.AxisKeepsVisible | roth_c/src/engine/automap.c:141-171 | one axis of the clip accepts a visible segment, and what is left still reaches the other axis' bounds |
| AutomapClip.NoVisibleLineDropped | roth_c/src/engine/automap.c:177-200 | whenever the exact real segment meets the closed rectangle the clipper accepts it |
| AutomapClip.AcceptedInside | roth_c/src/engine/automap.c:177-200 | on acceptance both endpoints lie in the rectangle and in the segment's bounding box |
| AutomapClip.AcceptedDrift | roth_c/src/engine/automap.c:177-200 | on acceptance the endpoints are off the original line by at most 2 DX + DY and 2 DX + 2 DY, through up to four truncated interpolations |
| AutomapClip.ClipOrderIndependent | roth_c/src/engine/automap.c:177-200 | verdict and clipped coordinates are the same for exchanged endpoints, for every 16-bit input |
| AutomapClip.InsideUnchanged | roth_c/src/engine/automap.c:177-200 | a segment inside the rectangle keeps its endpoints, for every 16-bit input |
| AutomapClip.NearMissAccepted | roth_c/src/engine/automap.c:177-200 | an invisible line that the clipper accepts; AutomapNear says how near such a line has to be |
| AutomapClip.WideLineDropped | roth_c/src/engine/automap.c:149-153 | a visible line that is dropped because its x difference wraps |
| AutomapClip.TallLineEscapes | roth_c/src/engine/automap.c:149-153 | an accepted line with an endpoint outside the screen because its y difference wraps |
| AutomapNear.AcceptedIsNear | roth_c/src/engine/automap.c:177-200 | whatever the clipper accepts has a point between the columns and strictly between the rows top - 1 and bottom + 1 |
| AutomapNear.OneColumnExact | roth_c/src/engine/automap.c:177-200 | a segment that crosses at most one of the two columns is accepted if and only if it has such a point |
| AutomapNear.ColumnsExact | roth_c/src/engine/automap.c:177-200 | a segment between the columns is accepted if and only if it is visible, for every 16-bit input |
| AutomapNear.FlatOrNarrowKept | roth_c/src/engine/automap.c:177-200 | a visible segment that is horizontal or at most one column wide is accepted, for every 16-bit input, wrapping differences included |
| AutomapNear.AcceptedRising | roth_c/src/engine/automap.c:147-167 | the clipped heights are on the right sides of the rows only for a segment that comes near, through both interpolations |
| AutomapDraw.MinorNearest | roth_c/src/engine/automap.c:82-98 | the number of minor steps after k major steps is the nearest integer to the ideal height, and the only one (both directions) |
| AutomapDraw.MinorStep | roth_c/src/engine/automap.c:91-93 | the decision variable stays in [2m-2M, 2m) and its sign decides the next minor step exactly |
| AutomapDraw.MinorEnds | roth_c/src/engine/automap.c:82-98 | after all M major steps exactly m minor steps were taken |
| AutomapDraw.RunInvariant | roth_c/src/engine/automap.c:88-96 | one turn of the span loop, where the 16-bit sign is right: address and decision variable of the next step follow the closed form |
| AutomapDraw.SignTestWraps | roth_c/src/engine/automap.c:92 | one unit past either bound of SafeIsRight the tested sign is wrong; SignExactly has the exact condition |
| AutomapDraw.SafeIsRight | roth_c/src/engine/automap.c:92 | for minor deltas and differences of deltas of at most 0x4000 the sign test is right at every step |
| AutomapSign.Bounds | roth_c/src/engine/automap.c:91-93 | the decision variable stays between two values given by the deltas and their greatest common divisor |
| AutomapSign.Extremes | roth_c/src/engine/automap.c:91-93 | both of these values are taken at some step |
| AutomapSign.SignExactly | roth_c/src/engine/automap.c:92 | the sign test is right at every step if and only if these two values fit 16 bits |
| AutomapDraw.PlanJoins | roth_c/src/engine/automap.c:108-133 | the first and the last pixel are the two endpoints |
| AutomapDraw.PlanInBox | roth_c/src/engine/automap.c:108-133 | every pixel is in the bounding box of the endpoints |
| AutomapDraw.PlanOrderIndependent | roth_c/src/engine/automap.c:112-133 | exchanged endpoints plan the same pixels, for every 16-bit input |
| AutomapDraw.PlotTwiceRestores | roth_c/src/engine/automap.c:88-96 | drawing the same pixels twice in XOR mode restores every byte |
| AutomapDraw.XorByParity | roth_c/src/engine/automap.c:88-96 | in XOR mode exactly the pixels listed an odd number of times are toggled, each with the colour |
| AutomapDraw.PlotFrame | roth_c/src/engine/automap.c:88-96 | only the listed pixels change, and in solid mode each of them has the colour |
| AutomapDraw.Framebuffer.Advance | roth_c/src/engine/automap.c:91-93 | one address step with the 32-bit wrap and the 16-bit sign test |
| AutomapDraw.Framebuffer.BresRun | roth_c/src/engine/automap.c:82-98 | count + 1 pixels, at the offsets of the closed form, are written in order |
| AutomapDraw.Framebuffer.DrawLine | roth_c/src/engine/automap.c:100-136 | the buffer afterwards is the plan of the line plotted into the buffer before, for every line whose pixels are mapped and whose sign test is right |
| AutomapEdge.AcceptedDrawable | roth_c/src/engine/automap.c:224-225 | whatever the clipper accepts meets every precondition of the rasteriser: the sign test is exact and all addresses are mapped |
| AutomapEdge.EdgeStaysInside | roth_c/src/engine/automap.c:224-225 | clip then draw changes no byte outside the rectangle |
| AutomapEdge.EdgeInsideUnclipped | roth_c/src/engine/automap.c:224-225 | a segment inside the rectangle is drawn as if there were no clipper |
| AutomapEdge.EdgeOrderIndependent | roth_c/src/engine/automap.c:224-225 | the picture does not depend on which endpoint comes first, for every edge that can be drawn |
| AutomapEdge.EdgeTwiceRestores | roth_c/src/engine/automap.c:224-225 | clip then draw, twice in XOR mode, restores the buffer, for every edge that can be drawn |
| AutomapEdge.VisibleEdgeLeavesInk | roth_c/src/engine/automap.c:224-225 | a visible edge leaves at least one pixel of the colour inside the rectangle |
| AutomapEdge.ScreenExact | roth_c/src/engine/automap.c:210-222 | a projected coordinate is the centre plus the scaled offset rounded down, modulo 2^16: the 32-bit product and the unsigned shift do not show |
| AutomapEdge.WorldPoint | roth_c/src/engine/automap.c:205-238 | a world point is drawn left of the screen centre by its scaled offset to the right of the world centre, and below it by its scaled offset above, as first and as second endpoint |
| AutomapEdge.MapState.WorldEdgeTail | roth_c/src/engine/automap.c:205-226 | the buffer after an edge in relative coordinates is the image of the projected edge, for every edge that is rejected or can be drawn |
| AutomapEdge.MapState.WorldEdge | roth_c/src/engine/automap.c:229-238 | the same from world coordinates, relative to the world centre in 16 bits |
| ChoiceMenu.SkipLines | roth_c/src/engine/dbase100.c:515-516 | the lines of a nested menu raise the finder's counter by the number of those without bit 31, whatever their Ifs say |
| ChoiceMenu.SkipBranches | roth_c/src/engine/dbase100.c:517-524 | the branches of a nested menu lower it by their number and by the marked lines below them, and stop the scan exactly when the counter is smaller |
| ChoiceMenu.SkipBody | roth_c/src/engine/dbase100.c:511-526 | a branch body lowers the counter by its marked lines, at any nesting depth, and leaves it where it was when it has none |
| ChoiceMenu.FindsBranch | roth_c/src/engine/dbase100.c:502-528 | the scan lands on the body of branch i if and only if it starts at i plus the marked lines nested before |
| ChoiceMenu.BuildLines | roth_c/src/engine/dbase100.c:678-717 | the builder records exactly the offered lines, numbered among all lines, and stops at the first branch |
| ChoiceMenu.OfferedInOrder | roth_c/src/engine/dbase100.c:695-712 | the recorded line numbers rise strictly and stay within the menu |
| ChoiceMenu.ChosenBranch | roth_c/src/engine/dbase100.c:665-733 | builder and finder together: offered choice j runs the branch of its line, for every menu tree, if and only if the line counter started at the number of marked lines nested before that branch |
| ChoiceMenu.OfferedLineRunsItsBranch | roth_c/src/engine/dbase100.c:678-717 | the builder records line i of any menu tree if and only if it has text for the room the earlier offered lines leave and no If in front, or a last one that is an If on a set flag or an If-NOT on a clear one; and its branch is found if and only if the counter started right |
| ChoiceMenu.MarkedLineMisleads | roth_c/src/engine/dbase100.c:512-524 | the smallest case: one nested line, found or not by bit 31 of its word |
| ChoiceMenu.StaleCounterMisses | roth_c/src/engine/dbase100.c:502-528 | with a stale counter and no marked lines the scan never lands on the right branch |
| ChoiceMenu.Choices.BuildMenu | roth_c/src/engine/dbase100.c:665-723 | the loop writes the table of Build, and publishes cursor, remaining count, number of choices and mode only when a choice is offered and records are left |
| ChoiceMenu.Choices.ExecuteBranch | roth_c/src/engine/dbase100.c:502-528 | the chain to execute is where FindBranch points, with the records left behind it; the pending choice is consumed either way |
| Segmenter.PiecesSplit | roth_c/src/engine/dbase100.c:64-91 | pieces are contiguous, non-empty, end with a kept record, hold no other one, and leave no kept record out |
| Segmenter.LiveEndFacts | roth_c/src/engine/dbase100.c:68-85 | published are the pieces of the records before the first If that fails, and of no others |
| Segmenter.PublishedIsTheSplit | roth_c/src/engine/dbase100.c:41-100 | both together, for every record sequence, count and bitmap |
| Segmenter.PiecesEndAtEffects | roth_c/src/engine/dbase100.c:61-107 | where the scan ends, at which If its live part ends, and that a live record ends a piece if and only if it has one of the eleven effect opcodes, all in terms of top bytes and flags |
| Segmenter.FilterActiveRecords | roth_c/src/engine/dbase100.c:41-100 | the loop publishes exactly Published, advances the cursor by the records consumed and returns the count minus them |
| Segmenter.OneRecord | roth_c/src/engine/dbase100.c:56-91 | one turn: the entries written so far and those still to come are the same list before and after |
| EntityDef.ScatterRefines | roth_c/src/engine/dbase100.c:136-178 | one byte-offset write takes a struct that represents a list of sub-records to one that represents the list with the new one behind it: scalars last-wins, lists in order, flags or-ed |
| EntityDef.BuildRefines | roth_c/src/engine/dbase100.c:117-181 | while the arrays fit, the writes of a whole block stay inside the struct and represent its sub-records |
| EntityDef.AppendRead | roth_c/src/engine/dbase100.c:151-163 | an append changes the count word and the first free entry and no other word |
| EntityDef.OverflowClobbers | roth_c/src/engine/dbase100.c:151-163 | an append to a full array lands on the word behind it, and the struct goes on representing its sub-records if and only if that word held the value already |
| EntityDef.WalkEnds | roth_c/src/engine/dbase100.c:125-132 | the block walk goes on forever if and only if it reaches a skipped block of fewer than four bytes |
| EntityDef.SubRecordsOfTriggers | roth_c/src/engine/dbase100.c:125-136 | reading back a record: of any blocks in front of a terminator the walk takes exactly the sub-records of the first one with code 0x0a |
| EntityDef.ScatterInto | roth_c/src/engine/dbase100.c:141-178 | the in-place switch writes exactly Scatter |
| EntityDef.BuildEntityDef | roth_c/src/engine/dbase100.c:117-181 | the struct afterwards is the writes of the first AsMonster block in order, or blank when there is none, and represents the sub-records when the arrays fit; the result says which |
| ActionQueue.TurnKeepsInv | roth_c/src/engine/dbase100.c:486-497 | running slot 0, whatever it and chains nested in it requeue, keeps the queue invariant: finished and waiting jobs in order of arrival, every waiting job stored with the point to resume from |
| ActionQueue.SubmitKeepsInv | roth_c/src/engine/dbase100.c:431-446 | so does evaluating a chain now, queueing it or refusing it; a nested requeue it leaves behind is a job of its own |
| ActionQueue.DrainKeepsInv | roth_c/src/engine/dbase100.c:460-478 | so does draining |
| ActionQueue.RunKeepsInv | roth_c/src/engine/dbase100.c:427-497 | over every sequence of evaluations and advances at most eight jobs wait, no accepted job is lost or finished twice, and they finish in order of arrival |
| ActionQueue.AdvanceKeepsTheOthers | roth_c/src/engine/dbase100.c:484-497 | a job that is not at the head keeps its slot contents and its turn |
| ActionQueue.KeptFlagsAreStale | roth_c/src/engine/dbase100.c:789-793 | a chain that opcode 0x1a suspends from an empty queue keeps its flags if and only if slot 0 held them already |
| ActionQueue.DialogueQueue.Requeue | roth_c/src/engine/dbase100.c:946-952 | slot 0 and the count after a requeue |
| ActionQueue.DialogueQueue.RunChain | roth_c/src/engine/dbase100.c:946-952 | slot 0 and the count after all requeues of one chain run |
| ActionQueue.DialogueQueue.RunHead | roth_c/src/engine/dbase100.c:462-471 | run slot 0 and pop it when it finished: Turn on the job history |
| ActionQueue.DialogueQueue.Pop | roth_c/src/engine/dbase100.c:467-471 | the slots move up by one and the last one keeps its contents |
| ActionQueue.DialogueQueue.RunAll | roth_c/src/engine/dbase100.c:452-480 | draining the slots is Drain on the job history; the flags are those of the last chain after its teardown, so no window stays open but over a voice in state 1; the draining flag is clear again |
| ActionQueue.TeardownMeaning | roth_c/src/engine/dbase100.c:455-459 | which flags a cut voice clears, and which it leaves |
| ActionQueue.DialogueQueue.FinishEval | roth_c/src/engine/dbase100.c:291-296 | the drain flag is cleared, and the overlay closes once neither the queue nor a choice needs it |
| ActionQueue.DialogueQueue.EvalOrQueue | roth_c/src/engine/dbase100.c:427-447 | run now, queue, or refuse at eight, as Apply says of the job history; a refused job leaves no trace |
| ActionQueue.DialogueQueue.AdvanceQueue | roth_c/src/engine/dbase100.c:484-497 | one entry is run and popped unless a window is open or the queue is empty; the last one finishes the evaluation |
| RequeueTrace.RunTags | roth_c/src/engine/dbase100.c:427-497 | the traced cells hold exactly what the queue's eight slots hold, over every sequence of evaluations and advances |
| RequeueTrace.OneFate | roth_c/src/engine/dbase100.c:427-497 | every entry ever written to a slot is waiting, was run, or is lost, and no two of these |
| RequeueTrace.RunHeadLoses | roth_c/src/engine/dbase100.c:462-471 | running the head loses exactly the requeues of its nested chains: each but the last write is overwritten, the last is popped or overwritten by the chain's own |
| RequeueTrace.SubmitLoses | roth_c/src/engine/dbase100.c:427-446 | evaluating a chain loses exactly the writes that a later write of the same run covers, and only when it runs at once |
| RequeueTrace.RunLoses | roth_c/src/engine/dbase100.c:427-497 | over every sequence of evaluations and advances an entry is lost if and only if one of its steps throws it away in one of those ways |
| Interpreter.ScanRecord | roth_c/src/engine/dbase100.c:641-942 | no opcode in scan mode changes the bitmap, the inventory, the queue or the choice record; what it enters is a scan too, and its return value is not the requeue code |
| Interpreter.ScanStep | roth_c/src/engine/dbase100.c:625-638 | one step of the machine, with the returns through callers it causes, keeps the same |
| Interpreter.ScanChangesNothing | roth_c/src/engine/dbase100.c:607-953 | the same over any number of steps, through opcode 0x1d jumps and opcode 0x0b recursion |
| Interpreter.ScanOfChain | roth_c/src/engine/dbase100.c:607-953 | in particular for a scan of any chain from any world |
| Interpreter.ScanStopsAtEffects | roth_c/src/engine/dbase100.c:666-911 | a scan returns from a record if and only if it is one of the six effectful opcodes or an If in front of a menu line, and then answers 1 and does nothing |
| Interpreter.RequeueGuard | roth_c/src/engine/dbase100.c:641-942 | a dispatched record requeues if and only if its operand is not zero, the chain is no scan, and it is one of six opcodes with its window or panel test true |
| Interpreter.RequeueResumesTheRecord | roth_c/src/engine/dbase100.c:946-952 | every requeue stores the chain as it stood before the record was fetched, so the same record is dispatched again with the same count |
| Interpreter.RequeuedRun | roth_c/src/engine/dbase100.c:607-953 | a run that returns the requeue code was in its outermost chain, at a record that requeued, and slot 0 holds that chain from that record on |
| OpcodeRuns.FlagGate | roth_c/src/engine/dbase100.c:802-808 | If and If-NOT: the chain goes past one exactly when the flag is set, or clear, and else answers 0 |
| OpcodeRuns.CountGate | roth_c/src/engine/dbase100.c:810-832 | the inventory gates: more, not more, another number, the same number |
| OpcodeRuns.SelectorGate | roth_c/src/engine/dbase100.c:870-875 | the selector gate passes by bit 0 of the caller's flags, and in a scan |
| OpcodeRuns.SkipGate | roth_c/src/engine/dbase100.c:654-662 | an If in front of a plain record takes the chain to that record or past it |
| OpcodeRuns.FlagRecord | roth_c/src/engine/dbase100.c:760-765 | 0x04 sets its flag, 0x84 clears it, and no other flag and nothing else changes |
| OpcodeRuns.ItemRecord | roth_c/src/engine/dbase100.c:767-772 | 0x11 gives the item and 0x91 takes it |
| OpcodeRuns.JumpRecord | roth_c/src/engine/dbase100.c:877-889 | a taken jump goes on behind the header with the records its byte length counts and a fresh line counter; another is skipped |
| OpcodeRuns.RandomRecord | roth_c/src/engine/dbase100.c:742-757 | the picked piece runs as a chain of its own, and the chain goes on behind all pieces |
| OpcodeRuns.CountedRecord | roth_c/src/engine/dbase100.c:733-842 | the records that only count, make a sound, stage the topic or end the chain with success |
| OpcodeRuns.SilentRecord | roth_c/src/engine/dbase100.c:783-910 | commands, health and reduction with their signed 16-bit operands; none of them is counted |
| OpcodeRuns.SwitchRecord | roth_c/src/engine/dbase100.c:891-901 | the two switches of 0x2d |
| OpcodeRuns.WindowRecord | roth_c/src/engine/dbase100.c:855-868 | the text window with the drain before it, the end of the evaluation and the flag it raises |
| OpcodeRuns.ShowRecord | roth_c/src/engine/dbase100.c:912-943 | when an image or a cutscene plays, and what that leaves |
| OpcodeRuns.ChunkRecord | roth_c/src/engine/dbase100.c:785-800 | the chunk record's calls, by the audio state and the loader's answer |
| OpcodeRuns.SkippedRecord | roth_c/src/engine/dbase100.c:625-651 | operand zero and every other opcode are skipped |
| OpcodeRuns.ChainEnds | roth_c/src/engine/dbase100.c:634-638 | a chain goes on while records are left, and at its end answers what it counted, with its topic loaded |
| OpcodeRuns.CallerGoesOn | roth_c/src/engine/dbase100.c:755-757 | a caller ignores the answer of a random piece and counts one; a chosen branch answers for its caller |
| OpcodeRuns.TopicLoaded | roth_c/src/engine/dbase100.c:305-320 | a staged topic is loaded once, with the audio calls its loading asks for, and cleared |
| OpcodeRuns.OverlayCloses | roth_c/src/engine/dbase100.c:291-296 | the end of an evaluation closes the overlay unless an action waits or a choice is pending |
| OpcodeRuns.ConditionRun | roth_c/src/engine/dbase100.c:607-953 | a run over any number of gates in front of a record at which it succeeds evaluates their conjunction: 1 when all are open, else 0, and nothing changed |
| OpcodeRuns.JumpIsEvaluation | roth_c/src/engine/dbase100.c:877-889 | a jump to a record of two or more words continues, over every number of steps, exactly as an evaluation of that record would; a shorter one ends the chain |
| FlagRuns.FlagAfterRun | roth_c/src/engine/dbase100.c:760-765 | over every run, through jumps, menus and nested chains, a flag is set at the end if and only if a 0x04 set it and no 0x84 cleared it later, or it was set at the start and never cleared |
| FlagRuns.StockAfterRun | roth_c/src/engine/dbase100.c:767-772 | conservation over every run: as many of an item as before, plus the 0x11 executed for it, minus the 0x91 that found one |
| FlagRuns.RecordKeeps | roth_c/src/engine/dbase100.c:641-942 | no other record touches flags or inventory |
| QueueRuns.StepQueue | roth_c/src/engine/dbase100.c:944-952 | one step of the machine changes the queue by its requeue and nothing else |
| QueueRuns.RunIsOutcome | roth_c/src/engine/dbase100.c:607-953 | any finished run writes its nested requeues and its own to slot 0 in order; a run that completes leaves the queue alone when no nested chain requeued, and an empty queue stays empty only then |
| QueueRuns.NestedIff | roth_c/src/engine/dbase100.c:607-953 | a run has a nested requeue if and only if at some step a nested chain stands at a record that requeues |
| QueueRuns.RunPuts | roth_c/src/engine/dbase100.c:607-953 | the slots after a run of the head are those of the trace, so the trace's writes are the run's |
| QueueRuns.QueuedRunLoses | roth_c/src/engine/dbase100.c:484-497 | running the head of the queue loses a requeue if and only if a chain nested in it meets a record that requeues |
| QueueRuns.UnnestedRunsKeepAll | roth_c/src/engine/dbase100.c:607-953 | in scripts without random choices and menu lines no run has a nested requeue |
| QueueRuns.RequeueIsLost | roth_c/src/engine/dbase100.c:484-497 | a queued chain that opens a window, picks a nested chain that requeues, and completes: the requeued entry is written to slot 0, never waits after the pop and never runs |
| MenuRuns.EntersBuilder | roth_c/src/engine/dbase100.c:655-665 | a line, or the only If of one whose bit 31 is clear, sends the dispatch into the builder |
| MenuRuns.ShownLine | roth_c/src/engine/dbase100.c:682-712 | in a run, line i is shown if and only if it has text for its room and no If in front, or a last one that holds on the run's flags |
| MenuRuns.HiddenMenuPassed | roth_c/src/engine/dbase100.c:718-735 | a menu without a shown line is passed with one counted and all its lines on the counter |
| MenuRuns.CutMenu | roth_c/src/engine/dbase100.c:674-716 | a chain that ends inside a menu answers 1; without records left a line only counts |
| MenuRuns.OnlyChoiceRunsItsBranch | roth_c/src/engine/dbase100.c:718-733 | dispatching a menu that offers one line enters exactly the body of that line's branch, with the records left behind it, if and only if the line counter stands at the marked lines nested before it, leaves no choice pending, and closes window and context |
| MenuRuns.PublishedChoicesFindTheirBranches | roth_c/src/engine/dbase100.c:718-727 | dispatching a menu that offers several lines publishes the choice: each entry finds the branch of its line, from the published cursor, if and only if the line counter stands at the marked lines nested before that branch |
| MenuRuns.RecordCounts | roth_c/src/engine/dbase100.c:625-720 | a taken jump starts the line counter again, a menu adds the lines it passed, any other record leaves it |
| MenuRuns.CounterOfRun | roth_c/src/engine/dbase100.c:607-953 | over every run the line counter is the number of lines the chain passed since it started or last jumped |
| MenuRuns.SecondMenuMisses | roth_c/src/engine/dbase100.c:665-733 | a run that passes a hidden menu, offers the only line of a second one and ends without executing its branch |
| AbiHistory.ClassMeaning | tools/sdk_check.py:182-251 | a change that is not breaking keeps every field and slot and shrinks no struct; identical means equal up to growth of a struct (both directions) |
| AbiHistory.GateVerdict | tools/sdk_check.py:182-277 | the verdict in full: a pair passes if and only if something was lost and the major rose, or only added and the minor rose alone, or neither and the version is the same |
| AbiHistory.EveryChangeHasABump | tools/sdk_check.py:262-274 | for every pair of contents there is a version that passes |
| AbiHistory.FieldMapMeaning | tools/sdk_check.py:200-201 | a name has the offset, size and kind of its last field |
| AbiHistory.SlotMapMeaning | tools/sdk_check.py:233-234 | an id has its last slot |
| AbiHistory.VersionsRise | tools/sdk_check.py:262-274 | versions never fall along a gated history |
| AbiHistory.LaterServes | tools/sdk_check.py:182-277 | within a major version a later release has everything of an earlier one, and no smaller struct |
| AbiHistory.SameVersionServes | tools/sdk_check.py:262-265 | releases of one version serve each other in both directions |
| AbiHistory.LoadRuleSound | sdk/include/roth_sdk.h:27 | over every gated history, a plugin of release i finds every field and slot, unchanged, in every host release j that loads it, before or after |
| AbiHistory.LoadRuleExact | sdk/include/roth_sdk.h:27 | for a plugin and a host of given versions every gated history serves the plugin if and only if the majors agree and the plugin's minor is at most the host's |
| AbiHistory.LoadedSizes | tools/sdk_check.py:182-277 | a loading host's structs are as large as the plugin's if and only if the host is not older or no struct changed its size between the two |
| AbiHistory.LoadRuleCovers | tools/sdk_gen.py:407-474 | for descriptors whose sizes follow from their fields the load rule covers sizes in both directions of time |
| AbiHistory.LoadedTableIsPrefix | tools/sdk_check.py:281-316 | with the order gate too, the plugin's engine table is a prefix of the host's |
| AbiHistory.OrderOverTime | tools/sdk_check.py:281-316 | the order of exposure of any release is a prefix of that of every later one |
| AbiHistory.GrowthIsInvisible | tools/sdk_check.py:206-218 | with a size that does not follow from the fields an older host would load a plugin whose struct is larger |
| Baseline.DirectoryOrder | tools/sdk_check.py:74-79 | for all minors, directories sort by the minor read as a decimal fraction, the shorter first when those are equal (both directions) |
| Baseline.EqualLengthOrder | tools/sdk_check.py:74-79 | between minors of as many digits string order is version order |
| Baseline.OneDigitMinors | tools/sdk_check.py:74-79 | in particular for one digit |
| Baseline.TwoDigitMinorSortsFirst | tools/sdk_check.py:74-79 | a two-digit minor sorts before a one-digit one if and only if its first digit is smaller |
| Baseline.LatestIsLast | tools/sdk_check.py:74-79 | the modelled choice is the last directory of the sorted list |
| Baseline.LatestIsNewest | tools/sdk_check.py:74-79 | with releases 0..n present the choice is release n if and only if every digit of n before the last is a nine |
| Baseline.LatestBaselineServes | tools/sdk_check.py:222-277 | release j serves plugins of release i in every history gated this way if and only if i is on its path of baselines |
| Baseline.PathBreaksAtEleven | tools/sdk_check.py:74-79 | up to release 10 every earlier release is on that path, and release 10 is not on that of release 11 |
| AbiHistory.ClassifyFields | tools/sdk_check.py:200-218 | the field loops set the two flags exactly when some field or the size says so |
| AbiHistory.ClassifyStructs | tools/sdk_check.py:182-219 | likewise over all structs of two releases |
| AbiHistory.GateAbiDiff | tools/sdk_check.py:222-277 | the gate passes exactly when the bump policy holds, which GateVerdict spells out |
| AbiHistory.GateExposureOrder | tools/sdk_check.py:281-316 | the gate passes if and only if every slot of the baseline has its id and name at the same place of the current table |
| PluginLayout.LayoutSound | tools/sdk_gen.py:160-177 | offsets are naturally aligned, fields do not overlap and end inside the struct |
| PluginLayout.RowMeaning | tools/sdk_gen.py:146-176 | size, kind and offset of a row by its declaration: the first aligned place behind the field before it |
| PluginLayout.SizeMeaning | tools/sdk_gen.py:176 | the struct ends at the first multiple of four behind its last field |
| PluginLayout.LayoutSizeFollows | tools/sdk_gen.py:160-177 | the size of every struct laid out this way follows from its fields |
| PluginLayout.PrefixStable | tools/sdk_gen.py:160-177 | fields added behind leave the others where they are |
| PluginLayout.AddedOffsets | tools/sdk_gen.py:160-177 | a 4-byte field added behind lands exactly at the old struct size; any field reaches it if and only if it is 4 bytes or the unpadded end is a multiple of four |
| PluginLayout.GrowthClass | tools/sdk_check.py:200-218 | layout and classifier agree: adding fields is breaking if and only if the first is a uint16 that slips into the old padding, else an append |
| PluginLayout.GrowthRelease | tools/sdk_check.py:222-251 | the same for a whole release that changes nothing else |
| PluginLayout.ComputeLayout | tools/sdk_gen.py:146-177 | the loop computes the rows and the size of StructOf |
| Resolver.ResolvedOrSkipped | tools/sdk_common.py:178-244 | every prototype is resolved or skipped, exactly once |
| Resolver.ResolvedVasDistinct | tools/sdk_common.py:178-244 | no address is claimed twice, and all are corpus addresses |
| Resolver.ExactNamesWin | tools/sdk_common.py:196-207 | a corpus name gets its own address whatever comments and suffixes say, and resolution by name means exactly that |
| Resolver.SuffixMeaning | tools/sdk_common.py:169-175 | an underscore and four to six hexadecimal digits at the end of a name stand for that address in lower case, if the corpus has it |
| Resolver.SuffixSplits | tools/sdk_common.py:169-175 | and a name that stands for an address ends like that |
| Resolver.CandidateMeaning | tools/sdk_common.py:221-230 | the first comment address the corpus has, else the suffix |
| Resolver.FirstClaimWins | tools/sdk_common.py:217-242 | in the second pass a prototype gets its candidate if and only if no exact name owns it and no earlier prototype claims it; else it is skipped |
| Resolver.BuildResolution | tools/sdk_common.py:178-244 | the two passes compute Resolve |
| Identity.NoCollisions | tools/sdk_ids.py:48-60 | with distinct addresses the seeder reports no collision and records every engine name |
| Identity.RowMeaning | tools/sdk_ids.py:62-83 | the canonical name is the engine's if it declares one; the aliases are, each once, another corpus name and the names that collided |
| Identity.IdOfAddress | tools/sdk_ids.py:76 | the id of an address is its value: reading the digits written for n gives n |
| Identity.GateMeaning | tools/sdk_check.py:82-174 | what the gate asks of the table, quantifier by quantifier, for distinct addresses and a baseline with unique ids |
| Identity.GateNamesAgree | tools/sdk_check.py:121-125 | the gate's own way of collecting engine names gives the seeder's map |
| Identity.SeedPassesGate | tools/sdk_ids.py:43-84 | the seeded table has no collisions and passes the id gate against the same sources |
| Identity.NamesPermanent | tools/sdk_check.py:145-165 | over every gated history a name of an id is a name of that id, and of no other, in every later release |
| Identity.ReseedKeeps | tools/sdk_ids.py:62-83 | a re-seed keeps all names of the earlier table if and only if no function loses an engine name that is not its corpus name |
| Identity.ReseedPassesGate | tools/sdk_check.py:82-174 | and passes the gate against the release before it under exactly that condition |
| Identity.SecondRenameFails | tools/sdk_check.py:132-137 | after the second rename of a function, with prototypes as the seeder receives them, the re-seeded table fails the gate |
| Identity.Build | tools/sdk_ids.py:43-83 | the seeding loops compute the rows and collisions of the specification |
| Identity.CheckNames | tools/sdk_check.py:95-103 | the dictionary loop answers whether every name stands for one id |
| Identity.CheckBaseline | tools/sdk_check.py:148-165 | the baseline loop answers whether an id or a name was lost |
| Identity.GateIdInvariants | tools/sdk_check.py:82-174 | the gate passes exactly when all five conditions hold |
| OverrideChain.NextDiscipline | tools/sdk_gen.py:130-137 | a next call enters the following slots in order, each once, and the base only at the end |
| OverrideChain.BodyDiscipline | tools/sdk_gen.py:130-137 | so do all next calls of a callback together, however many it makes on the shared cursor |
| OverrideChain.DispatchDiscipline | tools/gen_override_dispatch.py:74-86 | one dispatch enters exactly slots 0..m-1, in order and each once, and the base only after all n, whatever the callbacks do |
| OverrideChain.BodyCalls | tools/sdk_gen.py:130-137 | a callback sees the results of its next calls in the order it made them, each call starting at the cursor the one before left |
| OverrideChain.DispatchCalls | tools/gen_override_dispatch.py:74-86 | so a dispatch answers what the first callback makes of its calls' results, in their order |
| OverrideChain.DispatchComposes | tools/gen_override_dispatch.py:74-86 | when every callback calls next once, the dispatch is the composition of all callbacks around exactly one base call |
| OverrideChain.Chain.CallNext | tools/sdk_gen.py:130-137 | the mutable cursor follows the specification: result, cursor and everything entered |
| OverrideChain.Chain.DispatchCall | tools/gen_override_dispatch.py:74-86 | the thunk with the cursor at 1 is Dispatch |
| BlockList.LinkRepresents | roth_c/src/engine/dos_runtime.c:119-130 | pushing a block keeps links and head representing exactly the live blocks, newest first |
| BlockList.UnlinkRepresents | roth_c/src/engine/dos_runtime.c:175-183 | removing any live block does too |
| BlockList.PagesCover | roth_c/src/engine/dos_runtime.c:138-139 | the page count is whole pages, covers header and data if and only if the sum did not wrap, and is never a whole page more |
| BlockList.ParagraphsCover | roth_c/src/engine/dos_runtime.c:158 | likewise for paragraphs |
| BlockList.PagesHold | roth_c/src/engine/dos_runtime.c:138-148 | on an aligned base the requested pages hold the whole block if and only if their sum did not wrap |
| BlockList.ParagraphsHold | roth_c/src/engine/dos_runtime.c:158-165 | and so do the paragraphs |
| BlockList.RunBalanced | roth_c/src/engine/dos_runtime.c:136-190 | over every sequence of allocations and frees, in the books that the heap keeps, each block is live or was given back once, through the call of its own kind with its own handle |
| BlockList.RunReleasesAnswers | roth_c/src/engine/dos_runtime.c:136-190 | over every legal run each release gives back the handle or selector that the OS answered when that block was allocated, by the call of its kind |
| BlockList.BlockHeap.LinkBlock | roth_c/src/engine/dos_runtime.c:119-130 | the writes of the shared link tail, with the first data dword cleared |
| BlockList.BlockHeap.AllocDpmiBlock | roth_c/src/engine/dos_runtime.c:136-149 | the OS is asked for Pages(size) bytes; the new head is at the least multiple of four from the base on, its header words are the answered handle, the size and kind 1, the first data dword is clear; null and no change when it refuses |
| BlockList.BlockHeap.AllocDosBlock | roth_c/src/engine/dos_runtime.c:155-166 | likewise at the answered segment, with the answered selector and kind 2, asked for in Paragraphs(size) |
| BlockList.BlockHeap.FreeBlock | roth_c/src/engine/dos_runtime.c:172-190 | the freed block leaves the list and goes back by its own OS call; null changes nothing |
| BlockList.BlockHeap.Perform | roth_c/src/engine/dos_runtime.c:119-190 | any legal sequence of allocations and frees leaves the memory representing the live blocks of its books, which RunBalanced is about |
| ImageBuild.SlotDecodes | roth_c/src/data/obj3_build.c:39-46 | every relocation slot of the image decodes to the base of its object plus its offset modulo 2^32 |
| ImageBuild.BasesMoveSlots | roth_c/src/data/obj3_build.c:39-46 | when the base of its object moves by d, the pointer in a slot moves by d modulo 2^32, whatever the other bases do |
| ImageBuild.OutsideSlots | roth_c/src/data/obj3_build.c:32-38 | every other byte is its region's, or zero |
| ImageBuild.OrderIrrelevant | roth_c/src/data/obj3_build.c:33-46 | the image does not depend on the order of the two tables |
| ImageBuild.BasesOnlyMoveSlots | roth_c/src/data/obj3_build.c:39-46 | builds for two sets of bases differ only in slots |
| ImageBuild.BuiltImageMatches | roth_c/src/data/obj3_owned.c:4219-4231 | every region of a built image satisfies the masked comparison |
| ImageBuild.RegionCompare | roth_c/src/data/obj3_owned.c:4219-4231 | 0 exactly when all unmasked bytes match, else one more than the first offset that does not |
| ImageBuild.Obj3Build | roth_c/src/data/obj3_build.c:30-47 | the buffer after the three loops is Image |

## Left out

- AutomapClip.NoVisibleLineDropped: under exact 16-bit differences of the coordinates; of the wrapping segments those between the columns are decided (AutomapNear.ColumnsExact), horizontal ones and those at most one column wide are kept (AutomapNear.FlatOrNarrowKept), and two others are given.
- AutomapNear.AcceptedIsNear: one direction for segments that cross both columns, because the second interpolation starts from the rounded first one.
- AutomapDraw.Framebuffer.DrawLine: every pixel is mapped and the sign test is right (AutomapSign.SignExactly says when); the original forms any address and draws on with a wrong sign.
- Automap: the walks over doors, entities and walls, the marker rotation and the choice of scale; only the edges they draw are modelled.
- ChoiceMenu.ChosenBranch: for menus whose branch heads have bit 31 clear and whose branches are as many as their lines; the text buffer's contents are not modelled, a line is the length its read returns.
- ChoiceMenu.Choices.BuildMenu: at most as many offered lines as the table has entries; the original writes past its sixteen.
- Segmenter.FilterActiveRecords: at most as many pieces as the output has room for, and a scan that stays inside the records; the original checks neither.
- EntityDef.BuildEntityDef: for writes that stay inside the struct and a walk that ends at a block inside the record; WalkEnds says when the walk does not end.
- QueueRuns.RunIsOutcome: the called subsystems leave the queue alone; a drain that the interpreter itself starts while it runs a queued chain is not modelled.
- ActionQueue.DialogueQueue.RunAll: the outcomes given are enough to empty the queue; the original goes on until it is.
- FlagRuns.FlagAfterRun: the called subsystems leave the progress flags alone, the nested drain among them, and the bitmap is loaded; records are 32-bit words.
- FlagRuns.StockAfterRun: giving and taking one item is what the two item calls do, and the others leave the inventory alone.
- OpcodeRuns.ConditionRun: asking for the stock of an item changes nothing, and no topic is staged.
- Interpreter: a machine on values, because the original's loop may never end (opcode 0x1d); its globals in place are fields of a world value. Sounds, windows, cutscenes, items, chunk loading and the nested queue drain are opaque functions of the world.
- Interpreter: a record outside memory, more than sixteen offered lines or 128 pieces ends in a fault, where the original reads or writes out of bounds.
- Interpreter.RequeueResumesTheRecord: a requeue inside a random sub-chain is stored too, but the chain around it ignores the result and goes on, as in the original.
- Dialogue files: opening, decoding and priming of voice lines; a line is the length that its read returns.
- Baseline.LatestIsNewest: for one major version with a directory for every minor from zero; with several majors the directories sort by the major first, as strings.
- MenuRuns.PublishedChoicesFindTheirBranches: at most sixteen offered lines, as the table holds, and a window call that leaves the published choice alone.
- MenuRuns.EntersBuilder: with two or more Ifs in front of the first line the look-ahead enters the builder at a later record or skips one; that case is not stated.
- SDK tooling: parsing of headers and JSON, message texts, resolver warnings, the sort of the seeded rows by id, and the gates on drift, compilation, probing and override validation.
- Resolver: corpus addresses are taken as lower case; the numeric ids of distinct addresses are assumed distinct where ids matter.
- OverrideChain: the registry that sorts the slots, and the loader; at least one slot is taken as given. A callback decides by its arguments and earlier results, and calls next a bounded number of times.
- BlockList.BlockHeap.AllocDpmiBlock: the memory granted holds the block; a request whose page count wrapped gets less, and the original links it all the same (BlockList.PagesHold says when).
- BlockList.BlockHeap.AllocDosBlock: likewise for a wrapped paragraph count (BlockList.ParagraphsHold).
- BlockList: memory is a map of aligned dwords; the bytes a client writes into its block are not modelled, and the OS grants memory that is not in use and holds the block.
- DOS runtime: DPMI calls, exception and critical-error handlers, the timer, the command tail and error codes.
- ImageBuild: regions and slots are taken to be in bounds and, for the lemmas about contents, disjoint among themselves; the tables' data is not part of this model.
