# A model of lesh's line editor and its scheduler

lesh is a POSIX shell with its own line editor. These Dafny modules model the parts of it that are state
machines or fast forms of something simpler, and prove that they are what their comments promise:

- **The blitter** (`Styles`, `Sgr`, `Terminals`, `Surfaces`, `Blitter`). The terminal is a machine: a grid
  of cells, a cursor with a pending wrap, a pen, and for each row whether a wrap joined it to the next. The
  emitter is a class that believes something about that machine, and every operation it sends is executed on
  a ghost copy of it. An update leaves the terminal showing exactly the desired surface, a repaint also joins
  exactly the soft rows, no erase runs under a pending wrap, and nothing relies on the edges of the screen. The pen sequences are rendered to parameter
  text and read back by the reader the prompt uses.
- **The scheduler and its channel** (`FiberModel`, `Deliveries`, `Scheduling`, `Slots`, `Awaiting`). Fibers are
  linked into an intrusive list with counts per group and a queue of deferred wakes. The class is proved against
  a model on sequences, and fairness, delivery and the channel's safety are proved of the model, for every run.
- **Arithmetic expansion** (`Integers`, `Expressions`, `Arithmetic`, `Precedence`, `Parentheses`). The evaluator
  computes while it parses, with its effects switched off in operands a short circuit skips. It is proved against
  a parser to a tree and an evaluator of trees, and the parser against a printer that writes as few parentheses as
  any text must have.
- **The input decoder** (`Utf8`, `Decoder`, `InputDecoding`): UTF-8, CSI, SS3 and bracketed paste over one held
  prefix. How input is cut into reads does not matter.
- **Decorations** (`Decorating`): the edge sweep paints what painting every span in order shows.
- **Edits** (`History`, `Editing`, `Committing`, `Typing`): one replacement for each action, merged typing, undo and
  redo.
- **Layout** (`Sheets`, `Layouts`, `Pools`, `Rendering`): the walker that wraps a line into rows, its window and its
  cells, and the loop that hands frame after frame to the blitter, up to what the terminal shows.
- **Keymaps** (`Keymaps`, `Resolution`, `Notation`): the sorted table, the walk of the stack, the key notation.
- **Grapheme boundaries** (`Graphemes`, `PropertyTables`): three small states against rules that look back
  without bound, and the tables those rules read.

Objects whose methods update fields are classes (`Blitter.Emitter`, `Scheduling.Scheduler`, `Slots.Slot`,
`Awaiting.AwaitSlot`, `Arithmetic.Evaluator`, `InputDecoding.InputDecoder`, `Decorating.Decorations`,
`Editing.Editor`, `Layouts.Walker`, `Rendering.Renderer`, `Keymaps.Keymap`, `Pools.Pool`, `Sgr.Parameters`), each
with an invariant and an abstract value that its methods are specified by. Text is a sequence of bytes, except in
arithmetic, key notation and SGR parameters, where it is a `string` of one character for each byte.

## Where the code does not do what its comments say

Each of these is proved as an exact condition.

- An update is promised to start with the cursor where the previous surface has it, and a size change to be a
  repaint (src/leshper/blit.h:89-90, 119-120). The repaint begins where the cursor is, as if that were the
  frame's first cell. `Blitter.Update`, `Blitter.MissedFrame`.
- A frame that a repaint replaces is found by laying the line out again, without its virtual text and without the
  pager (src/ui/loop.cpp:1632-1654). When a pager closes over a line longer than what it left, that is not where
  the frame is. `Rendering.TopIsKnownIff`, `Rendering.TopIsMissed`, `Rendering.Renderer.Render`.
- The grammar is to be C's (src/runtime/arithmetic.cpp:93-94). The middle of `?:` takes no comma list: `1?2,3:4` is
  refused. And there is no `--`: `5--3` is `5-(-3)`. `Parentheses.ForCParses`, `Precedence.PrintedParses`.
- Runs of plain typing are to be one undo step (src/leshper/undo.h:199-210). In front of text that begins like a
  keystroke, the difference that is committed begins that much further on, and inserts the key's bytes begun as
  much further on. Two keystrokes are one step exactly when neither is torn by that and both begin equally far on:
  `a`, `b` in front of `a` are two steps, and so are `é`, `è` in front of `ê`, which are committed as halves of
  characters. `Typing.KeystrokesJoin`, `Typing.CharactersJoin`, `Typing.TwoSteps`, `Typing.HalfCharacters`.
- Too many kinds of codepoint are to be reported (tools/gen_unicode_tables.py:315-317). The slot of the 257th does
  not fit the byte it is stored in, and that error comes first. `PropertyTables.BuildRecords`.
- The frame last painted is promised to be the next update's starting point (src/leshper/blit.h:87-104). It is,
  unless the cursor was hidden before a repaint that wants it visible: a repaint does not show a cursor it
  believes visible. `Blitter.ExitIsEntry`.
- Pen sequences read back as the pen they were written for (src/leshper/sgr.h), except a pen with a plain
  underline and an undercurl at once. `Sgr.PenReadsBack`.
- A deadline is anchored to when its ESC first arrived (src/leshper/decode.cpp:391-394), except that a second ESC
  in the read that completes the first one inherits the first one's deadline. `Decoder.ChunksDoNotMatter`,
  `Decoder.InheritedDeadline`.
- An edit can be undone (src/leshper/editor.cpp:368-395), except an insertion asked for behind the end of the
  text: the buffer clamps its position and the record does not. `Editing.UndoRestoresIff`.
- A control key is written as "the spelling that parses to exactly these bytes again"
  (src/leshper/keymap.cpp:393-395). With shift, `Ctrl` and a letter loses it; and a `>` with a modifier closes
  its group early. `Notation.NotationRoundTrip`.
- The grapheme scan is UAX #29's rules (tools/gen_unicode_tables.py:350-412) except behind a joiner that is
  itself a pictograph, of which Unicode has none. `Graphemes.FindBreaks`.
- Writing on a surface keeps it drawable exactly when no half of a wide cluster is left behind
  (src/leshper/surface.cpp:114-171). `Surfaces.WrittenOk`.

## Model

| member | source | states |
|---|---|---|
| `Blitter.Emit` | src/leshper/blit.cpp:365-511 | run on the terminal, the operations show the desired surface with its pens as the terminal can show them, the cursor where it belongs and the pen default, with nothing else on the screen touched but what a repaint erases; no erase or relative move is made under a pending wrap, no move is cut short by the edge of the screen, and nothing scrolls; a repaint joins exactly the rows not marked hard; equal surfaces emit nothing |
| `Blitter.Update` | src/leshper/blit.h:114-122 | the same from a terminal showing the previous surface with its cursor; the same picture emits nothing. A size change from column 0, or to a single wrapped line, is right if and only if the cursor was at row 0, column 0; from column 0 the frame lands as many rows too low as the cursor was down |
| `Blitter.MissedFrame` | src/leshper/blit.h:89-90 | for every surface with its cursor anywhere else, and every terminal showing it, there is a size change that an update gets wrong: so it is right for every picture if and only if the cursor is at row 0, column 0 |
| `Blitter.Lands` | src/leshper/blit.cpp:390-393 | what a repaint that believes itself at the first cell comes to from any other |
| `Blitter.Paint` | src/leshper/blit.h:124-132 | from any screen contents below the origin, the terminal shows the surface and joins exactly its soft rows |
| `Blitter.PaintFrom` | src/leshper/blit.h:134-146 | the same from anywhere in the frame being replaced, even with a wrap pending, and everything under the new frame is blank |
| `Blitter.Play` | src/leshper/blit.h:87-104 | a whole read at one width: the first frame painted and any number of frames of any height that fits put in place of it, by a difference or by a repaint, leave the terminal as an update of the last frame would have to find it |
| `Blitter.Replace` | src/leshper/blit.h:134-146 | a frame of the same height is updated; one of another height takes the place of the last if and only if the caller says how many rows up that begins and is right |
| `Terminals.RoomAround` | src/leshper/blit.h:87-104 | a screen larger above and below changes nothing about where the cursor goes, unless it would have left the screen |
| `Terminals.LagStays` | src/leshper/blit.h:87-104 | what begins too far on is exactly as far on after any text |
| `Blitter.ExitIsEntry` | src/leshper/blit.h:99-104 | what one call leaves is what the next needs, if and only if no repaint left hidden a cursor its surface shows |
| `Blitter.Emitter.constructor` | src/leshper/blit.cpp:55-60 | the emitter starts with a true belief about the terminal it is told of |
| `Blitter.Emitter.MoveTo` | src/leshper/blit.cpp:62-91 | the terminal's cursor ends there with no wrap pending and the screen unchanged; nothing is sent when it already is |
| `Blitter.Emitter.Put` | src/leshper/blit.cpp:93-109 | the glyph and its second half are stamped in the resolved pen; a glyph owed after a write-through wraps first and joins the rows; at the edge the wrap is pending and the join undone |
| `Blitter.Emitter.WrapThrough` | src/leshper/blit.cpp:125-133 | the belief moves on while the terminal stays: a glyph is owed |
| `Blitter.Emitter.ClearToEndOfLine` | src/leshper/blit.cpp:135-145 | blanks the row from the column in the default pen, or does nothing under a pending wrap, where the terminal would erase the last glyph |
| `Blitter.Emitter.ClearToEndOfScreen` | src/leshper/blit.cpp:147-169 | everything below is blank, rows above untouched, and the row itself blank when the cursor starts it |
| `Blitter.Emitter.MoveToFrameTop` | src/leshper/blit.cpp:171-181 | from any column and with or without a pending wrap, the cursor reaches the frame's first cell and the screen is unchanged |
| `Blitter.Emitter.ResetPen` | src/leshper/blit.cpp:183-187 | the terminal's pen is default, with nothing sent if it was |
| `Blitter.Emitter.SetPen` | src/leshper/blit.cpp:246-287 | the terminal's pen becomes the wanted one as far as its capabilities can say it, whatever it was, by exactly the sequences `Sgr.PenReadsBack` is about; none for the pen in force |
| `Blitter.Emitter.WriteSpan` | src/leshper/blit.cpp:493-499 | the columns up to the end of the last glyph show the wanted cells and those behind show what they did, but for the half glyph a new one may cut |
| `Blitter.Emitter.Reach` | src/leshper/blit.cpp:474-492 | the belief stands at the span's first column; a glyph is owed exactly for a soft row reached behind a pending wrap at column 0, and then there is one to write |
| `Blitter.Emitter.WriteRow` | src/leshper/blit.cpp:493-502 | after span and erase the whole row shows what is wanted |
| `Blitter.Emitter.EmitRow` | src/leshper/blit.cpp:401-502 | one row shows the desired cells and no other row changes; an equal row sends nothing; a row the next one continues ends with its wrap pending |
| `Blitter.Emitter.EmitRows` | src/leshper/blit.cpp:401-503 | every row shows what is desired, the rest of the screen is as it was, and after a repaint the joins are those laid out |
| `Blitter.Emitter.Finish` | src/leshper/blit.cpp:504-511 | default pen, the surface's cursor, and its visibility if that changed |
| `Blitter.PlanRow` | src/leshper/blit.cpp:422-467 | the span to write together with the tail to erase covers every column that differs and starts inside no glyph of either surface; an update writes from a difference to a difference, and erases a blank tail exactly when writing would go into it; there is none exactly when nothing differs |
| `Blitter.DiffSpan` | src/leshper/blit.cpp:428-449 | the shortest span outside which both rows are equal and that starts on no second half |
| `Blitter.BlankTail` | src/leshper/blit.cpp:452-460 | the longest blank tail |
| `Terminals.StepOk` | src/leshper/blit.h:87-104 | every operation keeps the terminal's grid whole: each wide glyph followed by its second half, no half alone |
| `Surfaces.WrittenOk` | src/leshper/surface.cpp:114-171 | a written row is drawable if and only if the writing starts on no second half and ends before none |
| `Sgr.PenReadsBack` | src/leshper/blit.cpp:246-287 | reading the sequences written to get from one pen to another, in the first pen, gives the other as the terminal can show it, if and only if that does not ask for both underlines; through the parameter text, on the incremental and the reset-and-restate path |
| `Sgr.FieldsReadBack` | src/leshper/sgr.h:100-150 | any parameter list, with `;` and `:`, is read back from its text field for field |
| `Sgr.Parameters.Next` | src/leshper/sgr.h:111-143 | fields come one at a time, in order, each once |
| `Sgr.ReadExtendedColor` | src/leshper/sgr.h:173-200 | reads exactly the fields a whole 256-colour or RGB form has, and otherwise leaves the colour alone |
| `Sgr.ApplySgr` | src/leshper/sgr.h:208-283 | the loop is the fold of the fields over the pen that the inverse is proved about |
| `FiberModel.TickIsFair` | src/fiber/scheduler.cpp:333-361 | each fiber on the list at entry gets one slice, in list order, except outside the mask or in a group parked at its turn; fibers that arrive during the tick get none, whatever the slices do; those who stay keep their order in front of the arrivals |
| `FiberModel.TurnList` | src/fiber/scheduler.cpp:344-358 | in mid-tick the list is those who stayed, those not reached, and the arrivals, in that order: the saved boundary stays ahead |
| `FiberModel.TurnFacts` | src/fiber/scheduler.cpp:344-358 | up to any turn, nobody waiting has lost their turn or been given another |
| `FiberModel.Acted` | src/fiber/scheduler.cpp:363-475 | whatever call a fiber makes, what comes of it has the invariant: the list holds exactly the ready and running fibers once each, every queued wake names a distinct parked fiber of a parked group, the running fiber's group is not parked |
| `FiberModel.RunEffect` | src/fiber/scheduler.cpp:257-329 | a slice of any calls keeps the invariant, counts once for its own fiber, only appends to the list, and takes nobody else's place |
| `FiberModel.HostRun` | src/fiber/scheduler.cpp:218-489 | the invariant after any run of spawns, wakes, parks, resumes and ticks, from any state that has it |
| `FiberModel.ResumeDelivers` | src/fiber/scheduler.cpp:405-430 | resuming a group appends exactly its queued fibers to the list, in the order their wakes came, and leaves the others' order in the queue alone |
| `Deliveries.WakeIsDelivered` | src/fiber/scheduler.cpp:376-396 | over any run of the host behind a wake between slices, the fiber is on the list or queued until it has had a slice; while nothing resumes its parked group it is queued, and the resume then puts it on the list: no wake is lost |
| `Deliveries.WakeInSliceIsDelivered` | src/fiber/scheduler.cpp:376-396 | the same of a wake given at any call of any fiber's slice in a tick, through the rest of that slice, of the tick and of any run behind it |
| `Deliveries.PlaceIsKept` | src/fiber/scheduler.cpp:376-430 | a fiber on the list or queued keeps that through every call, slice and tick of a run, until its slice |
| `Deliveries.TurnKeeps` | src/fiber/scheduler.cpp:333-361 | from any turn of a tick to any later one, a fiber in its place has its place or has had its slice |
| `FiberModel.QueueFits` | src/fiber/scheduler.cpp:251-253 | the queue never outgrows the fibers, so that queuing cannot allocate |
| `FiberModel.CountsAnswer` | src/fiber/scheduler.cpp:483-489 | between slices the group counts say exactly whether some fiber is runnable |
| `Scheduling.Scheduler.Spawn` | src/fiber/scheduler.cpp:218-255 | the linked structure mirrors a model with a new ready fiber at the tail |
| `Scheduling.Scheduler.Wake` | src/fiber/scheduler.cpp:376-396 | a parked fiber is linked at the tail, or queued once if its group is parked; anything else is left alone |
| `Scheduling.Scheduler.ParkGroup` | src/fiber/scheduler.cpp:398-403 | only the bit changes |
| `Scheduling.Scheduler.ResumeGroup` | src/fiber/scheduler.cpp:405-430 | delivering the group's wakes while the queue is closed up in place over them does what the model's filter does, and the answer is the number delivered |
| `Scheduling.Scheduler.LinkReady` | src/fiber/scheduler.cpp:449-459 | the fiber becomes the tail, links both ways stay consistent and the group's count is the number linked |
| `Scheduling.Scheduler.UnlinkReady` | src/fiber/scheduler.cpp:461-475 | the fiber and only it leaves the list; a fiber not linked changes nothing |
| `Scheduling.Scheduler.RunnableIn` | src/fiber/scheduler.cpp:483-489 | eight comparisons answer for all linked fibers |
| `Scheduling.Scheduler.RunOneSlice` | src/fiber/scheduler.cpp:257-329 | the linked structure goes where the model's slice goes; a finished fiber is refused |
| `Scheduling.Scheduler.Perform` | src/fiber/scheduler.cpp:363-430 | one call by the running fiber or the host, as in the model |
| `Scheduling.Scheduler.EndSlice` | src/fiber/scheduler.cpp:312-329 | yield keeps the place on the list, park and return give it up |
| `Scheduling.Scheduler.NextInTurn` | src/fiber/scheduler.cpp:344-358 | a fiber the tick comes to is still linked, and its link is the next fiber of the snapshot |
| `Scheduling.Scheduler.Tick` | src/fiber/scheduler.cpp:333-361 | following the saved links up to the boundary visits exactly the snapshot: the state is the model's tick, and the answer whether anything is runnable |
| `Slots.ChannelIsSafe` | src/fiber/slot.h:147-220 | on every run, sends are values taken plus values overwritten plus the one present; a present value is the last sent and has no waiter registered; a receiver is never left parked over a value |
| `Slots.NextKeeps` | src/fiber/slot.h:168-220 | every step keeps that, spurious wakes and group parks included |
| `Slots.FreshIsSafe` | src/fiber/slot.h:161-161 | a new slot starts such a run wherever the scheduler is |
| `Slots.SupersededMeans` | src/fiber/slot.h:147-149 | a token reads superseded exactly when a send followed its delivery |
| `Slots.RecvTakesLatest` | src/fiber/slot.h:186-203 | what is received is the last value sent, and its token is fresh |
| `Slots.Slot.Send` | src/fiber/slot.h:168-181 | the latest value wins, an overwritten one is counted, and the registered waiter is the one to wake |
| `Slots.Slot.RecvPass` | src/fiber/slot.h:186-203 | takes what is there, or registers the caller before it parks |
| `Slots.Slot.TryRecv` | src/fiber/slot.h:213-220 | takes what is there and registers nobody |
| `Awaiting.FirstAnswerWins` | src/fiber/scheduler.h:333-347 | on every run from a fresh slot, a look at it ends the wait if and only if an answer was offered since that wait began, and then with the first; a waiting fiber that was answered, even before it parked, is never left parked with nobody to wake it |
| `Awaiting.NextKeeps` | src/fiber/scheduler.h:333-347 | every step keeps that, spurious wakes and group parks included |
| `Awaiting.AwaitSlot.Complete` | src/fiber/scheduler.h:441-447 | only the first answer to a registered wait is kept, and wakes |
| `Awaiting.AwaitSlot.Enlist` | src/fiber/scheduler.h:338-342 | a wait starts unanswered |
| `Arithmetic.Evaluate` | src/runtime/arithmetic.cpp:488-493 | good if and only if the text parses to a tree whose evaluation fails nowhere; then value, variables and first unset name are the tree's; a text that parses fails with its evaluation's first error, and is marked refused if that is a readonly variable |
| `Arithmetic.Evaluator.ParseComma` | src/runtime/arithmetic.cpp:205-209 | live, agrees with evaluating the parsed tree, variables and first error included; not live, has no effect but reading the text |
| `Arithmetic.Evaluator.ParseAssignment` | src/runtime/arithmetic.cpp:211-262 | the same, with the right side before the read of the left and readonly refusals |
| `Arithmetic.Evaluator.ParseConditional` | src/runtime/arithmetic.cpp:278-298 | the same: exactly one branch has effects and both must parse |
| `Arithmetic.Evaluator.ParseBinary` | src/runtime/arithmetic.cpp:300-406 | the same for all ten binary levels, wrapped arithmetic and division by zero included |
| `Arithmetic.Evaluator.ParseOperand` | src/runtime/arithmetic.cpp:300-326 | a right operand that cannot matter is read without effects and the answer is still the tree's |
| `Arithmetic.Evaluator.ParseUnary` | src/runtime/arithmetic.cpp:408-415 | the same for the signs |
| `Arithmetic.Evaluator.ParsePrimary` | src/runtime/arithmetic.cpp:417-448 | the same for parentheses, numbers and names |
| `Arithmetic.Evaluator.ParseNumber` | src/runtime/arithmetic.cpp:450-485 | the numeral's value in C's base, clamped to the largest; a prefix with no digit fails |
| `Arithmetic.SaturatedStep` | src/runtime/arithmetic.cpp:450-485 | stopping at the limit digit by digit is clamping the whole numeral |
| `Arithmetic.Evaluator.Consume` | src/runtime/arithmetic.cpp:183-198 | the text's position moves over blanks, and over the operator only where it stands and is not part of a longer one |
| `Arithmetic.Evaluator.LookAhead` | src/runtime/arithmetic.cpp:211-260 | finds the name and assignment operator without moving |
| `Arithmetic.Evaluator.ReadVariable` | src/runtime/arithmetic.cpp:143-153 | a skipped operand reads nothing; otherwise the first unset name sticks |
| `Arithmetic.Evaluator.WriteVariable` | src/runtime/arithmetic.cpp:242-256 | a skipped assignment neither writes nor asks; a readonly name refuses and fails |
| `Arithmetic.Evaluator.DivideByZero` | src/runtime/arithmetic.cpp:166-171 | a failure only where the operand is evaluated |
| `Precedence.PrintedParses` | src/runtime/arithmetic.cpp:205-485 | every tree written with the fewest parentheses the grammar's levels allow is parsed back as itself: binary operators group to the left, assignment and `?:` to the right, and no operator is taken for another |
| `Parentheses.FewestParentheses` | src/runtime/arithmetic.cpp:205-485 | fewest they are: no text that is parsed as a tree has fewer |
| `Parentheses.ForCParses` | src/runtime/arithmetic.cpp:278-298 | written with the fewest parentheses C allows, a tree is parsed back as itself if and only if no conditional in it has a comma list in the middle |
| `Parentheses.CommaInTheMiddle` | src/runtime/arithmetic.cpp:287-292 | the smallest such text, `1?2,3:4`, is refused |
| `Parentheses.CommaPays` | src/runtime/arithmetic.cpp:205-448 | whatever any level's parser reads holds the parentheses its tree needs there |
| `Precedence.PrintReads` | src/runtime/arithmetic.cpp:205-485 | anywhere in a text, a level's parser reads exactly what was printed for it, if nothing behind could go on |
| `Precedence.OnlyItself` | src/runtime/arithmetic.cpp:183-198 | where an operator stands no other one can be consumed |
| `Precedence.OperatorStands` | src/runtime/arithmetic.cpp:300-406 | an operator is taken at its own level and by no tighter one |
| `Utf8.ScanEncoded` | src/leshper/decode.cpp:97-133 | every scalar's encoding is scanned as it, whatever follows |
| `Utf8.ScanIsEncoding` | src/leshper/decode.cpp:97-133 | whatever is accepted is some scalar's encoding: no overlong form, no surrogate, nothing too large |
| `Utf8.IncompleteIsPromise` | src/leshper/decode.cpp:97-133 | incomplete if and only if some scalar's encoding goes on from here |
| `Utf8.MalformedIsMaximal` | src/leshper/decode.cpp:92-133 | what is replaced is the maximal subpart |
| `Utf8.WellFormed` | src/leshper/decode.cpp:314-349 | the text with each maximal subpart replaced, also where it starts from an unchanged prefix |
| `Utf8.CleanText` | src/leshper/decode.cpp:314-349 | unchanged if and only if it was well formed; cleaning twice is cleaning once |
| `Utf8.ScalarsOfEncoding` | src/leshper/decode.cpp:314-349 | well-formed text is read as the characters it encodes |
| `Decoder.ChunksDoNotMatter` | src/leshper/decode.cpp:351-355 | any split of any bytes gives the events, held bytes and paste of feeding them whole; the deadline too, if and only if no ESC waits at the end under an older deadline that the pieces dropped in between |
| `Decoder.DeadlineNeedsEscape` | src/leshper/decode.cpp:383-395 | so the deadline too is the same whenever no ESC is among the new bytes, or no deadline was pending |
| `Decoder.OneEscapeHeld` | src/leshper/decode.cpp:397-407 | what is held has no ESC but the one it may begin with |
| `Decoder.DrainJoins` | src/leshper/decode.cpp:397-407 | draining early and again with more behind is draining once |
| `Decoder.InheritedDeadline` | src/leshper/decode.cpp:383-395 | two reads where the deadline differs |
| `Decoder.NothingIsStuck` | src/leshper/decode.cpp:397-407 | whatever is held, some continuation completes it |
| `Decoder.TypedIsPasted` | src/leshper/decode.cpp:409-416 | bytes without ESC, typed and pasted, each in any split, give the same text: the keys' encodings and one replacement for a held partial scalar are the paste |
| `Decoder.PasteIsOneEvent` | src/leshper/decode.cpp:505-532 | a payload without the closing marker, in any split, markers cut anywhere, is one paste event of its cleaned text |
| `Decoder.MarkerAfter` | src/leshper/decode.cpp:505-532 | holding back what may begin the marker finds it exactly behind the payload |
| `Decoder.KeyReadsBack` | src/leshper/decode.cpp:226-305 | every named key with a CSI spelling, with every set of modifiers, is read back |
| `Decoder.CsiReads` | src/leshper/decode.cpp:442-492 | a sequence is taken whole, whatever follows it |
| `Decoder.ParseParameters` | src/leshper/decode.cpp:165-215 | the loop reads the first two fields, and whether any marker is private |
| `InputDecoding.InputDecoder.Feed` | src/leshper/decode.cpp:351-355 | the class goes where the specification goes, and rests with nothing complete held |
| `InputDecoding.InputDecoder.Expire` | src/leshper/decode.cpp:357-374 | past the deadline a held ESC is the Escape key and what was behind it is input again; before it nothing happens |
| `InputDecoding.InputDecoder.Reset` | src/leshper/decode.cpp:376-381 | as new |
| `InputDecoding.InputDecoder.Arm` | src/leshper/decode.cpp:383-395 | only a leading ESC outside a paste waits, and keeps the deadline it has |
| `InputDecoding.InputDecoder.Drain` | src/leshper/decode.cpp:397-407 | passes until none is complete; terminates |
| `InputDecoding.InputDecoder.ConsumeOne` | src/leshper/decode.cpp:409-416 | one event from the front, or nothing while it is incomplete |
| `InputDecoding.InputDecoder.ConsumeEscape` | src/leshper/decode.cpp:418-440 | the same behind an ESC |
| `InputDecoding.InputDecoder.ConsumeCsi` | src/leshper/decode.cpp:442-492 | the same for a control sequence, paste openers included |
| `InputDecoding.InputDecoder.ConsumePaste` | src/leshper/decode.cpp:505-532 | payload moves to the paste as far as it cannot be the marker |
| `Decorating.NormalIsUnique` | src/leshper/decoration.cpp:71-196 | two sorted, disjoint, maximally merged lists that show the same are the same: the result is determined by what painting in order shows |
| `Decorating.Decorations.Rebuild` | src/leshper/decoration.cpp:71-196 | the spans are that list for everything emitted, and the texts the stable sort of all that say something |
| `Decorating.Decorations.Apply` | src/leshper/decoration.cpp:12-27 | a reactor's layer is replaced in its place, or added, and the old one handed back; what is rendered is rebuilt |
| `Decorating.Decorations.Forget` | src/leshper/decoration.cpp:29-38 | exactly that reactor's layer goes |
| `Decorating.Decorations.Clear` | src/leshper/decoration.cpp:40-53 | nothing is left |
| `Decorating.Decorations.Gather` | src/leshper/decoration.cpp:71-120 | emission order over the layers, without what paints nothing |
| `Decorating.Decorations.SortTexts` | src/leshper/decoration.cpp:122-142 | the insertion sort in place is a stable sort |
| `Decorating.Decorations.BuildEdges` | src/leshper/decoration.cpp:147-152 | two edges for each span |
| `Decorating.Decorations.Sweep` | src/leshper/decoration.cpp:153-196 | at every offset the painted style is that of the last emitted span over it, and the list is normal |
| `Decorating.LookIsLast` | src/leshper/decoration.cpp:71-196 | painting in order shows the last span over an offset |
| `Decorating.LaterWins` | src/leshper/decoration.cpp:12-27 | a batch on top shows wherever it says anything |
| `Decorating.StableSortIsUnique` | src/leshper/decoration.cpp:122-142 | there is one stable sort |
| `History.AnchorKeepsItsSide` | src/leshper/editor.cpp:347-361 | after an edit the anchor is in range with the text on its unedited side unchanged, or at the edit's beginning if it was inside |
| `History.RunKeeps` | src/leshper/undo.h:95-190 | over any run of edits, groups, undos and redos, the steps lead from the initial text to the present one |
| `History.UndosLand` | src/leshper/undo.h:154-172 | k undos land on the text, cursor, anchor and selection from before the step they end at |
| `History.UndoThenRedo` | src/leshper/undo.h:154-190 | k undos and k redos return the text and the history; all undos return the initial text |
| `History.UndoTakesTheRun` | src/leshper/undo.h:211-235 | undoing typing that was merged goes back to before its first keystroke, mark included |
| `Editing.UndoRestoresIff` | src/leshper/editor.cpp:368-395 | undoing a record restores the text if and only if its range began inside the text or nothing was inserted |
| `Editing.MergedStands` | src/leshper/undo.h:211-235 | a merged record does and undoes what the two did |
| `Editing.Editor.ApplyEdit` | src/leshper/editor.cpp:368-395 | text, cursor and anchor are the edit's whatever the range, and the generation counts it; with a range that begins in the text, the records on both stacks still replay the timeline |
| `Editing.Editor.RecordEdit` | src/leshper/undo.h:95-110 | a record joins the open group, lengthens the last step or is a new one, and nothing can be redone |
| `Editing.Editor.CoalesceIntoLast` | src/leshper/undo.h:211-235 | merges if and only if typing goes on exactly where the last record ended |
| `Editing.Editor.UndoOne` | src/leshper/undo.h:154-172 | the last step, if there is one, goes to the other stack, its records backwards over the text; with no group open, that is one step back in time |
| `Editing.Editor.RedoOne` | src/leshper/undo.h:174-190 | the same forwards |
| `Editing.Editor.Unplay` | src/leshper/undo.h:158-168 | the records backwards, and the marks before the first |
| `Editing.UnplayedIsBase` | src/leshper/undo.h:158-190 | records played and played back leave the text they began with |
| `Editing.Editor.BeginGroup` | src/leshper/undo.h:112-117 | groups nest |
| `Editing.Editor.EndGroup` | src/leshper/undo.h:118-127 | a closed group is one step, an empty one none |
| `Editing.Editor.Replace` | src/leshper/text.h:124-135 | both ends are clamped, and the end lands behind what was put in |
| `Committing.DiffOf` | src/leshper/registry.cpp:1604-1620 | one replacement in range that turns the one text into the other, behind the longest common beginning and then before the longest common end; none if and only if the texts are equal |
| `Committing.ExplainsOnce` | src/leshper/registry.cpp:1604-1620 | there is only one such replacement |
| `Committing.PrefixIsLongest` | src/leshper/registry.cpp:1604-1620 | whatever both texts begin with is kept |
| `Committing.SuffixIsLongest` | src/leshper/registry.cpp:1604-1620 | whatever they then still both end with is kept |
| `Committing.Commit` | src/leshper/registry.cpp:1700-1766 | for any staged writes the buffer is what was staged, by one edit and one generation if the bytes differ and by none if not; at most one undo step more; cursor, selection and anchor as the writes say |
| `Typing.KeystrokesJoin` | src/leshper/registry.cpp:1706-1751 | of two keystrokes committed one behind the other, the second adds no undo step if and only if each is one cluster, each is itself when begun as far on as it slides into text that begins like it, and both slide equally far; otherwise it adds one |
| `Typing.CharactersJoin` | src/leshper/registry.cpp:1728-1735 | for keys of one character each that is: neither slides, or both are the same character and slide by a whole number of it |
| `Typing.KeystrokeDiffers` | src/leshper/registry.cpp:1604-1620 | a keystroke is committed as an insertion of its own length, as far behind the cursor as it slides, of its own bytes rotated by that much |
| `Typing.SlidesIff` | src/leshper/registry.cpp:1604-1620 | not at all if and only if it is typed at the end or in front of something that begins otherwise |
| `Typing.TwoSteps` | src/leshper/registry.cpp:1706-1751 | two letters in front of a line that begins with the first: the second is an undo step of its own |
| `Typing.HalfCharacters` | src/leshper/registry.cpp:1706-1751 | é and è typed in front of ê: both slide by one byte, neither is committed as its own bytes, and the second is an undo step of its own with the run broken behind it |
| `Typing.TypeTwo` | src/leshper/registry.cpp:1700-1751 | two commits in a row on any editor: the number of its undo steps grows with the second or does not by just that condition |
| `Sheets.RowsAreTheLines` | src/leshper/layout.cpp:131-357 | the walk's rows are the lines to draw, each wrapped where the next cluster does not fit, hard at a line's beginning only |
| `Sheets.WrapLosesNothing` | src/leshper/layout.cpp:269-292 | the rows of a line joined are the line, each holds what fits, and each begins only where the one above had no room |
| `Sheets.BufferReadsBack` | src/leshper/layout.cpp:131-204 | reading the rows back gives every printable cluster of the buffer once, in order, in its own pen, whatever prompts and virtual text stand between |
| `Sheets.CursorIsPlaced` | src/leshper/layout.cpp:327-347 | the cursor is on a cell of the content: the first of its cluster's, wherever that wrapped to, or else the one right behind what is drawn before it |
| `Sheets.PenIsThePainters` | src/leshper/layout.cpp:206-223 | the pen of a byte comes from the last emitted span over it |
| `Sheets.WindowHoldsCursor` | src/leshper/layout.cpp:388-394 | the window is in the content and the cursor in the window |
| `Sheets.WindowGlides` | src/leshper/layout.cpp:388-394 | it moves with the cursor, never against it and never by more rows |
| `Sheets.RowReadsBackIff` | src/leshper/surface.cpp:114-171 | a row's cells read back as its clusters if and only if none is wider than the frame |
| `Sheets.CellsReadBack` | src/leshper/surface.cpp:114-171 | cells read back as clusters in order, none split |
| `Sheets.PaintedIsDrawable` | src/leshper/surface.cpp:114-171 | a laid-out row has every second half and no stray one |
| `Layouts.Write` | src/leshper/surface.cpp:114-171 | writing a run behind what is written gives the cells of both together, clipped at the edge |
| `Layouts.Walker.Reserve` | src/leshper/layout.cpp:269-280 | wraps before a cluster that does not fit |
| `Layouts.Walker.RecordCursor` | src/leshper/layout.cpp:327-347 | a full row's cursor goes to the next row's first column |
| `Layouts.Walker.BreakLine` | src/leshper/layout.cpp:292-303 | a new hard row, with the run above on the screen |
| `Layouts.Walker.Flush` | src/leshper/layout.cpp:320-325 | what is pending is on the screen, if its row is in the window |
| `Layouts.Walker.PutCluster` | src/leshper/layout.cpp:131-204 | room first and then the cursor: a cluster that wraps takes it along |
| `Layouts.Walker.Place` | src/leshper/layout.cpp:131-204 | a prompt's clusters, line breaks and pens in order |
| `Layouts.Walker.SpanPen` | src/leshper/layout.cpp:214-223 | a cursor into the spans that only moves forward finds what painting shows |
| `Layouts.Walker.AtOffset` | src/leshper/layout.cpp:225-262 | virtual text due at an offset is drawn once, and a cursor there stays in front of it |
| `Layouts.Walker.BufferCluster` | src/leshper/layout.cpp:131-204 | one cluster of the buffer, with its pen and the cursor if it is there |
| `Layouts.Walker.RunWalk` | src/leshper/layout.cpp:77-114 | runs and rows flushed one by one come to the walk of the whole content, and the cursor is placed |
| `Layouts.LayOut` | src/leshper/layout.cpp:398-475 | both passes agree: the frame is the window of the one content, with its cursor, its hard rows and the pager's rows below |
| `Layouts.FrameIsDrawable` | src/leshper/layout.cpp:398-475 | every frame laid out is one the blitter accepts |
| `Layouts.Show` | src/leshper/layout.cpp:398-475 | laid out and painted, the terminal shows each visible row's clusters and the pager's rows, joins exactly the soft rows and has its cursor on the line's |
| `Rendering.RenderAll` | src/ui/loop.cpp:1552-1623 | over a read at one size, however the line grows, scrolls and shrinks, the terminal presents it, if the terminal is not taken to reflow or every frame's top is where it is taken to be |
| `Rendering.Renderer.Render` | src/ui/loop.cpp:1552-1623 | a line takes the place of the last, with nothing else touched, if and only if the two frames have as many rows, the terminal is not taken to reflow, or the last frame's top is where a new layout of its line puts it |
| `Rendering.Renderer.FrameTop` | src/ui/loop.cpp:1625-1655 | the row the cursor was left on, or the row it has in a new layout of the bare line |
| `Rendering.TopIsKnownIff` | src/ui/loop.cpp:1632-1654 | without virtual text, that is where the frame is if and only if its window would begin at the same row with no pager under it |
| `Rendering.TopIsMissed` | src/ui/loop.cpp:1632-1654 | a buffer of seven line breaks on ten rows, five of them the pager's: the cursor is four rows below the frame's top, and is taken to be seven below |
| `Rendering.BareIsCongruent` | src/ui/loop.cpp:1644-1654 | decorations move no row, no column and no cursor |
| `Pools.Pool.Intern` | src/leshper/surface.cpp:48-63 | the id names exactly those bytes, and every id given before keeps its own |
| `Pools.ReadBack` | src/leshper/surface.cpp:48-70 | after any number of clusters taken in, each reads back under the id it was given at its time, and two were given one id if and only if they are the same bytes |
| `Pools.SameIdIffSameBytes` | src/leshper/surface.cpp:32-63 | ids of any two times are equal if and only if their bytes are |
| `Keymaps.EncodingExtends` | src/leshper/keymap.cpp:308-319 | one encoding is a prefix of another if and only if the keys are |
| `Keymaps.KeysDecode` | src/leshper/keymap.cpp:327-343 | encoded keys decode as themselves |
| `Keymaps.Keymap.Bind` | src/leshper/keymap.cpp:462-476 | binds, rebinds or unbinds those keys and nothing else; the table stays strictly sorted |
| `Keymaps.Keymap.Unbind` | src/leshper/keymap.cpp:478-484 | the keys are unbound and the rest is not; says whether they were bound |
| `Keymaps.LowerBound` | src/leshper/keymap.cpp:293-300 | splits the table at the keys |
| `Keymaps.ActionFor` | src/leshper/keymap.cpp:486-491 | finds exactly what is bound |
| `Keymaps.HasLonger` | src/leshper/keymap.cpp:493-500 | one look past the lower bound says exactly whether some bound sequence strictly extends the keys |
| `Keymaps.ExtensionsAreOneRun` | src/leshper/keymap.cpp:493-500 | the extensions of some keys are one run directly behind them |
| `Resolution.ResolveKeys` | src/leshper/keymap.cpp:962-971 | hold if a keymap down to the first opaque one binds something longer; else the topmost binding; else, for a lone key, the topmost default and then the floor |
| `Resolution.ResolveExpiredKeys` | src/leshper/keymap.cpp:973-988 | the same with the longer bindings out of the question |
| `Resolution.ResolvesToOne` | src/leshper/keymap.cpp:948-971 | that rule allows one outcome |
| `Resolution.WalkStack` | src/leshper/keymap.cpp:916-939 | sees the topmost binding, any longer one and the topmost default of the keymaps consulted, absent ones skipped |
| `Notation.NotationRoundTrip` | src/leshper/keymap.cpp:345-435 | keys written and read back are the same if and only if none is a `>` with a modifier or a shifted control written as Ctrl and a letter |
| `Notation.ReadIsBuildable` | src/leshper/keymap.cpp:223-289 | whatever a notation is read as can be written |
| `Notation.ParseKeyNotation` | src/leshper/keymap.cpp:345-372 | the loop encodes exactly the keys that are read, all or nothing |
| `Notation.RenderKeyNotation` | src/leshper/keymap.cpp:374-435 | the keys as far as they decode, written one by one |
| `Graphemes.FindBreaks` | tools/gen_unicode_tables.py:350-412 | breaks are exactly those of GB1 to GB13, GB9c and GB999 with unbounded look-behind, if and only if no pictographic joiner stands between a pictograph and one that GB11 alone would join; in every text, which breaks those cost |
| `Graphemes.ScanParts` | tools/gen_unicode_tables.py:350-412 | at each position, scan and rules agree if and only if no joiner was taken there |
| `Graphemes.ConjunctStep` | tools/gen_unicode_tables.py:392-399 | one of three states stands for a consonant and a linker any distance behind |
| `Graphemes.PictographStep` | tools/gen_unicode_tables.py:400-407 | the same for a pictograph and a joiner |
| `Graphemes.StatesDecide` | tools/gen_unicode_tables.py:361-388 | the states decide each boundary as the rules over the whole text do |
| `Graphemes.OddNeverBreaks` | tools/gen_unicode_tables.py:390-391 | why one bit counts regional indicators |
| `Graphemes.PictographicJoiner` | tools/gen_unicode_tables.py:400-407 | a text where scan and rules part |
| `PropertyTables.BuildRecords` | tools/gen_unicode_tables.py:301-318 | succeeds if and only if there are no more than 256 kinds, with each codepoint's slot holding its packed tuple and no record twice; otherwise it fails at the store of the 257th kind's slot, and the count behind the loop is never what refuses |
| `PropertyTables.BuildTrie` | tools/gen_unicode_tables.py:321-334 | shared blocks look up as the whole table does |
| `PropertyTables.BuildTables` | tools/gen_unicode_tables.py:560-565 | with no more than 256 kinds every codepoint's original properties come back from the tables, and the replacement character's beyond the codespace |
| `PropertyTables.UnpackPacked` | tools/gen_unicode_tables.py:294-309 | unpacking a packed tuple gives it back |

## Left out

- Context switches, guard pages, leak-scan bookkeeping, the watchdog and the logger: a slice is any finite list of calls and an ending.
- The escape sequences' bytes other than SGR parameters, and terminal I/O: the blitter's output is a list of operations, executed by the model's terminal.
- A terminal that scrolls: frames fit below their origin.
- `Blitter.Emit`: does not state the soft-wrap joins after an update that is no repaint, which the source leaves open too; nor counts its operations (`Blitter.PlanRow` says which columns are written).
- `Blitter.Play`: needs a cursor that a later repaint wants visible to be visible before it, for the reason `Blitter.ExitIsEntry` gives.
- `Blitter.Update`: a size change from a column other than 0 is shown wrong for single wrapped lines with the cursor behind them, and for some picture always; which other pictures come out right by coincidence, a blank one for example, is not stated.
- `Rendering.RenderAll`: the terminal keeps its size; how one reflows a frame when it is resized is the terminal's. The row last rendered is kept by a small class, the rest of the loop is not modelled.
- `Terminals.StepOk`: no operation is modelled that the blitter never sends.
- `Scheduling.Scheduler.RunOneSlice`: needs a ready fiber of a group not parked, as the tick guarantees; a parked fiber handed in directly would become ready without being linked.
- `Slots.Slot.RecvPass`: the loop around it is the run's, because the fiber parks inside it; addresses and the check on borrowed messages are not modelled.
- `Awaiting.AwaitSlot.Check`: one pass of the loop, for the same reason; the branch of a caller that is no fiber is not modelled.
- `Arithmetic.Evaluate`: of a failed expression only the error is stated, since variables may already have been written and later ones still are, so that one refused behind another failure is marked refused too; a text that does not parse gives some error, without saying which; error texts are kinds, and variables hold integers or nothing.
- `Decoder.KeyReadsBack`: backspace has no control sequence; SS3 spellings are modelled but not printed.
- `Editing.Editor.UndoOne`: with a group open, only what is replayed over the text is stated; the open records are not undone with it.
- `Editing.Editor.ApplyEdit`: with a range that begins behind the end of the text, the history is left open, for the reason `Editing.UndoRestoresIff` gives.
- `Committing.DiffOf`: may cut inside a character, as the source does; that every anchor lies on a character boundary is not claimed.
- `Committing.Commit`: snapping to clusters and what one cluster is are parameters, what the action did is the staged result, and the accessors that stage it, the kill store and the proposals are not modelled.
- `Sheets.RowsAreTheLines`: clusters come with widths, and controls with what they are drawn as; the tables that say so, zero-width clusters without a base, the ceiling of 65535 rows and the assertion on a prompt's width are left out.
- `Layouts.LayOut`: the pager's rows are an input of at most the height less one, and the theme is a function from style ids to pens.
- The pager's own measuring, filtering and moving.
- `Graphemes.FindBreaks`: the property files' contents are inputs.
- `Decorating.SortEdges`: the library's `std::sort` is written out as an insertion, and only the order it promises is used.
- `Sgr.PenReadsBack`: that the nearest palette colour is nearest is not shown; capabilities that drop or quantise a colour are applied on both sides.
- Wrap-around of 64-bit counters (generations, sends, slices), `from_env`, the style grammar, completion, the prompt, persistent history, reactors and vi actions.
