# A verified model of the terminal port, the command guardian and the snapshot copier

This project models the three native helpers of the repository and proves what they promise.

**The terminal port** (`native/terminal_port/src`) is a disposable process between an owner, which sends draw frames
and commands and grants one input credit at a time, and one terminal.

- `Frame`, `FrameCodec` and `Utf8` are the wire form of a draw frame and its decoder.
- `Terminal` is an independent model of a terminal: a grid, an SGR pen, a cursor, no autowrap, and CUP, EL, ECH and SGR
  as in ECMA-48 (8.3.21, 8.3.41, 8.3.38, 8.3.117). A glyph that is not plain ASCII reaches a number of columns and moves
  the cursor by an amount that only the terminal knows, and loses its other columns when it is partly overwritten.
- `Screen`, `Projection`, `Painter` and `Display` are the retained painter. The main result is that repainting one span
  a row leaves the screen a full repaint leaves, for every choice of those unknown advances, over whole runs of draws,
  failed writes, invalidations and resizes.
- `Input`, `InputStream`, `InputPaste`, `InputText` and `InputBuffer` are the incremental input parser and what happens
  to a read before it: packetization invariance, exact paste recovery, UTF-8 recovery, the wheel burst and the start-up
  probe's answers.
- `Framer`, `Protocol` and `Clipboard` are the command framer, the command and response bodies with a decoder for the
  other side, and OSC 52.
- `Buffered` and `Tty` are the batching writer, the modes of the terminal and the guard process that owns them behind a
  one-byte handshake.
- `Ledger`, `Arrivals`, `Pastes` and `Session` are the session: a class with the fields of the original whose every method keeps
  the order of credits and responses, the conservation of every byte read, and the agreement with the guard.

**The command guardian** (`native/tool_command/main.c`) is `Guardian`: one event loop with its flags, bounded queue and
credits, against any parent.

**The snapshot copier** (`native/schema_snapshot/main.c`) is `Locks` and `Snapshot`: SQLite's lock bytes, the other
processes that honour them, and the copy that succeeds only with the two files of one instant.

`World` holds the choices of the environment: whatever a clock, a signal, a descriptor or another process may answer.
`Bytes` holds byte strings and big-endian integers.

## How to read it

The painter, the parser, the session, the guardian and the copier are classes with the fields of the originals. Their
methods are proved against specification functions and invariants, and lemmas state what those mean over whole runs:

- `Painter.Paint` ties the writes of a frame to `Screen.Shows`, what a terminal that shows the frame looks like;
  `Display.OneScreen` says that this leaves no choice of screen, and `Display.Moved` what every incident of a run does.
- `Input.InputParser.Advance` is the function `Advanced`, and `InputStream` shows that function to be a byte-at-a-time
  parser.
- `Session.Session.Valid` holds between the turns of the loop. `Ledger.Lawful` is the order of grants and packets;
  its lemmas state the consequences for any two entries of any run. `Arrivals.Conserved` equates what was sent, waits
  or is buffered with a replay of everything read, and `Pastes` says what that means for a paste. `Agree` and `Balance`
  tie the session, the guard and the terminal's modes together.
- `Guardian.Guardian.Valid` holds between the turns of the guardian's loop, and the lemmas at the end of the class read
  it off for the whole trace.
- `Locks.Allowed` is what honest steps of other processes leave to the copier, and holds across every system call.

Four promises of the sources hold only under a condition, which the model makes exact:

- A drawn frame is on the screen unless the terminal was resized back to the retained size since the retained frame was
  drawn, because the painter compares sizes only. The guard is `Display.ComesBack`, the failing script
  `Display.LostScreen`. After such a loss the same frame is shown exactly when what the resize left shows it
  (`Display.ResizedBack`), and another frame only when the columns and the cursor that are not repainted survived,
  exactly then over clean spans (`Painter.Paint`, `Display.PlainClean`).
- A bracketed paste is one event unless a wait of 40 milliseconds runs out right after its first byte
  (`Pastes.PasteIntact`, `Pastes.FirstByteExpires`).
- A restoration undoes a second activation exactly when it keeps the first one's alternate screen
  (`Tty.ActivatedTwice`); the session activates only when inactive.
- Cutting the probe's answers a second time changes nothing exactly when no kept beginning was joined to what completes
  it (`InputBuffer.SecondCut`; `InputBuffer.NotIdempotent` is an input where it was). The session's conservation theorem
  therefore replays its steps one by one.

`docs/implementation/terminal-port-wire-v1.md` lists three init flags; the code also admits the mouse flag 16, and the
model follows the code. Credits that wait for Ready, which that document asks of the owner, are the ghost field
`polite`; conservation is stated for them, every other session property for any owner.

## Model

| member | source | states |
|---|---|---|
| FrameCodec.Decode | native/terminal_port/src/frame.rs:72-190 | Accepts a body exactly when it is the encoding of a well-formed frame and gives that frame back; over the cap it is Capacity, any other refusal Invalid |
| FrameCodec.EncodingAccepted | native/terminal_port/src/frame.rs:72-190 | Every well-formed frame within the cap is accepted by the byte-level reading the decoder makes, tables and all |
| FrameCodec.PrefixFree | native/terminal_port/src/frame.rs:176-178 | No accepted body is a proper prefix or extension of another, and none encodes two frames |
| FrameCodec.Tiling | native/terminal_port/src/frame.rs:143-178 | Each cell of the grid lies in exactly one glyph, on one row |
| Frame.TablesSize | native/terminal_port/src/frame.rs:124-128 | Tables that can be read need at least nine bytes a glyph and three a palette entry, so the early size check rejects no valid frame |
| Frame.Reader.ReadHeader | native/terminal_port/src/frame.rs:76-123 | Reads the header when and only when its fields are admissible, and the bytes consumed are that header's encoding |
| Frame.Reader.ReadPalette | native/terminal_port/src/frame.rs:129-142 | Accepts exactly as many admissible palette entries end to end as the header says, and consumes exactly their encoding |
| Frame.Reader.ReadGlyph | native/terminal_port/src/frame.rs:145-175 | One glyph at a position: accepted exactly when its fields fit the grid and its text is inert valid UTF-8 |
| Frame.Reader.ReadGlyphs | native/terminal_port/src/frame.rs:143-178 | Consumes exactly the encoding of glyphs laid end to end over the whole grid with nothing left over |
| Frame.Reader.ReadColor | native/terminal_port/src/frame.rs:220-236 | A color of the frame's mode, or a refusal |
| Utf8.ScalarsOfEncoding | native/terminal_port/src/frame.rs:161-166 | Text encoded from scalars is valid and decodes to those scalars (RFC 3629 sections 3 and 4) |
| Utf8.EncodingOfScalars | native/terminal_port/src/frame.rs:161-166 | Valid text is the encoding of its scalars |
| Painter.Span | native/terminal_port/src/output.rs:263-284 | The narrowest run between glyph boundaries of both rows that holds every changed cell; none exactly when nothing changed |
| Painter.OneSpan | native/terminal_port/src/output.rs:263-284 | The span is determined by the two rows |
| Painter.Changes | native/terminal_port/src/output.rs:270-271 | The first and the last changed column |
| Painter.ColorRendition | native/terminal_port/src/output.rs:386-407 | Each color sequence, read by an SGR interpreter, sets that color and nothing else |
| Painter.SetPen | native/terminal_port/src/output.rs:347-375 | From a pen the terminal really has, or none known, the terminal ends with exactly the wanted pen |
| Painter.FreshPen | native/terminal_port/src/output.rs:360-371 | From any pen at all, a reset and what follows give exactly the wanted pen |
| Painter.Modifiers | native/terminal_port/src/output.rs:377-384 | Adds exactly the given attributes |
| Painter.MoveTo | native/terminal_port/src/output.rs:339-345 | The terminal's cursor is at the column and row, written or already known |
| Painter.Glyph | native/terminal_port/src/output.rs:305-337 | A glyph changes only its own row and spoils nothing but remembered glyphs beside it; over clean columns it leaves its own image in its declared columns whatever its real reach and advance; the tracked pen and position still agree with the terminal, whatever it held |
| Painter.Reserve | native/terminal_port/src/output.rs:324-330 | Spaces in the glyph's pen over every declared column, and back to the first |
| Painter.SpanOutside | native/terminal_port/src/output.rs:217-222 | A row that shows the prior image remembers only glyphs inside the span, none where nothing will be erased, and outside the span already shows the new image |
| Painter.Erase | native/terminal_port/src/output.rs:210-223 | After the erase step a clean span is finished outside and clean inside, on a full repaint and on a difference; outside it nothing changes but spoiled glyphs |
| Painter.PaintSpan | native/terminal_port/src/output.rs:210-230 | One repainted span leaves the new image inside it, what was there outside it, and touches no other row |
| Painter.PaintRow | native/terminal_port/src/output.rs:196-230 | Afterwards the row shows its image only if the columns that are not repainted did, and over a clean span exactly then; the update is held and the cursor hidden from the first change on, and an unchanged row writes nothing |
| Painter.PaintRows | native/terminal_port/src/output.rs:196-231 | So for all rows; nothing is painted exactly when the frames are the same |
| Painter.KnownSurvives | native/terminal_port/src/output.rs:185-231 | A terminal that shows what is retained can be written over cleanly, and what a repaint leaves alone already shows the new frame |
| Painter.PaintCursor | native/terminal_port/src/output.rs:235-255 | The requested cursor position, shape and visibility |
| Painter.Paint | native/terminal_port/src/output.rs:185-261 | Over any terminal: if it shows the previous frame, or has another size, or nothing is retained, it shows exactly the new frame afterwards, default pen, requested cursor and no update held; if it lost the previous frame, it shows the new one only when what is not repainted survived, and over clean spans exactly then; the same frame and cursor write nothing, and only a failed write fails |
| Screen.ImagesAgree | native/terminal_port/src/output.rs:263-284 | Where two rows agree up to boundaries of both, so do the screens they stand for |
| Screen.ImageClosed | native/terminal_port/src/output.rs:176-184 | Between two glyph boundaries a shown row remembers only glyphs that lie between them |
| Terminal.PutClosed | native/terminal_port/src/output.rs:176-184 | Writing over whole remembered glyphs spoils nothing beside them |
| Terminal.TypeClean | native/terminal_port/src/output.rs:293-303 | Exact ASCII text over clean columns covers its own columns, and the cursor follows until the last column |
| Projection.Project | native/terminal_port/src/output.rs:88-118 | The buffer holds every glyph's lead with its text and declared width, styled continuations marked to be skipped, and tiles every row |
| Projection.ProjectStep | native/terminal_port/src/output.rs:90-116 | Projecting one more glyph keeps those before it and leaves every uncovered cell empty |
| Display.Retained.Draw | native/terminal_port/src/output.rs:66-85 | Decodes before any write; success retains the decoded frame and displays it unless the terminal had lost what was retained; an invalid frame writes and changes nothing; a failed write forgets the screen |
| Display.Retained.Show | native/terminal_port/src/output.rs:69-84 | Displayed if the terminal showed what was retained; if it had lost it, only when what is not repainted survived, and over clean spans exactly then; forgotten exactly after a failed write or flush |
| Display.OneScreen | native/terminal_port/src/output.rs:185-261 | Two terminals that display the same frame have the same grid, pen, cursor and visibility: the fast form and a full repaint leave one screen |
| Display.ShownExactly | native/terminal_port/src/output.rs:61-85 | A terminal displays a frame, glyph by glyph, exactly when it shows the projected buffer |
| Display.Stage.Present | native/terminal_port/src/session.rs:289-317 | A draw command is refused exactly for a body that encodes no frame, skipped exactly for another size, broken only when a write or flush failed, and otherwise drawn; unless the terminal was resized back to the retained size, a drawn frame is on the screen |
| Display.Stage.Run | native/terminal_port/src/output.rs:61-85 | Over any sequence of draws, failing writes, redraw requests, foreign output and resizes of every kind: each reply, screen and retained picture follows from the one before and the incident, and a drawn frame is on the screen unless the terminal was resized back to the retained size since |
| Display.ResizedBack | native/terminal_port/src/output.rs:186-189 | After a resize away and back the same frame writes nothing and is shown exactly when what the resize left shows it |
| Display.LostScreen | native/terminal_port/src/output.rs:186-189 | The failing script: a displayed frame, a resize back to its size that loses it, and the same frame again, answered as drawn and not on the screen |
| Display.PlainClean | native/terminal_port/src/output.rs:199-230 | A terminal without remembered glyphs can be written over cleanly, whatever was retained and whatever is drawn next |
| Display.LostPicture | native/terminal_port/src/output.rs:186-189 | Such a loss is visible: a shown picture with one cell erased is not shown any more |
| Input.InputParser.Advance | native/terminal_port/src/input.rs:235-398 | One call does what the byte-at-a-time step function says: at most one event, the exact consumed prefix |
| Input.Turn | native/terminal_port/src/input.rs:238-395 | One turn of the machine keeps the state bounds, and only a broken scalar may leave its byte |
| Input.Advanced | native/terminal_port/src/input.rs:235-398 | A call without an event consumes everything; a call that consumes nothing leaves a partial scalar |
| Input.EventBits | native/terminal_port/src/input.rs:543-553 | Of a parameter's bits Shift stays, Alt and Control change places, the three above stay, and the locks are dropped |
| InputStream.AnyReads | native/terminal_port/src/input.rs:235-398 | Packetization invariance: for every stream, start state and cut into reads, the same events and the same final state |
| InputStream.Drain | native/terminal_port/src/input.rs:235-398 | The driving loop ends, though one call may consume nothing, and gives the events of the whole |
| InputStream.DriveFeeds | native/terminal_port/src/input.rs:235-398 | The driving loop is the byte-at-a-time parser |
| InputStream.FeedAllConcat | native/terminal_port/src/input.rs:235-398 | Feeding two stretches is feeding their concatenation |
| InputStream.ExpiresAfterEscape | native/terminal_port/src/input.rs:478-486 | Only a stream that ends in an ESC byte leaves something to expire: it is the Escape key alone, and the parser goes on as if just started |
| InputStream.Bounded | native/terminal_port/src/input.rs:500-511 | Retained content never exceeds what was fed, nor a full paste and the five bytes of a terminator begun |
| InputPaste.NoBorder | native/terminal_port/src/input.rs:346-387 | The paste terminator has no border, so one pass finds the true first occurrence |
| InputPaste.HeldStep | native/terminal_port/src/input.rs:346-387 | The matcher always holds the longest prefix of the terminator that the paste so far ends with |
| InputPaste.OpenPaste | native/terminal_port/src/input.rs:346-387 | Without a terminator the paste is retained exactly, the matched bytes apart, or refused exactly once |
| InputPaste.PasteExact | native/terminal_port/src/input.rs:346-387 | From the paste state exactly one event at the first terminator: the payload itself, or one refusal when it is too long or not UTF-8 |
| InputPaste.PasteDelivered | native/terminal_port/src/input.rs:346-387 | A bracketed paste from ground, cut into reads anywhere, is one event and what follows is parsed afresh |
| InputPaste.UnfinishedPaste | native/terminal_port/src/input.rs:488-497 | A paste that the end of input cuts off, however it was read, becomes no text and no paste: at most the one refusal it had already earned |
| InputText.Recovery | native/terminal_port/src/input.rs:270-308 | From ground, a partial scalar or the invalid-continuation state: at most one rejection, then one Text event a scalar, in order |
| InputText.OneScalar | native/terminal_port/src/input.rs:419-470 | Every typed scalar's encoding is one Text event |
| InputBuffer.TypeaheadEnter | native/terminal_port/src/input.rs:741-749 | In place: LF within the cooked count becomes CR, nothing else changes, and the count left is returned |
| InputBuffer.EnteredConcat | native/terminal_port/src/input.rs:741-749 | Cutting the typeahead into reads changes nothing |
| InputBuffer.BurstExact | native/terminal_port/src/input.rs:758-773 | A burst is exactly a repetition of one arrow, at least twice, with its direction and its count capped |
| InputBuffer.TakeProbeReplies | native/terminal_port/src/input.rs:788-806 | In place: the bytes kept and what was found are those of the scan by complete answers |
| InputBuffer.OnlyAnswersGo | native/terminal_port/src/input.rs:788-806 | Only whole probe answers are cut out; every other byte stays, in order |
| InputBuffer.SecondCut | native/terminal_port/src/input.rs:788-806 | Cutting a second time changes something if and only if taking an answer out joined a kept beginning of another to the bytes that complete it |
| InputBuffer.NotIdempotent | native/terminal_port/src/input.rs:788-806 | An input where it does: `ESC [`, an answer, `? c` |
| InputBuffer.NoEscapeLeft | native/terminal_port/src/input.rs:788-806 | So with no ESC left outside complete answers there is nothing more to cut |
| Framer.Framer.Read | native/terminal_port/src/session.rs:31-62 | One readable descriptor gives at most one body; what it delivers is taken, nothing taken means that nothing was there yet, the end or an error; what is held is exactly the frame begun; a bad length is refused with nothing allocated for it |
| Framer.FramesUnique | native/terminal_port/src/session.rs:31-62 | A stretch of frames is read in one way only, and an incomplete frame is never a whole one |
| Framer.Collect | native/terminal_port/src/session.rs:31-62 | For every split of the stream, idle polls included, the bodies are a first part of those framed, and exactly those framed when the pipe keeps delivering and is polled for as long; an admissible stream is never refused |
| Framer.Refused | native/terminal_port/src/session.rs:42-45 | A refused length is never the start of an admissible frame |
| Protocol.DecodeCommand | native/terminal_port/src/protocol.rs:172-217 | A body is accepted exactly when it is the encoding of a well-formed command, which it then gives |
| Protocol.ControlComplete | native/terminal_port/src/protocol.rs:192-302 | Every well-formed command other than a draw is read back from its bytes |
| Protocol.ControlSound | native/terminal_port/src/protocol.rs:192-302 | Whatever is read is well formed and has just these bytes: exact lengths, closed enumerations, no trailing byte |
| Protocol.EncodeEvent | native/terminal_port/src/protocol.rs:403-477 | The framed packet of an event, refused exactly when a length would not fit, never above the response cap |
| Protocol.EventRoundTrip | native/terminal_port/src/protocol.rs:403-477 | A decoder for the input payload recovers every event |
| Protocol.PacketRoundTrip | native/terminal_port/src/protocol.rs:478-539 | A decoder for the response bodies recovers every packet: generation, token and contents |
| Protocol.StreamRoundTrip | native/terminal_port/src/protocol.rs:349-356 | Any concatenation of packets is read back packet by packet |
| Protocol.BodySize | native/terminal_port/src/protocol.rs:29-29 | Every response body has 10 to 262167 bytes |
| Protocol.ParserEvents | native/terminal_port/src/input.rs:235-398 | Every event of a call, an expiry or the end of input is encodable with no length truncated |
| Protocol.BurstEvents | native/terminal_port/src/input.rs:758-773 | So is every wheel burst |
| Clipboard.Osc52 | native/terminal_port/src/protocol.rs:305-329 | The sequence is the OSC 52 prefix, base64 of the text, and BEL |
| Clipboard.Osc52Tmux | native/terminal_port/src/protocol.rs:334-346 | The passthrough is the sequence with every ESC doubled inside tmux's DCS |
| Clipboard.Base64RoundTrip | native/terminal_port/src/protocol.rs:310-326 | Decoding by section 4 of RFC 4648 what was encoded gives the bytes back |
| Clipboard.ClipboardRoundTrip | native/terminal_port/src/protocol.rs:305-346 | Undoing the passthrough gives the sequence whatever follows it, and its payload decodes to the text |
| Buffered.BufferedWriter.Write | native/terminal_port/src/tty.rs:369-379 | Takes all of a small write, or what the descriptor takes of one as large as the buffer; a failed call accepts nothing, and only the descriptor makes it fail |
| Buffered.BufferedWriter.Flush | native/terminal_port/src/tty.rs:380-386 | The batch is forgotten before it is written: success delivers everything since the last loss, failure replays nothing |
| Buffered.BufferedWriter.Discard | native/terminal_port/src/tty.rs:364-366 | What was batched is dropped for good |
| Buffered.BufferedWriter.Run | native/terminal_port/src/tty.rs:349-387 | Over any sequence of writes, flushes, discards and failures: accepted is what the answers said was taken, delivered an in-order, never-repeated selection of it, complete since the last discard or failure after a successful flush; with a descriptor that takes bytes every call succeeds |
| Tty.Tty.Activate | native/terminal_port/src/tty.rs:106-139 | When every call succeeds the modes are switched to exactly the chosen ones; marked active before anything is written |
| Tty.Tty.KittyPush | native/terminal_port/src/tty.rs:142-150 | Pushes the keyboard mode once, only while active |
| Tty.Tty.Mouse | native/terminal_port/src/tty.rs:153-169 | Switches the wheel between reports and arrow keys while active, and the flags keep the choice |
| Tty.Tty.Restore | native/terminal_port/src/tty.rs:170-239 | The line discipline is the shell's again whenever its own call succeeded, even when the writes failed; only a restoration that succeeded throughout ends the activity, and then the shell has its modes |
| Tty.RoundTrip | native/terminal_port/src/tty.rs:106-239 | Activate leaves on exactly the chosen modes, a mouse switch exactly those chosen now, and a restoration gives the shell its terminal back |
| Tty.ActivatedTwice | native/terminal_port/src/guard.rs:166-175 | A second activation is undone by a restoration if and only if it keeps the first one's alternate screen |
| Tty.Guard.Serve | native/terminal_port/src/guard.rs:163-182 | Each byte is one transaction with one acknowledgement: acknowledged means served exactly so, refused starts the stop |
| Tty.Guard.Ask | native/terminal_port/src/guard.rs:200-226 | The writer learns success only from an acknowledgement, over a socket that may break before or after the service |
| Tty.Guard.Reap | native/terminal_port/src/guard.rs:192-197 | After the writer is gone a restoration in which every call succeeds gives the shell its terminal back |
| Ledger.SpendsTheCredit | native/terminal_port/src/session.rs:420-448 | Every Input and Resize carries the token of the one outstanding credit: granted before, and nothing granted, spent or withdrawn since |
| Ledger.TokensIncrease | native/terminal_port/src/session.rs:420-448 | Emitted tokens strictly increase, so each is used at most once |
| Ledger.GrantsIncrease | native/terminal_port/src/session.rs:271-288 | Accepted credits strictly increase |
| Ledger.SettlementsIncrease | native/terminal_port/src/session.rs:289-317 | Draw sequences strictly increase, with at most one Painted or Skipped each |
| Ledger.NothingBehindTheBarrier | native/terminal_port/src/session.rs:467-471 | Between a ResumeNeeded or a Restored and the next Ready there is no Painted, Skipped, Input or Resize |
| Arrivals.CallMade | native/terminal_port/src/session.rs:433-446 | One call of the parser keeps what was sent, what waits and what is buffered equal to everything that arrived |
| Arrivals.ReadArrives | native/terminal_port/src/session.rs:407-411 | A read into an empty buffer keeps it so |
| Arrivals.BurstArrives | native/terminal_port/src/session.rs:412-418 | A whole read taken as one wheel event at ground keeps it so |
| Arrivals.ScrollSent | native/terminal_port/src/session.rs:429-432 | Sending the waiting wheel event keeps it so |
| Arrivals.Suspended | native/terminal_port/src/session.rs:242-253 | A suspension takes away a waiting wheel event and nothing else, and everything before it had been sent |
| Arrivals.TimePassed | native/terminal_port/src/session.rs:556-565 | An expired Escape keeps it so |
| Arrivals.InputEnded | native/terminal_port/src/session.rs:525-533 | The end of input keeps it so |
| Arrivals.ProbeStepped | native/terminal_port/src/session.rs:179-211 | A probe step keeps the typeahead, complete answers apart |
| Arrivals.TakenAnew | native/terminal_port/src/session.rs:126-130 | Taking the terminal anew keeps it so |
| Arrivals.TypeaheadExact | native/terminal_port/src/session.rs:407-411 | However it is cut into reads: of what arrives between two takings of the terminal, line feeds are Enter within exactly the bytes typed before, and every other byte is the one read |
| Pastes.Inside | native/terminal_port/src/input.rs:346-387 | Inside a bracketed paste, its opening and closing sequences included, the parser is never at ground, and holds an ambiguous Escape after exactly the first byte |
| Pastes.PasteIntact | native/terminal_port/src/session.rs:407-419 | However reads, arrows in it, suspensions and waits fall into it, a bracketed paste is exactly one event and what follows is parsed afresh, if and only if no wait runs out right after its first byte; then that byte is the Escape key |
| Pastes.Begins | native/terminal_port/src/session.rs:412-418 | A read that ends in the beginning of a paste is never taken for the wheel |
| Pastes.FirstByteExpires | native/terminal_port/src/session.rs:556-565 | It happens: the first byte read alone, and the wait run out |
| Session.Session.Activate | native/terminal_port/src/session.rs:125-160 | Takes the terminal and either starts the one probe or sends Ready; every invariant holds afterwards |
| Session.Session.Claim | native/terminal_port/src/session.rs:126-134 | The guard's acknowledgement first, then the size; afterwards nothing is retained as painted and no size waits |
| Session.Session.Ready | native/terminal_port/src/session.rs:161-176 | Ready with generation, size, flags and the enhanced-keys bit |
| Session.Session.ProbeStep | native/terminal_port/src/session.rs:179-211 | Ready goes out exactly when the probe ends, and the typeahead is conserved |
| Session.Session.Sift | native/terminal_port/src/session.rs:180-202 | Compaction, a read, the cooked Enter and the cut, for any owner: the buffer is what was kept and the new bytes without complete answers |
| Session.Session.Settle | native/terminal_port/src/session.rs:203-207 | Enhanced keys are on only when the keyboard answered and the guard pushed the mode, and whenever it answered while every call succeeded |
| Session.Session.WriteTitle | native/terminal_port/src/session.rs:213-230 | The terminal gets the title's exact bytes, its own title saved once, before the first; if not all of it was written the painter forgets the screen and nothing counts as saved |
| Session.Session.RestoreTitle | native/terminal_port/src/session.rs:236-241 | The saved title is given back at most once |
| Session.Session.Suspend | native/terminal_port/src/session.rs:242-253 | The credit withdrawn in the trace, probe and a waiting wheel event gone, the title and the modes given back, and inactive only after the acknowledgement |
| Session.Session.Dispatch | native/terminal_port/src/session.rs:254-276 | Before Init nothing else; a wrong generation or a token not above the last is a protocol error with nothing sent |
| Session.Session.Perform | native/terminal_port/src/session.rs:277-406 | Every admitted command keeps the invariants; the buffer stays, only a suspension or a shutdown takes a waiting wheel event away, and only a resume notes that the terminal was taken anew |
| Session.Session.Command | native/terminal_port/src/session.rs:254-406 | Any body at all keeps the session's invariants or ends it |
| Session.Session.Grant | native/terminal_port/src/session.rs:280-288 | A credit is accepted exactly by an active session without one, and dropped behind a barrier |
| Session.Session.Draw | native/terminal_port/src/session.rs:289-317 | A fresh sequence of an active session is settled by exactly one packet, Painted when the frame has the terminal's size and Skipped otherwise; behind a barrier it is dropped |
| Session.Session.Present | native/terminal_port/src/session.rs:301-316 | The verdict follows the terminal's size now; a skipped frame leaves the size to report and nothing retained |
| Session.Session.GiveUp | native/terminal_port/src/session.rs:318-329 | The credit is withdrawn, then Restored is sent, and only after the guard acknowledged the restoration |
| Session.Session.TakeBack | native/terminal_port/src/session.rs:330-336 | A Resume of a suspended session ends the barrier and is answered by Ready at once, without a second probe |
| Session.Session.Reports | native/terminal_port/src/session.rs:340-352 | The mouse choice is kept in the flags and told to the guard while active |
| Session.Session.Announce | native/terminal_port/src/session.rs:356-379 | A title is kept whether live or not; a live terminal gets exactly the bell, the notification or the title, any other is not touched |
| Session.Session.CopyOut | native/terminal_port/src/session.rs:386-403 | While active the terminal gets the exact clipboard bytes; while it is the shell's it is not touched |
| Session.Session.Receive | native/terminal_port/src/session.rs:521-538 | A whole-buffer read is conserved; a waiting wheel event changes exactly when the read is taken for the wheel, and then is that read's |
| Session.Session.EarlyCredit | native/terminal_port/src/session.rs:412-418 | A credit granted during the probe lets a second burst take the place of one that waits, so the first is lost |
| Session.Session.Wheel | native/terminal_port/src/session.rs:412-418 | The burst is taken exactly at ground, on the alternate screen, without mouse reports |
| Session.Session.Deliver | native/terminal_port/src/session.rs:420-448 | With a credit: first a waiting size, then a waiting wheel event, then one parser call; a credit kept means nothing is left waiting |
| Session.Session.SpendParsed | native/terminal_port/src/session.rs:433-446 | Consumes and sends exactly what one parser call says |
| Session.Session.EndInput | native/terminal_port/src/session.rs:525-533 | The parser's last event, if any, goes out under the credit |
| Session.Session.Expire | native/terminal_port/src/session.rs:556-565 | An Escape that waited long enough goes out as the Escape key |
| Session.Session.Continue | native/terminal_port/src/session.rs:467-471 | A continuation raises the barrier: ResumeNeeded, and no work until the next Ready |
| Session.Session.Iterate | native/terminal_port/src/session.rs:451-568 | One turn of the loop, whatever signals, owner, terminal and clock do, keeps every invariant |
| Session.Session.Run | native/terminal_port/src/session.rs:449-569 | So does any number of turns |
| Session.Session.Close | native/terminal_port/src/session.rs:608-624 | The title and the modes are given back however the run ended; exit 0 means a fine run and an acknowledged restoration, otherwise one Error with the reason |
| Session.Session.ModesAccounted | native/terminal_port/src/session.rs:125-253 | While every write and acknowledgement has succeeded: the modes on are exactly the chosen ones while active and a shell's otherwise, the keyboard mode is pushed exactly when active and enhanced, the saved titles are 0 or 1, and behind a Restored the modes, the line discipline, the keyboard and the title are all back |
| Session.Session.NothingLost | native/terminal_port/src/session.rs:407-448 | For credits that wait for Ready: what was sent, what waits and what is buffered are together exactly what every byte read says, in order, every read under the typeahead count the one before left |
| Session.Session.OnlySuspensionsDrop | native/terminal_port/src/session.rs:242-253 | A wheel event that was taken away was taken by a withdrawal of the credit, one each, at which everything before it had been sent |
| Session.Session.PasteDelivered | native/terminal_port/src/session.rs:407-448 | A bracketed paste among everything read goes to the owner as one event in its place, or as the Escape key if a wait ran out after its first byte; once nothing waits it has been sent |
| Session.Session.TypedPasteDelivered | native/terminal_port/src/session.rs:179-211 | The same of a paste that began in what was typed before the first Ready |
| Session.Live | native/terminal_port/src/session.rs:571-625 | From a shell's terminal through a whole session and the guard's last restoration: a lawful trace, and the terminal is the shell's again when every call succeeded |
| Guardian.Guardian.Signal | native/tool_command/main.c:116-125 | One termination, then one kill a tenth of a second later, to the whole group once the job is its own |
| Guardian.Guardian.Reaping | native/tool_command/main.c:126-129 | Reaped only after the kill |
| Guardian.Guardian.Launch | native/tool_command/main.c:181-192 | The launch byte is written only when no end is decided yet |
| Guardian.Guardian.Notice | native/tool_command/main.c:106-115 | Deadline, interruption and the leader's exit, noticed and never forgotten |
| Guardian.Guardian.Finish | native/tool_command/main.c:130-148 | The result once the output is over; the loop ends exactly when abandoned or when the result was acknowledged with the queue empty |
| Guardian.Guardian.Report | native/tool_command/main.c:137-146 | Cancelled, timed out or the exit code, in this precedence |
| Guardian.Guardian.Enqueue | native/tool_command/main.c:40-46 | The queue stays what was not yet written of whole packets, and a packet is refused only when it does not fit |
| Guardian.Guardian.Drop | native/tool_command/main.c:202-206 | After a short write the rest of the queue has moved to the front unchanged |
| Guardian.Guardian.Obey | native/tool_command/main.c:163-178 | One five-byte frame: an acknowledgement counts only while one is due, the final one only after the result, anything unknown abandons the job; nothing else changes |
| Guardian.Guardian.Hear | native/tool_command/main.c:157-180 | The parent's bytes have exactly the effect of their whole frames in order |
| Guardian.HearConcat | native/tool_command/main.c:157-180 | How the bytes are cut into reads makes no difference |
| Guardian.HearFrames | native/tool_command/main.c:157-180 | From the start of a frame, exactly the whole five-byte frames are obeyed, in order, and the rest is kept |
| Guardian.Guardian.ReadOutput | native/tool_command/main.c:193-201 | Output is read only with room and a credit, and passed on whole unless cancelled; the packet always fits |
| Guardian.Guardian.WriteOut | native/tool_command/main.c:202-206 | What is written is a first part of the queue |
| Guardian.Guardian.Iterate | native/tool_command/main.c:105-207 | One turn keeps every invariant; the loop ends only after the reaping |
| Guardian.Guardian.Run | native/tool_command/main.c:105-212 | Over any number of turns, and a run that ends without being abandoned has written every packet, the result last |
| Guardian.Guardian.LaunchFirst | native/tool_command/main.c:181-192 | The launch is the first thing that happens to the job: no kill was scheduled before it |
| Guardian.Guardian.GroupKilledFirst | native/tool_command/main.c:116-129 | A launched job's whole group is killed before its leader is reaped |
| Guardian.Guardian.NothingAfterReaping | native/tool_command/main.c:126-129 | Nothing is sent to a reaped job, and no signal is sent twice |
| Guardian.Guardian.WellFormedOutput | native/tool_command/main.c:40-46 | For any parent: the queue never exceeds its capacity, the pipe carries a first part of whole packets with at most one result, the last; the log holds exactly the frames heard and the packets, decides credits, result and final acknowledgement, and credits plus data packets minus the acknowledgements accepted in it is four |
| Guardian.Guardian.NothingWithheld | native/tool_command/main.c:136-147 | A run that ends in its own exit or at its deadline has passed on exactly what it read |
| Locks.GuardStopsWriters | native/schema_snapshot/main.c:196-232 | Under either guard no other honest process may write the main file or the log, nor initialize the shared memory |
| Locks.OneMove | native/schema_snapshot/main.c:196-232 | One honest step of another process keeps the copier's locks, and under a guard the contents |
| Snapshot.System.LockMainShared | native/schema_snapshot/main.c:196-201 | Success holds the whole shared range |
| Snapshot.System.LockMainExclusive | native/schema_snapshot/main.c:203-207 | Success is the exclusive guard, reserved and pending bytes included |
| Snapshot.System.LockShm | native/schema_snapshot/main.c:209-232 | Success is the log guard; refused when the query saw an initializer or failed, alone on the dead-man switch exactly when it saw nobody |
| Snapshot.System.SetLock | native/schema_snapshot/main.c:186-194 | Success holds exactly these bytes more, and locks stay exclusive |
| Snapshot.Copier.CopyFile | native/schema_snapshot/main.c:243-266 | Through short reads, short writes and interruptions, success is an exact copy |
| Snapshot.Copier.WriteChunk | native/schema_snapshot/main.c:253-261 | Short writes and interruptions put every buffered byte at its place once |
| Snapshot.Copier.Guard | native/schema_snapshot/main.c:341-351 | Log locks when there is a log with shared memory, otherwise the main file exclusively |
| Snapshot.Copier.Run | native/schema_snapshot/main.c:297-370 | In every interleaving with honest processes, success means the outputs are the main file and the log of one instant, and the reported sizes theirs |
| Snapshot.ParseNumber | native/schema_snapshot/main.c:65-76 | Accepts exactly the decimal digits, without leading zeros, of the numbers of 64 bits |

## Left out

- Byte-level spelling of the painter's control sequences: the painter sends operations (CUP, EL, ECH, SGR parameters, text), not the bytes the terminal library formats them into, and a failed write leaves the terminal in an arbitrary state of the same size.
- The width policy of glyphs: each text is assumed to reach at least one column and at most its declared width, which is the projector's promise.
- Display.Retained.Draw: covers bodies whose frame has the terminal's size, because the session skips any other before it calls the painter.
- Session.Session.Paint: the session's own painting is one operation that succeeds or fails, because the painter's writes are proved in `Painter` and `Display.Stage`, which has the same draw command with the painter and without the session; what the session adds is the verdict, its packet and when the retained screen is forgotten.
- Session.Session.NothingLost: covers owners whose credits wait for Ready, as do `OnlySuspensionsDrop` and `PasteDelivered`, because a credit granted earlier lets a second burst replace a waiting one: `EarlyCredit` is such a run, and by `Receive` a waiting event is lost exactly when a burst is read meanwhile.
- Session.Session.ModesAccounted: covers runs in which every write and acknowledgement succeeded, because a restoration clears its memory of the keyboard mode before writing.
- Session.Session.Owner: any body of admissible length may arrive; that the framer hands over the bodies that were sent is `Framer.Collect`.
- Time: the 500 ms write bound, the 40 ms Escape, the 100 ms size observation, the probe's wait and the 20 ms polls are choices of the environment; in the guardian the deadline, the 100 ms kill delay and the 500 ms idle limit are compared with a clock that never goes back.
- The guard's loop over signals, stop timers and the parent's end of file, and the forwarding of signals to the writer; the requests it serves and its last restoration are in `Tty`.
- `FdWriter`: its retries and poll are the short writes and failures of the environment.
- Terminal attributes: the line discipline is raw or as it was found, not the contents of termios.
- The packets of a failed write: every packet handed to the pipe is in the trace, whether or not all of its bytes arrived.
- Opening and handing over terminals (`beam_handoff`), descriptor and process setup, forking, and the command line of the guardian.
- The copier's identity, ownership, mode-bit and directory checks and its success line; the release of its locks by closing descriptors, which comes after the result is decided.
- SQLite itself: other processes are bound only by which locks they hold when they write the main file, the log or a journal, and lock requests of any shape are allowed to them.
- Key tables are modelled branch by branch but no theorem is stated about single entries.
- Debug formatting, `frame_inspect.rs`, Python scripts, tests, Mix and shell files.
