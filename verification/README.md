# octty verification

A Dafny 4.11 model of the stateful core of octty, a terminal workspace for coding agents, with proofs of
what its parts promise over whole runs. Check it with `dafny verify dfyconfig.toml`.

Code that computes a value is a function; code that updates fields or loops is a class or a method, proved
equal to a specification function, and the properties are lemmas about these functions. Interleavings are
runs of steps: a task only yields where it awaits, so each stretch between two awaits is one step.

| files | what they model |
|---|---|
| `TerminalSnapshots`, `SnapshotExtractors`, `SnapshotDamage` | terminal snapshots, extraction of dirty rows by row hash, coalescing of damage |
| `LivePane` | the pending, latest and presented snapshots of one pane |
| `PaintRows`, `RenderCache` | painting a row; the per-session row cache and row views behind the grid |
| `GridFrames` | one frame of the grid: what it keeps, and when it shows the snapshot |
| `RenderPipeline`, `Presentations`, `ScreenCells` | extractor, queue, pane, cache and views as one state machine; when a pane presents; the emulator's cells on the screen |
| `Frames` | length-prefixed framing, the client's frame reader, handshake and relay |
| `AppFrames` | the application's own frame reader, and the capture of a pane through it |
| `InputFilters` | the stdin filter for the detach key and focus sequences |
| `OscStreams` | the OSC passthrough filter and the OSC notification parser over the same stream |
| `ShellQuoting` | shell quoting, against a tokenizer for the POSIX Shell Command Language (IEEE Std 1003.1) |
| `TraceText`, `TerminalTrace` | the trace recorder and the parser that replays its event log |
| `ScreenRow` | a row of cells with sparse combining marks |
| `StatusRefresh` | debounced workspace status refresh |
| `PaneActivities`, `PaneHistory` | write-behind persistence of pane activity; what a pane's changes make of it |
| `ClientGuards`, `DeferredResponses` | client eviction and the bounded reply queue of a session |
| `Layout`, `Viewport` | panes and columns; scrolling the active column into view |

## Where the code falls short

Some properties hold only under a condition. Where it can be stated exactly it is proved in both directions:
the property holds if and only if the condition does.

- A snapshot that waits for its presentation interval is overwritten, and its damage not merged; likewise one
  that was presented but not painted when the next is presented. The next frame is right on every screen the
  dropped snapshot was right for exactly when the newer one reports at least the same rows
  (`GridFrames.ReplacementShowsExactly`), and the end-to-end theorem asks each step for just that
  (`RenderPipeline.Safe`). `RenderPipeline.UnpaintedDamageIsLost` has a run of each kind, for any hash, that
  leaves a stale row. A pane that stays selected holds nothing back. Views equal cached rows even then
  (`RenderPipeline.ViewsShowRows`), and a sync makes a stale screen good again
  (`Presentations.FullDamageHeals`).
- Row hashes find every change exactly when no two differing rows in the same place share a hash
  (`SnapshotExtractors.ExtractCoversExactly`). The hash is a parameter.
- The OSC filter drops the byte that trips its cap (`OscStreams.FilterAccounts`, at the input of
  `OscStreams.LongPayloadLosesAByte`), and treats ESC after ESC otherwise than the parser does
  (`OscStreams.AgreePrefixes`), so a sequence begun by a doubled ESC is parsed but never stripped
  (`OscStreams.DoubledEscapeOpens`).
- The stdin filter forwards focus sequences raw when the detach key is in the same buffer
  (`InputFilters.DetachBufferIsFilteredExactly`, `InputFilters.FocusBeforeDetachIsSentRaw`).
- An empty path is pasted as nothing at all (`ShellQuoting.PastedPathRoundTrip`).
- A trace whose output path holds whitespace cannot be replayed from its own log
  (`TerminalTrace.PathRoundTripExactly`); an output whose write failed is still logged with its full length
  (`TerminalTrace.ReplaySeesRecordedBytesExactly`).
- A status task that outlives a suspension may refresh once more with nothing due. That can happen exactly
  when a workspace has a task too many (`StatusRefresh.RefreshesAnswerExactly`), which a suspension brings
  about exactly when its workspace is due (`StatusRefresh.SuspendKeepsOneTaskExactly`).
- A failed write of pane activity drops the rest of its batch (`PaneActivities.FailedWriteKeepsExactly`,
  over whole runs `PaneActivities.ActivityIsNotLost`).
- At the interface of a session, a connect after a disconnect whose client is still attached leaves two
  clients attached (`ClientGuards.OneClientExactly`, `ClientGuards.ReconnectAttachesTwo`). No caller does that:
  a session is disconnected only after it was taken out of the manager
  (crates/retach-octty/src/server/client_handler.rs:76-85). A guard drop whose read and store were apart could
  clear the flag of a newer client (`ClientGuards.LateDropKeepsInvExactly`).
- At the interface of a row, a combining mark pushed beyond its end makes it inconsistent
  (`ScreenRow.PushCombiningRefines`); the one caller checks the column first
  (crates/retach-octty/src/screen/performer.rs:491). The boundary fix leaves the marks of a blanked cell, and
  blanks a complete wide character that ends at the boundary (`ScreenRow.FixIsNeedlessExactly`).
- Removing a pane undoes an addition except for the active pane (`Layout.RemoveUndoesAdd`). In a stored column
  of several panes it would leave the removed height over (`Layout.HeightsFallByRemoved`); adding and removing
  never build such a column (`Layout.ReachableColumnsHoldOnePane`).

## Model

| member | source | states |
|---|---|---|
| `RenderPipeline.ScreenIsFresh` | crates/octty-app/src/terminal_render_grid.rs:186-268 | End to end, over every run of extract, drain, sync and frame steps that each respect `Safe`, from any cache contents: the cached rows, the row views and the returned row inputs equal a from-scratch paint of the last painted snapshot, and a frame now would make them equal one of the latest snapshot |
| `RenderPipeline.DisciplinedScreenIsFresh` | crates/octty-app/src/terminal_render_grid.rs:186-268 | The same for every run in which differing rows hash differently, no pending snapshot is overwritten and each presented snapshot is painted before the next |
| `RenderPipeline.LastExtractedIsShown` | crates/octty-app/src/terminal_render_grid.rs:186-268 | After any safe run that leaves nothing queued or pending, the next frame shows exactly what the extractor gave last |
| `ScreenCells.EmulatorCellIsShown` | crates/octty-app/src/terminal_render_grid.rs:186-268 | From the emulator to the screen: after any run at all, safe or not, extracting the emulator's grid, a sync and a frame leave a view for each row that shows each of its cells: a background run exactly where its paper is not the terminal's background, and its glyph exactly when something is drawn, with its text, width, style and ink |
| `ScreenCells.FreshShowsCell` | crates/octty-app/src/terminal_render_paint.rs:47-131 | The same for every cache that is fresh for what was extracted, as the other theorems leave it: own or default colours of eight bits a component, exchanged when inverse, the ink half way to the paper when faint |
| `RenderPipeline.DrainedOrSyncedIsShown` | crates/octty-app/src/app_live_terminals.rs:299-458 | After any safe run, a safe drain of a selected pane, or a sync, followed by a frame shows exactly what the extractor gave last |
| `RenderPipeline.StepKeepsInv` | crates/octty-app/src/app_live_terminals.rs:299-458 | Every safe step keeps the pipeline invariant: queue, pending and latest snapshots each report what changed since what is on screen |
| `RenderPipeline.RunKeepsInv` | crates/octty-app/src/app_live_terminals.rs:299-458 | The invariant over whole runs |
| `RenderPipeline.ViewsShowRows` | crates/octty-app/src/terminal_render_paint.rs:83-131 | Over every run whatsoever, safe or not, from a coherent cache such as a new one: after every frame each row view shows exactly the cached row, columns, row input and glyphs, and the last paint input holds the cached rows |
| `RenderPipeline.UnpaintedDamageIsLost` | crates/octty-app/src/app_live_terminals.rs:337-355 | For every hash and initial cache, two runs that leave a stale row on screen: a held-back snapshot of an unselected pane overwritten, and a presented snapshot of a selected pane replaced before it was painted |
| `RenderPipeline.SelectedRunIsDisciplined` | crates/octty-app/src/terminal_state.rs:245-261 | In a run whose drains all find the pane selected, nothing pending is ever overwritten |
| `Presentations.PresentsExactly` | crates/octty-app/src/terminal_state.rs:232-261 | Over every run: a drain presents what waits exactly when the pane is selected, was never presented, or was last presented, by a drain or a sync, at least 100 ms ago; a sync presents whatever waits |
| `Presentations.FullDamageHeals` | crates/octty-app/src/app_live_terminals.rs:337-458 | After any run at all, safe or not, stale rows included: a sync, or presenting a pane outside the active workspace, followed by a frame shows exactly what the extractor gave last |
| `Presentations.RunForgetsNothing` | crates/octty-app/src/app_live_terminals.rs:299-458 | Over every run the last extraction is the end of the queue, or else held back, or else presented |
| `Presentations.UnpresentedIsKept` | crates/octty-app/src/app_live_terminals.rs:337-404 | A drain that does not present keeps the last extraction pending and leaves what was presented alone |
| `GridFrames.FrameKeepsCoherent` | crates/octty-app/src/terminal_render_grid.rs:206-266 | One frame of any snapshot, whatever its damage, keeps every row cached and every view equal to the cached row, and returns the cached rows, although only flagged views are refreshed |
| `GridFrames.RebuiltMeansFlagged` | crates/octty-app/src/terminal_render_grid.rs:218-241 | A cached row is missing only in a cache just invalidated, so a row is rebuilt exactly when it is flagged |
| `GridFrames.NewCacheIsCoherent` | crates/octty-app/src/terminal_render_grid.rs:192-205 | A session's new cache is coherent |
| `GridFrames.FrameIsFresh` | crates/octty-app/src/terminal_render_paint.rs:83-131 | One frame: a cache fresh for a snapshot, or any cache at all before a full one, is fresh for the next snapshot when its damage covers the change |
| `GridFrames.ReplacementShowsExactly` | crates/octty-app/src/app_live_terminals.rs:337-355 | Replacing an unpainted snapshot by its successor without merging damage shows the successor, for every cache fresh for a picture the dropped damage covered, if and only if the successor reports at least the dropped rows |
| `GridFrames.RenderTerminalGrid` | crates/octty-app/src/terminal_render_grid.rs:13-40 | Rendering with the mutable cache, paint input then row views, is exactly the frame of the pipeline on what the views show; it keeps coherence and leaves other sessions alone |
| `GridFrames.PaintCommutesWithContents` | crates/octty-app/src/terminal_render_grid.rs:186-268 | Painting a cache of views and then looking at what they show is painting what they show |
| `LivePane.ReplacingUnconsumed` | crates/octty-app/src/app_live_terminals.rs:337-355 | The successor's damage covers the change from every picture the dropped damage covered, if and only if it reports at least the dropped rows |
| `LivePane.LiveTerminalPane.Drain` | crates/octty-app/src/app_live_terminals.rs:299-404 | The drain of one pane: coalesce, overwrite pending, take if presentable, update latest and the presentation time, or ask for a deferred wake-up |
| `LivePane.LiveTerminalPane.SyncActiveWorkspace` | crates/octty-app/src/app_live_terminals.rs:406-458 | The sync of one pane: whatever is pending or queued becomes latest, fully damaged |
| `LivePane.LiveTerminalPane.TakePresentableSnapshot` | crates/octty-app/src/terminal_state.rs:221-230 | The pending snapshot is taken exactly when no delay is due |
| `LivePane.DelayIsExact` | crates/octty-app/src/terminal_state.rs:232-261 | A delay asked for is positive and is exactly how long the snapshot stays unpresentable |
| `SnapshotDamage.CoalescedCovers` | crates/octty-app/src/terminal_state.rs:263-303 | For any non-empty batch whose members each report their change from the predecessor, the coalesced damage covers every row that differs between the picture before the batch and the last snapshot |
| `SnapshotDamage.CoalescedReportsExactly` | crates/octty-app/src/terminal_state.rs:263-303 | A batch with a fully damaged member, or that changes session or size anywhere, gives full damage listing every row; any other gives just the rows in range that some member reports |
| `SnapshotDamage.Coalesced` | crates/octty-app/src/terminal_state.rs:263-303 | The result shows the last snapshot; its rows are strictly increasing and in range, full exactly when all are listed, cells exactly rows times columns; unforced, the rows are exactly the reported ones in range |
| `SnapshotDamage.CoalesceTerminalSnapshots` | crates/octty-app/src/terminal_state.rs:263-303 | The loop computes that, and nothing for an empty batch |
| `SnapshotDamage.MarkTerminalSnapshotFullDamage` | crates/octty-app/src/terminal_state.rs:305-315 | Every row listed, full set, the picture unchanged |
| `TerminalSnapshots.CellCountFits` | crates/octty-app/src/terminal_state.rs:293-301 | Rows times columns fits 32 bits, so the cast never truncates |
| `TerminalSnapshots.CountTellsAllListed` | crates/octty-app/src/terminal_state.rs:293 | Comparing the number of dirty rows with the row count tells whether every row is listed |
| `SnapshotExtractors.ExtractCoversExactly` | crates/octty-term/src/live_snapshot.rs:65-154 | The extracted damage covers the change from the previous grid if and only if the size changed or no differing row has the hash of the row before it |
| `SnapshotExtractors.FirstSnapshotIsFull` | crates/octty-term/src/live_snapshot.rs:65-172 | The first snapshot of an extractor is a full one |
| `SnapshotExtractors.SnapshotExtractor.Snapshot` | crates/octty-term/src/live_snapshot.rs:22-185 | The nested loops read the emulator's grid, report exactly the rows whose hash changed, and leave the new hashes and size behind |
| `SnapshotExtractors.ReadRow` | crates/octty-term/src/live_snapshot.rs:72-125 | The inner loop reads a row of emulator cells into snapshot cells: text, width class, colours and style, one for one |
| `SnapshotExtractors.CellsAreRead` | crates/octty-term/src/live_snapshot.rs:72-125 | In every snapshot each cell has the emulator's characters, colours and each style flag there, and width 2, 1 or 0 for a wide cell, a narrow one or a spacer |
| `PaintRows.BackgroundRunsPaint` | crates/octty-app/src/terminal_render_paint.rs:438-482 | The runs paint every column its own background and no other column; neighbours never touch with the same colour |
| `PaintRows.BackgroundRunsUnique` | crates/octty-app/src/terminal_render_paint.rs:438-482 | They are the only runs that do: a list of runs paints exactly and maximally if and only if it is this one |
| `PaintRows.PaperIsPainted` | crates/octty-app/src/terminal_render_paint.rs:438-504 | In a painted row a column lies in a run exactly when its paper is not the default background, and the run has that paper: the cell's own or the default background, or foreground when the cell is inverse, faint or not |
| `PaintRows.GlyphIsShown` | crates/octty-app/src/terminal_render_paint.rs:47-81 | A column has a glyph exactly when its cell has width, is visible and holds more than a blank; the glyph has the cell's text, width and style in its ink, which is the other of the two colours, half way to the paper when the cell is faint |
| `PaintRows.GlyphsAreOrdered` | crates/octty-app/src/terminal_render_paint.rs:54-72 | Each column has at most one glyph, and glyphs come in column order |
| `PaintRows.ReverseVideoSwaps` | crates/octty-app/src/terminal_render_paint.rs:484-504 | A reverse-video character without own colours: background ink on a run in the foreground colour |
| `PaintRows.TerminalBackgroundRuns` | crates/octty-app/src/terminal_render_paint.rs:438-482 | The loop with its open run computes these runs; `PaperIsPainted` says in which colours |
| `PaintRows.RowGlyphsAtOwnColumns` | crates/octty-app/src/terminal_render_paint.rs:47-81 | A row has a glyph exactly for each cell that needs one, at that cell's column; `GlyphIsShown` says in which colour |
| `PaintRows.TerminalCachedPaintRow` | crates/octty-app/src/terminal_render_paint.rs:47-81 | The row painting loop computes the painted row that `PaperIsPainted`, `GlyphIsShown` and `GlyphsAreOrdered` describe |
| `RenderCache.TerminalRenderCache.TerminalPaintInput` | crates/octty-app/src/terminal_render_grid.rs:186-268 | The paint input and the session's cache afterwards: reset when invalid, rows rebuilt when flagged or missing and reused otherwise, other sessions untouched |
| `RenderCache.TerminalRenderCache.TerminalRowViewsForInput` | crates/octty-app/src/terminal_render_paint.rs:83-131 | Views are created where missing, updated in place where flagged and kept otherwise, and a row keeps its view as long as their number stays; no view is shared and other sessions' views do not change |
| `RenderCache.RebuildRows` | crates/octty-app/src/terminal_render_grid.rs:230-252 | The row loop: each row is rebuilt from the snapshot or reused, and exactly the rebuilt rows' glyphs are submitted |
| `RenderCache.SubmittedExactly` | crates/octty-app/src/terminal_render_grid.rs:226-266 | One paint submits the glyphs of each rebuilt row, which with its row input are that row painted from scratch, and none of a reused one; rebuilt and reused rows are counted and add up to all rows |
| `RenderCache.DirtyRowFlags` | crates/octty-app/src/terminal_render_grid.rs:220-225 | A row is flagged exactly when all are or the damage lists it; rows out of range are ignored |
| `Frames.DeliverStream` | crates/retach-octty/src/client/mod.rs:332-384 | Handshake and relay together: however the frames of payloads within the limit are cut into reads, the reply is the first payload and exactly the others are dispatched in order, up to the one that ends the session; no error arises |
| `Frames.Converse` | crates/retach-octty/src/client/mod.rs:299-384 | For any bytes, well framed or not, handing the reply's leftover to the relay loses nothing: the outcome is that of draining the whole stream at once |
| `Frames.RunSocketToStdout` | crates/retach-octty/src/client/mod.rs:295-329 | The relay loop dispatches what draining leftover and all reads at once would give, with the same end; the overflow guard never fires |
| `Frames.RelayedByIndex` | crates/retach-octty/src/client/mod.rs:302-329 | Of a drained stream the first terminal message is dispatched and nothing after it, whatever error follows; without one all messages are, and the relay fails exactly when an error stopped the stream |
| `Frames.AwaitReply` | crates/retach-octty/src/client/mod.rs:332-384 | The handshake takes exactly the first frame and keeps every later byte |
| `Frames.DrainSplits` | crates/retach-octty/src/protocol/codec.rs:175-184 | Draining a stream is draining a first part and then its rest with the remainder, for any cut |
| `Frames.DrainStopsAtError` | crates/retach-octty/src/protocol/codec.rs:63-78 | After a framing error later bytes change neither the payloads nor the error |
| `Frames.DrainStream` | crates/retach-octty/src/protocol/codec.rs:45-78 | Draining the frames of a list of payloads gives back the list, with nothing left |
| `Frames.OversizedStopsStream` | crates/retach-octty/src/protocol/codec.rs:63-78 | An oversized header after the frames of any payloads: these are delivered, and the stream stops at the header with its length as the error |
| `Frames.EncodeDecode` | crates/retach-octty/src/protocol/codec.rs:45-78 | A payload is encoded if and only if it is within the limit, and then decodes to itself with its length whatever follows |
| `Frames.FrameOnTheWire` | crates/retach-octty/src/protocol/codec.rs:45-53 | A frame on the wire: four bytes that are the payload's length divided by 256 cubed, squared, to the first and the zeroth power, modulo 256, then the payload |
| `Frames.HeaderOffTheWire` | crates/retach-octty/src/protocol/codec.rs:63-78 | Any buffer: incomplete below four bytes; else these, the most significant first, are the length, refused over the limit, incomplete until as many bytes follow, and then exactly those are the payload |
| `Frames.OversizedIsRefused` | crates/retach-octty/src/protocol/codec.rs:63-78 | A header over the limit, as only another sender could write it, is refused whatever follows; `HeaderOffTheWire` says which four bytes that is |
| `Frames.PrefixIsIncomplete` | crates/retach-octty/src/protocol/codec.rs:63-78 | Any proper prefix of a frame asks for more bytes |
| `Frames.FrameReader.FillFrom` | crates/retach-octty/src/protocol/codec.rs:142-168 | The unread bytes grow by the read; an overflow is reported exactly above two frames plus headers |
| `Frames.FrameReader.DecodeNext` | crates/retach-octty/src/protocol/codec.rs:175-184 | The offset-based reader takes the first frame off the unread bytes as `DecodeFrame` says, which `HeaderOffTheWire` describes byte by byte |
| `Frames.FrameReader.IntoLeftover` | crates/retach-octty/src/protocol/codec.rs:187-189 | The leftover is exactly the unread bytes |
| `AppFrames.AppFrameReader.FillFrom` | crates/octty-term/src/retach.rs:733-750 | The application's copy of the reader, to the same contract |
| `AppFrames.AppFrameReader.DecodeNext` | crates/octty-term/src/retach.rs:752-774 | The application's copy, with the header worked out by explicit indices, decodes as `DecodeFrame` says, which `HeaderOffTheWire` describes byte by byte |
| `AppFrames.ConnectRetachSession` | crates/octty-term/src/retach.rs:431-449 | Connecting takes exactly the first frame of the reads made, no earlier read having completed one, and the reader keeps every later byte |
| `AppFrames.CaptureRetachPane` | crates/octty-term/src/retach.rs:132-175 | With one reader across connect and capture, however the stream is cut: exactly the messages that the reads made complete are dispatched, and reading stops after the first read that completes a screen or a terminal message or shows an error, no sooner and no later, or when the reads are over; the overflow guard never fires |
| `AppFrames.CaptureIsPrefix` | crates/octty-term/src/retach.rs:132-175 | Stopping at any read dispatches a prefix of what the whole stream would, and the same once it ended |
| `InputFilters.SessionIgnoresChopping` | crates/retach-octty/src/client/mod.rs:101-205 | Without a detach key any chopping of the input and the final flush send the same as one read, up to merging neighbouring forwards |
| `InputFilters.SessionConserves` | crates/retach-octty/src/client/mod.rs:101-205 | For every input and chopping, what the reads were taken to mean, focus events written out, is the input up to the first detach key |
| `InputFilters.SessionAccounts` | crates/retach-octty/src/client/mod.rs:101-205 | For every input and chopping some reading of it is all that was sent, save lost focus, and written out it is the input up to the first detach key |
| `InputFilters.SessionSends` | crates/retach-octty/src/client/mod.rs:120-195 | The actions of a session flatten to the visible tokens of the scanned reads |
| `InputFilters.TokensIgnoreChopping` | crates/retach-octty/src/client/mod.rs:120-195 | The tokens read do not depend on the chopping |
| `InputFilters.ScanConserves` | crates/retach-octty/src/client/mod.rs:143-193 | Scanning loses no byte, and the carry is always empty, ESC, or ESC and a bracket |
| `InputFilters.ScanSplits` | crates/retach-octty/src/client/mod.rs:143-193 | Scanning a stream is scanning any first part and then its carry with the rest |
| `InputFilters.DetachBufferIsFilteredExactly` | crates/retach-octty/src/client/mod.rs:130-136 | A buffer holding the detach key is forwarded as if filtered if and only if no focus sequence comes before the key |
| `InputFilters.FocusBeforeDetachIsSentRaw` | crates/retach-octty/src/client/mod.rs:130-136 | The buffer of a gained focus and the detach key: the focus sequence is sent as plain bytes |
| `InputFilters.FocusIsRecognised` | crates/retach-octty/src/client/mod.rs:143-193 | ESC [ I and ESC [ O between any texts without ESC are read as one focus event each, and the texts byte by byte |
| `InputFilters.FocusIsAnnounced` | crates/retach-octty/src/client/mod.rs:143-193 | A read of text, focus gained, text sends the text, the focus event, the text; with focus lost it sends both texts as one forward and no trace of the event |
| `InputFilters.OtherEscapeScans` | crates/retach-octty/src/client/mod.rs:150-180 | Any other byte after ESC, a second ESC included, is plain together with it |
| `InputFilters.OtherControlScans` | crates/retach-octty/src/client/mod.rs:150-180 | Any other control sequence is plain up to its bracket |
| `InputFilters.DetachIsLast` | crates/retach-octty/src/client/mod.rs:124-138 | A read detaches exactly when its buffer holds the key, once and last |
| `InputFilters.GroupMerges` | crates/retach-octty/src/client/mod.rs:113-117 | No empty forward and no two neighbouring ones are produced by one read |
| `InputFilters.InputFilter.Process` | crates/retach-octty/src/client/mod.rs:120-195 | One call: the actions and new carry of the carry followed by the input |
| `InputFilters.FilterFocusEvents` | crates/retach-octty/src/client/mod.rs:143-193 | The index loop computes the grouped tokens of the scan |
| `InputFilters.RunStdinToSocket` | crates/retach-octty/src/client/mod.rs:209-265 | The loop over reads sends the actions of the session, stopping at a detach and flushing the carry at the end of input |
| `OscStreams.FilterAccounts` | crates/octty-term/src/live_notifications.rs:95-176 | Over every stream: passed, stripped and dropped bytes in order, then the held sequence, are the input; stripped pieces are complete OSC 133 or 633 sequences, dropped pieces one byte; one is dropped if and only if a byte trips the cap |
| `OscStreams.StripsExactly` | crates/octty-term/src/live_notifications.rs:164-169 | Over every stream exactly the completed sequences with an OSC 133 or 633 payload are stripped, in order |
| `OscStreams.OscIsRecognised` | crates/octty-term/src/live_notifications.rs:29-210 | For every payload below the cap in which ESC is always followed by a byte other than ESC and backslash, and BEL follows an ESC: ended by BEL or ST, the parser completes exactly it, and the filter lets the sequence through unless the payload starts with 133; or 633;, and then nothing of it |
| `OscStreams.OscInStream` | crates/octty-term/src/live_notifications.rs:29-210 | Such a sequence in a stream: the text before it passes, the sequence passes or is stripped, and what follows is filtered and parsed as on its own |
| `OscStreams.StripsShellIntegration` | crates/octty-term/src/live_notifications.rs:207-210 | A payload is to be stripped exactly when its bytes start with those of 133; or 633; |
| `OscStreams.LongPayloadLosesAByte` | crates/octty-term/src/live_notifications.rs:154-162 | The stream of an opened payload one byte over the cap: its last byte is lost |
| `OscStreams.StepAccounts` | crates/octty-term/src/live_notifications.rs:104-176 | The same for one byte, with the invariant that the held sequence is ESC, bracket and data |
| `OscStreams.FilterIgnoresChopping` | crates/octty-term/src/live_notifications.rs:96-102 | Filtering does not depend on how the stream is cut |
| `OscStreams.TerminalOscPassthroughFilter.Push` | crates/octty-term/src/live_notifications.rs:96-102 | The pushed bytes that pass are returned and the state moves on as specified |
| `OscStreams.AgreePrefixes` | crates/octty-term/src/live_notifications.rs:29-176 | Filter and parser are in the same state with the same data after every byte if and only if no byte diverges: ESC after ESC or inside a string terminator, or a terminator broken just below the cap |
| `OscStreams.DoubledEscapeParts` | crates/octty-term/src/live_notifications.rs:40-152 | The stream of two ESC: the machines part |
| `OscStreams.DoubledEscapeOpens` | crates/octty-term/src/live_notifications.rs:40-152 | After two ESC the parser takes the bracket for the start of a payload and completes it, while the filter lets all of it through, shell integration or not |
| `OscStreams.DoubledEscapeEnds` | crates/octty-term/src/live_notifications.rs:53-152 | Within a payload two ESC and a backslash end it for the parser, with one ESC kept, while for the filter the payload goes on |
| `OscStreams.AgreeStep` | crates/octty-term/src/live_notifications.rs:40-152 | The same for one byte, in both directions |
| `OscStreams.AgreePayloads` | crates/octty-term/src/live_notifications.rs:29-176 | While they agree they recognise the same OSC payloads |
| `OscStreams.PlainStreamsAgree` | crates/octty-term/src/live_notifications.rs:29-176 | On streams without a doubled ESC and with payloads below the cap minus 2 they agree throughout |
| `OscStreams.TerminalOscNotificationParser.Push` | crates/octty-term/src/live_notifications.rs:30-38 | The payloads completed by the pushed bytes, in order |
| `OscStreams.ParserIgnoresChopping` | crates/octty-term/src/live_notifications.rs:30-38 | State and payloads of the parser do not depend on how the stream is cut |
| `ShellQuoting.CommandLineRoundTrip` | crates/octty-term/src/retach.rs:539-580 | Tokenizing a quoted command line by sections 2.2.1, 2.2.2 and 2.3 of the POSIX Shell Command Language gives back the command and its arguments, for all strings |
| `ShellQuoting.JoinedWordsTokenize` | crates/octty-term/src/retach.rs:569-580 | The same for any list of quoted words |
| `ShellQuoting.PastedPathRoundTrip` | crates/octty-app/src/terminal_selection.rs:55-69 | A pasted path tokenizes to itself if and only if it is not empty |
| `ShellQuoting.QuotedExactly` | crates/octty-term/src/retach.rs:569-580 | A word stays as it is exactly when it is not empty and has only letters, digits and the six listed marks; any other is put in single quotes, three characters longer for each quote inside |
| `ShellQuoting.PastedPathQuotedExactly` | crates/octty-app/src/terminal_selection.rs:55-69 | A pasted path likewise with its own list of marks, and an empty one is left empty |
| `ShellQuoting.ShellSingleQuote` | crates/octty-term/src/retach.rs:525-537 | The character loop computes the single-quoted form |
| `TerminalTrace.RecordingParses` | crates/octty-app/src/cli.rs:347-415 | Parsing the event log of any recording gives back path, initial size and exactly the resize and output steps in order |
| `TerminalTrace.PathRoundTripExactly` | crates/octty-app/src/cli.rs:347-415 | The output path comes back if and only if it holds no whitespace |
| `TerminalTrace.ReplaySeesRecordedBytesExactly` | crates/octty-app/src/cli.rs:312-332 | The replayed chunks join to the output file if and only if every output was written whole, and then each chunk is the output recorded |
| `TerminalTrace.ChunksTile` | crates/octty-app/src/cli.rs:312-332 | The chunks tile the output file without gap or overlap |
| `TerminalTrace.RecordingFile` | crates/octty-term/src/live_trace.rs:74-79 | The output file holds, in order, exactly what reached it of every output, a failed write leaving any part |
| `TerminalTrace.ParseTerminalReplayEvents` | crates/octty-app/src/cli.rs:347-415 | The parsing loop, with its error for each missing field |
| `TerminalTrace.ResizeIsRead` | crates/octty-app/src/cli.rs:347-415 | A resize line gives its step exactly when both fields are 16-bit numbers, and else the error naming the first that is not |
| `TerminalTrace.OutputIsRead` | crates/octty-app/src/cli.rs:347-415 | An output line likewise, with 64-bit offset and length |
| `TerminalTrace.StartIsNeeded` | crates/octty-app/src/cli.rs:347-415 | A log without a start event gives no plan, whatever its other lines |
| `TerminalTrace.TerminalTraceRecorder.RecordOutput` | crates/octty-term/src/live_trace.rs:74-88 | One output: the file grows by what reaches it, the offset only if the write succeeds, and an event with the old offset is logged either way |
| `TerminalTrace.InputIsLogged` | crates/octty-term/src/live_trace.rs:90-99 | An input is logged with its source, its length and its first bytes, each found under its own name |
| `TerminalTrace.OutputIsLogged` | crates/octty-term/src/live_trace.rs:74-88 | An output is logged with its first bytes |
| `TerminalTrace.TerminalTraceHexPrefix` | crates/octty-term/src/live_trace.rs:163-175 | The encoding loop computes the hex prefix |
| `TerminalTrace.HexReadsBack` | crates/octty-term/src/live_trace.rs:163-175 | The digits of an event, read as hexadecimal pairs, are the first 48 bytes, followed by three dots exactly when there are more |
| `TraceText.SplitJoined` | crates/octty-app/src/cli.rs:403-407 | Fields joined by spaces split into the same fields |
| `TraceText.LinesOfUnlines` | crates/octty-app/src/cli.rs:355 | Lines written one after the other are read back as the same lines |
| `TraceText.DecimalRoundTrip` | crates/octty-app/src/cli.rs:409-415 | A printed number parses to itself exactly when it is in range |
| `TraceText.ParsedNumbers` | crates/octty-app/src/cli.rs:409-415 | A plus sign and leading zeros do not change a number; the empty text and one with any other character are none |
| `TraceText.SplitAtWhitespace` | crates/octty-app/src/cli.rs:403-407 | Any amount of any whitespace separates fields |
| `TraceText.LineEnds` | crates/octty-app/src/cli.rs:355 | A line ends at LF or CR LF; one CR goes, and a CR at the end of the text stays |
| `ScreenRow.InsertRefines` | crates/retach-octty/src/screen/cell.rs:157-166 | Insert on the sparse row is insertion of an unmarked cell in the dense sequence of cells and marks, and keeps keys distinct and in range |
| `ScreenRow.RemoveRefines` | crates/retach-octty/src/screen/cell.rs:142-153 | Remove is deletion from the dense sequence |
| `ScreenRow.PushRefines` | crates/retach-octty/src/screen/cell.rs:169-171 | Push appends an unmarked cell |
| `ScreenRow.PopRefines` | crates/retach-octty/src/screen/cell.rs:190-198 | Pop drops the last cell with its marks |
| `ScreenRow.ResizeRefines` | crates/retach-octty/src/screen/cell.rs:131-138 | Resize truncates or pads the dense sequence |
| `ScreenRow.ClearRangeRefines` | crates/retach-octty/src/screen/cell.rs:114-116 | Clearing a range removes the marks there and nothing else |
| `ScreenRow.PushCombiningRefines` | crates/retach-octty/src/screen/cell.rs:82-90 | A mark is appended to its column's marks; the row stays valid if and only if the column exists |
| `ScreenRow.RemoveUndoesInsert` | crates/retach-octty/src/screen/cell.rs:142-166 | Remove after insert at the same index is the identity, on the sparse form itself |
| `ScreenRow.TruncationKeepsPairsExactly` | crates/retach-octty/src/screen/cell.rs:131-138 | Truncation keeps wide and continuation cells paired if and only if it does not cut after a wide cell |
| `ScreenRow.BoundaryFixKeepsPairs` | crates/retach-octty/src/screen/cell.rs:176-187 | The boundary fix, then truncation, keeps them paired, and the fix leaves the marks alone; `BoundaryFixCells` says which cells it blanks |
| `ScreenRow.BoundaryFixCells` | crates/retach-octty/src/screen/cell.rs:176-187 | Cell by cell: a wide cell in the last column kept becomes the default cell, a continuation there becomes one together with the cell before it, and every other cell stays |
| `ScreenRow.NarrowBeforeCutIsKept` | crates/retach-octty/src/screen/cell.rs:181-182 | A narrow cell before a wide one that the boundary cuts is kept |
| `ScreenRow.FixIsNeedlessExactly` | crates/retach-octty/src/screen/cell.rs:183-186 | The fix changes a row that truncation alone would have kept paired, blanking a complete wide character, if and only if the last column kept is a continuation |
| `ScreenRow.Row.Insert` | crates/retach-octty/src/screen/cell.rs:157-166 | The in-place operation with its key-shifting loop |
| `ScreenRow.Row.Remove` | crates/retach-octty/src/screen/cell.rs:142-153 | The in-place operation with its key-shifting loop |
| `ScreenRow.Row.FixWideCharOrphanAtBoundary` | crates/retach-octty/src/screen/cell.rs:176-187 | The in-place fix computes the row that `BoundaryFixCells` describes cell by cell |
| `StatusRefresh.NoEventIsLost` | crates/octty-app/src/app_workspace_status.rs:71-203 | In every interleaving a workspace has a due time exactly while its last event is unanswered, 180 ms after that event; it is then marked active, not suspended, and has a task still in its loop |
| `StatusRefresh.DueRefreshStarts` | crates/octty-app/src/app_workspace_status.rs:93-157 | Once a due time has come some task can move, and within two of its stretches the refresh starts or the workspace is found gone |
| `StatusRefresh.SuspendedIsNotRefreshed` | crates/octty-app/src/app_workspace_status.rs:136-157 | Over every run: a task that refreshes does so for a workspace that is listed and whose last suspension, if any, was resumed; one ends as suspended only while its workspace is suspended |
| `StatusRefresh.TaskLeavesExactly` | crates/octty-app/src/app_workspace_status.rs:111-157 | A task whose timer fires leaves its loop exactly when its workspace is not due later, one polled first exactly when it is not due at all; no other task moves |
| `StatusRefresh.RefreshWaitsForQuiet` | crates/octty-app/src/app_workspace_status.rs:84-135 | A refresh that answers an event starts no sooner than 180 ms after the workspace's last event |
| `StatusRefresh.RefreshesAnswerExactly` | crates/octty-app/src/app_workspace_status.rs:93-157 | From every state that keeps the invariant: every refresh in every continuation that suspends only idle workspaces answers an event, if and only if each due workspace has one task and no other workspace has any |
| `StatusRefresh.SuspendKeepsOneTaskExactly` | crates/octty-app/src/app_workspace_status.rs:192-199 | A suspension keeps that if and only if the workspace is not due when it is suspended |
| `StatusRefresh.RefreshAnswersAnEvent` | crates/octty-app/src/app_workspace_status.rs:71-203 | From the start, while only workspaces that are not due are suspended, every refresh answers an event |
| `StatusRefresh.SuspensionLeavesASpareRefresh` | crates/octty-app/src/app_workspace_status.rs:192-203 | After any suspension of a due workspace there is a continuation without suspensions in which a refresh starts although nothing is due |
| `StatusRefresh.RunKeepsInv` | crates/octty-app/src/app_workspace_status.rs:71-203 | Active equals due, due and suspended are disjoint, each due workspace has a task, and no task sleeps past the due time, over every run |
| `StatusRefresh.OcttyApp.ScheduleWorkspaceStatusRefresh` | crates/octty-app/src/app_workspace_status.rs:71-92 | One event: ignored when suspended, else the due time moves and a task is spawned unless one is marked active |
| `StatusRefresh.OcttyApp.Wake` | crates/octty-app/src/app_workspace_status.rs:111-157 | The stretch after the timer: sleep again, or take the due time, leave and refresh unless suspended or gone, as `SuspendedIsNotRefreshed` says of every run |
| `PaneActivities.ActivityIsNotLost` | crates/octty-app/src/app_activity.rs:9-169 | In every interleaving, whatever writes fail: one task exactly while active, pending rows imply active, and a recorded key is not lost if and only if pending over in flight over stored is memory, which is what writing through would have stored; at rest the store holds exactly the recorded keys not lost |
| `PaneActivities.ComesToRest` | crates/octty-app/src/app_activity.rs:113-169 | From every reachable state, failed writes included, the task, left alone with its writes succeeding, ends, and then the store holds exactly the recorded keys that were not lost before |
| `PaneActivities.FailedWriteKeepsExactly` | crates/octty-app/src/app_activity.rs:141-163 | A failed write leaves a key right if and only if a newer row is pending, none of its rows was dropped, or the store already held the value |
| `PaneActivities.NothingLostWhenWritten` | crates/octty-app/src/app_activity.rs:113-169 | When all writes succeed nothing is lost |
| `PaneHistory.MemoryFollowsHistory` | crates/octty-app/src/app_activity.rs:9-64 | Over every run memory holds for a pane exactly what the changes recorded for it, in order, make of its entry, whatever is persisted in between |
| `PaneHistory.PaneStateFollowsRun` | crates/octty-core/src/types.rs:200-218 | At the end of every run a pane first recorded in it is active exactly when it had activity within the window with no attention at that time or later, and asks for attention exactly when it did and was not seen since |
| `PaneHistory.UnseenExactly` | crates/octty-core/src/types.rs:140-230 | For any history and any changes since the pane was last seen: it has unseen activity exactly when one of them was newer in time or in tmux's count than all before, or the last screen among them is another one; it asks for attention exactly when one of them did |
| `PaneHistory.SeenSettles` | crates/octty-core/src/types.rs:188-198 | Being seen ends attention, noting when, leaves nothing unseen, and changes nothing else of the pane's activity |
| `PaneHistory.ActiveExactly` | crates/octty-core/src/types.rs:200-218 | The condition for active, for every history of a new pane |
| `PaneHistory.TimesAreLatest` | crates/octty-core/src/types.rs:140-198 | For every history the times of activity, attention and update are the latest of those recorded and the one before |
| `PaneActivities.RunKeepsInv` | crates/octty-app/src/app_activity.rs:9-169 | The invariant over whole runs |
| `PaneActivities.OcttyApp.RecordPaneActivity` | crates/octty-app/src/app_activity.rs:27-45 | Memory and pending get the changed entry, and a task is spawned unless active |
| `PaneActivities.OcttyApp.RecordPaneSeen` | crates/octty-app/src/app_activity.rs:9-25 | Likewise for a pane that was seen |
| `PaneActivities.OcttyApp.TakeBatch` | crates/octty-app/src/app_activity.rs:118-139 | The delay is over: pending is taken whole, or the task ends |
| `PaneActivities.OcttyApp.FinishBatch` | crates/octty-app/src/app_activity.rs:149-167 | The batch is over: go round again exactly when something is pending |
| `ClientGuards.OneClientExactly` | crates/retach-octty/src/session.rs:17-30 | Over any run of connects, drops in any order and disconnects: at every moment at most one client is attached and the flag says whether one is, if and only if every connect was made while the attached client could be evicted or there was none |
| `ClientGuards.FlagFollowsNewestClient` | crates/retach-octty/src/session.rs:155-194 | Without disconnects: the flag is set exactly while the newest client's guard is not dropped, and no other client is attached |
| `ClientGuards.ReconnectAttachesTwo` | crates/retach-octty/src/session.rs:155-200 | The run of a connect after a disconnect whose client is still attached |
| `ClientGuards.ConnectKeepsInvExactly` | crates/retach-octty/src/session.rs:155-194 | One connect leaves at most one client and a right flag, and keeps the invariant, if and only if the attached client can be evicted or there is none |
| `ClientGuards.LateDropKeepsInvExactly` | crates/retach-octty/src/session.rs:22-30 | With steps between a drop's read and its store, the store leaves at most one client and a right flag if and only if the guard was evicted before the read, is not evicted yet, or nobody is attached |
| `ClientGuards.LateDropLosesClient` | crates/retach-octty/src/session.rs:22-30 | The run that loses a client when the drop is split |
| `ClientGuards.Session.Connect` | crates/retach-octty/src/session.rs:155-194 | Set the flag, evict, and install the new channel |
| `DeferredResponses.RepliesKeepOrder` | crates/retach-octty/src/session.rs:226-295 | Over every run the queue holds the last replies since the lock was last got, 64 or all of them, and written then queued is a subsequence of produced in order |
| `DeferredResponses.NoneLostExactly` | crates/retach-octty/src/session.rs:226-295 | Written then queued equals produced if and only if no write failed and no contended stretch outgrew the queue |
| `DeferredResponses.OldestAreWritten` | crates/retach-octty/src/session.rs:254-294 | When the lock is got the queued replies go first and then the new ones, up to the first failed write, and the queue is empty after; while it is taken nothing is written |
| `DeferredResponses.Reader.HandleResponses` | crates/retach-octty/src/session.rs:254-294 | One read: deferred first, written up to a failure or deferred with the oldest dropped |
| `DeferredResponses.Defer` | crates/retach-octty/src/session.rs:284-290 | The deferral loop keeps exactly the last 64 |
| `Layout.ReachableIsWellFormed` | crates/octty-core/src/layout.rs:29-156 | From an empty layout every layout on the way is well formed, and no removal can panic, if and only if every generated identifier is new |
| `Layout.AddKeepsWellFormedExactly` | crates/octty-core/src/layout.rs:92-111 | Adding keeps the layout well formed if and only if both identifiers are new |
| `Layout.RemoveKeepsWellFormed` | crates/octty-core/src/layout.rs:113-156 | Removing fails exactly for a missing pane and keeps the layout well formed |
| `Layout.RemovedHolds` | crates/octty-core/src/layout.rs:121-132 | A removal takes the pane out of its column and moves no other pane |
| `Layout.ActiveAfterRemoval` | crates/octty-core/src/layout.rs:145-153 | In any layout removing a pane that is not active leaves the active one alone; removing the active one makes active the first pane of the first center column left that holds any, or none when there is none |
| `Layout.RemovalChangesOneColumn` | crates/octty-core/src/layout.rs:113-156 | A removal from a well-formed layout changes just the pane's column: the pane goes and the others keep their places, or, if it was the only one, the column goes with its place in the order and its pins; no other column, pane or width changes |
| `Layout.RemovalFailsExactly` | crates/octty-core/src/layout.rs:117-128 | In any layout a removal fails exactly for a missing pane, and panics exactly when some column has the pane first at a place without a height |
| `Layout.MismatchedHeightsAreShared` | crates/octty-core/src/layout.rs:217-223 | Heights that were not as many as the panes become equal shares of the whole |
| `Layout.OtherHeightsStay` | crates/octty-core/src/layout.rs:217-223 | The other panes of a well-formed column keep their order and heights: nothing is renormalised |
| `Layout.HeightsFallByRemoved` | crates/octty-core/src/layout.rs:121-132 | Taking a pane out of a well-formed column lowers the sum of its heights by exactly that pane's height, so it is kept if and only if that height is zero |
| `Layout.TwoPanesLeaveAGap` | crates/octty-core/src/layout.rs:121-132 | A stored column of two panes at half height each is left at half height |
| `Layout.ReachableColumnsHoldOnePane` | crates/octty-core/src/layout.rs:92-156 | Adding and removing never put a second pane into a column, so every column they lead to holds one pane at full height |
| `Layout.RemoveUndoesAdd` | crates/octty-core/src/layout.rs:92-156 | Removing a pane just added restores panes, columns, order and pins; the layout is as before if and only if the first center pane was active |
| `Layout.AddedIsLast` | crates/octty-core/src/layout.rs:92-111 | An added pane is active and alone at full height in a new column at the right end; nothing else changes |
| `Layout.NewColumnWidths` | crates/octty-core/src/layout.rs:158-173 | A new column is eight pixels wide for each default character and 24 more, 744 for 90, or as wide as its kind of pane asks |
| `Layout.AddPane` | crates/octty-core/src/layout.rs:92-111 | The in-place addition |
| `Layout.RemovePane` | crates/octty-core/src/layout.rs:113-156 | The in-place removal with its two loops, its error, and the panic of a missing height as an outcome; `ActiveAfterRemoval` and `RemovalChangesOneColumn` say what it changes |
| `Viewport.ActiveColumnInView` | crates/octty-app/src/metrics.rs:120-160 | For any non-negative widths and any viewport the offset is within 0 and the widest scroll; the active column is wholly in view if and only if it is no wider than the viewport, and a wider one fills the viewport |
| `Viewport.OffsetIsNearest` | crates/octty-app/src/metrics.rs:120-127 | Of all offsets from 0 to the widest scroll the chosen one, and no other, brings the middle of the viewport nearest to the middle of the active column |
| `Viewport.MeasuredByIndex` | crates/octty-app/src/metrics.rs:129-160 | For any layout the column measured is the last in the center order that holds the active pane, or else the first center pane; it starts after the widths of the columns before it and a gap of 12 for each, and nothing is measured exactly when no such column exists |
| `Viewport.ReachableColumnInView` | crates/octty-app/src/metrics.rs:120-160 | The same for every layout that edits with new identifiers lead to, which can be measured exactly when it has panes |
| `Viewport.ColumnWithinTotal` | crates/octty-app/src/metrics.rs:135-157 | Every column lies within the total width |
| `Viewport.WellFormedIsMeasured` | crates/octty-app/src/metrics.rs:129-160 | A well-formed layout can be measured exactly when it has panes |
| `Viewport.ActiveColumnMetrics` | crates/octty-app/src/metrics.rs:129-160 | The accumulating loop measures start and width of the last shown column that holds the active pane, and the total |

## Left out

- The terminal emulator, GPUI painting, glyph shaping, fonts and cursor, scrollbar and selection layers: a grid is an arbitrary value, assumed to hold exactly as many rows as it says.
- The full-canvas rendering that replaces the row views: the test for it always says no.
- Snapshot fields that play no part in damage or painting: cursor, scroll state, plain text, timing and latency counters.
- Colours: converted exactly, as reals; the conversion to HSL and float rounding are not modelled.
- GPUI's notification of a changed row view: the view's content is modelled, its repaint is not.
- Which rows differ is decided by a hash given as a parameter; the SipHash computation is not modelled.
- Sockets, processes, signals, the clock and thread scheduling: reads, times and lock outcomes are parameters of the steps.
- bincode encoding of messages: payloads are the bytes it writes, at most its 16 MiB limit, so the header's 32-bit length check that follows it never fails and is not modelled; and whether a message ends the session or is a screen is a predicate on them.
- AppFrames.CaptureRetachPane: the text made of the captured messages, and the clock: the reads given are those before the deadline.
- Parsing the text of a recognised OSC notification.
- Shell constructs outside the quoting rules: the tokenizer gives no result for expansions, operators, comments and the like, so words the quoting leaves bare are shown not to hold any; that a first word with an equals sign could be read as an assignment is not modelled.
- Strings are sequences of characters, NUL included, without an encoding.
- TerminalTrace.RecordingParses: the event log is written without failures, and the session identifier holds no whitespace, as one with fields of its own could shadow the recorded ones.
- The 32-bit reading of offsets on narrow platforms: offsets and lengths are 64-bit.
- Creation of trace files and the naming of their directory.
- StatusRefresh.NoEventIsLost: what the refresh itself reads and writes back is left out, as are watcher creation and an app that is gone before its tasks.
- PaneActivities.ActivityIsNotLost: deletion, rekeying and reconciliation of panes run beside the batch task and are not steps of the model; rows are written whole or not at all.
- SQL behind the store: the store is a map.
- PaneHistory.PaneStateFollowsRun: times are unbounded integers but for the saturating difference; the observations made when the application starts (crates/octty-app/src/bootstrap.rs:366) are not steps of the model.
- ClientGuards.Session.Connect: shared handles and the reader's use of the flag are left out; an eviction sent to a dropped client has no effect that could be seen.
- DeferredResponses.Reader.HandleResponses: a reply that fails to be written may have been written in part, which is not modelled; flushes and the screen lock are left out.
- Layout.AddPane: identifiers and times are parameters; that generated identifiers are new is the condition of the results. Payloads of panes but for the terminal's default width are opaque.
- Layout.RemovePane: column maps are visited in any order, as the order does not show in the result. Pinning, moving and resizing of columns are other operations.
- Viewport.ActiveColumnInView: real arithmetic, without the rounding of 32-bit floats.
- Screen, grid, style table and server of the session daemon: their source is not part of this model, so style identifiers are opaque.
- Sidebar, menus, key tables, configuration, command-line handling: single-branch lookups that would only add easy members.
