# A verified model of the Shinen board's helper logic

This project is a Dafny model of the small, self-contained pieces of logic in a
Next.js note-card app ("Shinen", with its "tunnel" canvas view), its Chrome
clipping extension and a few command-line tools. The app itself is mostly UI and
network code. The model covers the parts that decide something:

- **Tunnel canvas state**:
  - the drag and layout coordination state machine (`tunnel_drag_fsm.dfy`);
  - the frame-time quality monitor with hysteresis (`tunnel_perf_monitor.dfy`);
  - the embed-load watchdog (`embed_watchdog.dfy`).
- **Ordering and layout**:
  - base62 fractional sort keys (`sort_key.dfy`);
  - camera conversions and overlap counting (`tunnel_layout.dfy`);
  - the grid arrangement (`tunnel_arrange.dfy`);
  - the spatial-hash auto arrangement (`tunnel_auto_arrange.dfy`).
- **Bounded stores**:
  - the extension's clip queue, with acknowledgement by id and nonce (`clip_queue.dfy`);
  - the capped diagnostics log and its export (`diag.dfy`).
- **Validators and classifiers**:
  - the SSRF guard's private-address and URL checks (`ssrf.dfy`);
  - the extension's restricted-URL test (`restricted_url.dfy`);
  - DMM/FANZA cover ids and cover candidates (`fanza_thumb.dfy`);
  - X/Instagram host recognition and image scoring (`xig_media.dfy`).
- **Card self-heal migration**: URL notes become clip cards, X's generic login-wall
  thumbnail is dropped, and embeds are repaired, with a per-run cap and action
  deduplication (`self_heal_migration.dfy`).
- **Command-line tools**:
  - the market-pulse feed tool's deduplication, date filter, sort and keyword score
    (`market_pulse_normalize.dfy`, `market_pulse_score.dfy`);
  - the Slack remote runner's text helpers, command parsing, shell quoting, allowlist
    and approval expiry (`slack_daemon.dfy`);
  - the ntfy notifier's argument parsing, Authorization header and priority
    (`ntfy.dfy`);
  - the OpenAI image probe's cache-busting, error extraction, status icons, skip
    rules and exit status (`openai_image_probe.dfy`).

Shared helpers live in their own modules:

- `wrappers.dfy`: Option and Outcome, a call that may throw;
- `text.dfy`: JavaScript `trim`, ASCII lower-casing, `split` and `join`;
- `js_value.dfy`: JavaScript truthiness, `??` and `||`;
- `decimal.dfy`: integer numerals;
- `dedup.dfy`: keeping the first element of each key.

Each source file is modelled in its own form:

- Pure functions that return fresh records are Dafny functions.
- Code that loops or mutates is a `method`, proved against a specification function.
  Examples are the `while (true)` of `generateKeyBetween`, the queue's trimming loop,
  the nested overlap-counting loops, the spatial hash, `dedupeActions`, the
  migration runner and `parseArgs`.
- Objects updated in place are classes:
  - the clip storage;
  - the diagnostics store;
  - the Slack daemon's table of pending approvals.

Everything the model cannot see is a function-typed parameter:

- the WHATWG URL parser;
- `decodeURIComponent`;
- `String(v)` of a non-string;
- `json.loads`;
- base64;
- date parsing;
- the clock;
- the network probe.

The Slack daemon passes `run claude` arguments to the shell unquoted. Only a
`run codex` prompt is single-quoted, and `CodexPromptIsOneWord` proves that this
prompt reaches the shell as one word.

Two points of the code worth stating plainly:

- **The probe's exit status.** The probe exits with 2 when both calls were made and
  neither answered 200 (scripts/openai_image_probe.py:273-275): a transport failure
  and a 4xx or 5xx answer count alike. `ExitTwoIffBothCrossed` and
  `CalledProbeFailsOnlyWhenBothFail` state this rule.
- **`extract_errmsg`.** It is annotated as returning a `str` (line 108), but it returns
  any truthy `error.message` unchanged, whatever its JSON type, and `ExtractErrmsg`
  returns a JSON value accordingly.

## Model

| member | source | states |
|---|---|---|
| TunnelDragFsm.CreateFsmContext | app/app/tunnelDragFSM.ts:24-31 | a fresh context is idle, unlocked, with no pending reset and no active card, and satisfies the lock invariant |
| TunnelDragFsm.Transition | app/app/tunnelDragFSM.ts:33-90 | an event the state does not handle returns the context unchanged; the lock invariant is preserved; DRAG_START from idle or settling locks and activates the event's card; only SETTLE_COMPLETE from settling unlocks; only RESET_REQUEST while dragging sets the pending reset and only an idle context clears it |
| TunnelDragFsm.RunKeepsConsistent | app/app/tunnelDragFSM.ts:33-90 | along any sequence of events the layout is locked exactly when the state is not idle |
| TunnelDragFsm.ReachableConsistent | app/app/tunnelDragFSM.ts:24-90 | every context reachable from a fresh one keeps that invariant |
| TunnelDragFsm.IdleDragStart | app/app/tunnelDragFSM.ts:37-43 | idle + DRAG_START gives dragging, locked, no pending reset, the event's card active |
| TunnelDragFsm.ResetRequestsCollapse | app/app/tunnelDragFSM.ts:53-55 | any number of RESET_REQUESTs while dragging leaves exactly one pending reset and changes nothing else |
| TunnelDragFsm.DraggingDragEnd | app/app/tunnelDragFSM.ts:56-61 | dragging + DRAG_END gives settling with no active card, lock and pending reset kept |
| TunnelDragFsm.SettlingComplete | app/app/tunnelDragFSM.ts:67-74 | settling + SETTLE_COMPLETE gives idle, unlocked, no active card, pending reset preserved |
| TunnelDragFsm.ResetSurvivesDrag | app/app/tunnelDragFSM.ts:53-74 | a reset requested during a drag is still pending once the drag has ended and settled |
| TunnelPerfMonitor.TierIndex | app/app/tunnelPerfMonitor.ts:10-12 | each tier has one of the four positions of the degradation order |
| TunnelPerfMonitor.TierAt | app/app/tunnelPerfMonitor.ts:10-12 | the tier at a position is the one whose position it is (inverse of TierIndex) |
| TunnelPerfMonitor.CreatePerfMonitor | app/app/tunnelPerfMonitor.ts:28-36 | the given tier or full, a ring of ten zeros, ring index 0 and both streaks 0; the monitor is valid |
| TunnelPerfMonitor.RecordFrameTime | app/app/tunnelPerfMonitor.ts:38-81 | the frame time overwrites ring slot index mod 10 and the index advances; a frame over 16 ms extends the slow streak and zeroes the fast one, under 12 ms the opposite, 12 to 16 ms zeroes both; a third slow frame steps the tier down one (and zeroes both streaks) unless at no-anim, a thirtieth fast frame steps it up one unless at full; validity is preserved |
| TunnelPerfMonitor.Feed | app/app/tunnelPerfMonitor.ts:38-81 | recording a sequence of frame times keeps a ring of ten entries |
| TunnelPerfMonitor.ThreeSlowFramesDegrade | app/app/tunnelPerfMonitor.ts:46-68 | from no slow streak two slow frames keep the tier and three step it down exactly one, no-anim staying put |
| TunnelPerfMonitor.FastFramesAccumulate | app/app/tunnelPerfMonitor.ts:49-78 | fewer than thirty fast frames keep the tier and count the fast streak up by one each, with no slow streak |
| TunnelPerfMonitor.ThirtyFastFramesRecover | app/app/tunnelPerfMonitor.ts:70-78 | thirty fast frames in a row step the tier up exactly one, full staying put |
| TunnelPerfMonitor.FeedAppend | app/app/tunnelPerfMonitor.ts:38-81 | recording one more frame is one more call of recordFrameTime on the previous monitor |
| TunnelPerfMonitor.TierCssClass | app/app/tunnelPerfMonitor.ts:84-87 | the class is empty exactly at full quality and `perf-<tier>` otherwise |
| TunnelPerfMonitor.TierCssClassInjective | app/app/tunnelPerfMonitor.ts:84-87 | distinct tiers get distinct classes |
| EmbedWatchdog.EffectiveTimeout | app/app/shinen/lib/embedWatchdog.mjs:15-35 | the timeout in force is never zero, and is the stored one when that is not zero |
| EmbedWatchdog.CreateEmbedLoadState | app/app/shinen/lib/embedWatchdog.mjs:3-10 | idle, no start, nothing elapsed, the given timeout or 7000 ms |
| EmbedWatchdog.StartEmbedLoad | app/app/shinen/lib/embedWatchdog.mjs:12-19 | from any state, even none, loading since now with nothing elapsed; a non-zero previous timeout is kept, otherwise 7000 ms |
| EmbedWatchdog.Finish | app/app/shinen/lib/embedWatchdog.mjs:23-46 | the final status is set, the elapsed time is non-negative, timeout and start are kept |
| EmbedWatchdog.CompleteEmbedLoad | app/app/shinen/lib/embedWatchdog.mjs:21-29 | only a loading state changes, to loaded with the elapsed time; anything else is returned as it is |
| EmbedWatchdog.TimeoutEmbedLoad | app/app/shinen/lib/embedWatchdog.mjs:39-47 | only a loading state changes, to timeout with the elapsed time; anything else is returned as it is |
| EmbedWatchdog.IsEmbedTimedOut | app/app/shinen/lib/embedWatchdog.mjs:31-37 | only a loading state can be timed out |
| EmbedWatchdog.ElapsedSinceStart | app/app/shinen/lib/embedWatchdog.mjs:12-47 | a load started at t0 and completed or timed out at t1 took max(0, t1 - t0) |
| EmbedWatchdog.TimedOutIffDeadlinePassed | app/app/shinen/lib/embedWatchdog.mjs:12-37 | a started load is timed out exactly when its effective timeout has passed since the start |
| EmbedWatchdog.TimedOutMonotone | app/app/shinen/lib/embedWatchdog.mjs:31-37 | a timed-out load stays timed out as time goes on |
| EmbedWatchdog.FinishedIsFinal | app/app/shinen/lib/embedWatchdog.mjs:21-47 | loaded and timed-out states are left unchanged by completion and by timeout and are never reported as timed out |
| EmbedWatchdog.FreshLoadNotTimedOut | app/app/shinen/lib/embedWatchdog.mjs:12-37 | a load just started with a positive timeout is not timed out |
| SortKey.Digit | lib/sortKey.ts:1 | `BASE62[d]` is a base62 character |
| SortKey.Base62Index | lib/sortKey.ts:4-7 | a base62 character maps to its own position (Digit is its inverse); any other character maps to the position of 'U', 30 |
| SortKey.DigitMonotone | lib/sortKey.ts:1 | the alphabet lists its characters in ascending order |
| SortKey.DigitInjective | lib/sortKey.ts:1 | distinct positions give distinct characters |
| SortKey.IndexMonotone | lib/sortKey.ts:4-7 | for base62 characters, a smaller character has a smaller index |
| SortKey.LexLessIrreflexive | lib/sortKey.ts:15 | JavaScript string `<` is irreflexive |
| SortKey.LexLessTransitive | lib/sortKey.ts:15 | JavaScript string `<` is transitive |
| SortKey.LexLessPrefix | lib/sortKey.ts:15 | a common prefix does not change the order of two strings |
| SortKey.LexLessExtension | lib/sortKey.ts:15 | a proper extension sorts after the string it extends |
| SortKey.Scan | lib/sortKey.ts:19-40 | what the loop appends is never empty |
| SortKey.ScanShape | lib/sortKey.ts:19-40 | what the loop appends is made of base62 digits and never ends in '0' |
| SortKey.KeyBetween | lib/sortKey.ts:9-41 | the key is never empty and never ends in '0', and is base62 whenever the left bound is |
| SortKey.GenerateKeyBetween | lib/sortKey.ts:9-41 | the method with the `while (true)` loop returns KeyBetween(a, b) |
| SortKey.ScanLoop | lib/sortKey.ts:19-40 | the loop, advancing `i` and growing `prefix`, returns Scan of the bounds |
| SortKey.ScanStep | lib/sortKey.ts:22-39 | one turn of the loop: equal digits are copied and the scan continues, digits more than one apart give their midpoint, adjacent digits give the left digit and 'V' |
| SortKey.NoBoundsGivesMid | lib/sortKey.ts:10 | with both bounds null or empty the key is "V" |
| SortKey.OutOfOrderBoundsAppendMid | lib/sortKey.ts:15-17 | a non-empty right bound not after the left bound gives the left bound followed by 'V' |
| SortKey.WideGapTakesMidpoint | lib/sortKey.ts:27-36 | after a common prefix, digits more than one apart give the prefix and the digit half-way between |
| SortKey.ScanBelowRight | lib/sortKey.ts:9-41 | with no left bound the key sorts before any base62 right bound not ending in '0' |
| SortKey.Prepends | scripts/smoke_sortkey.mjs:46-53 | prepending n times gives n keys |
| SortKey.PrependsAscending | scripts/smoke_sortkey.mjs:46-57 | keys built by repeatedly prepending are each base62, not ending in '0', and ascending |
| SortKey.PrependsStrictlyIncreasing | scripts/smoke_sortkey.mjs:55-60 | any earlier prepended key sorts before any later one, so all are distinct |
| SortKey.AppendAfterAdjacentCounterexample | lib/sortKey.ts:38-39 | as written, the key after "yz" is "yV", which sorts before "yz", and the key after "yV" is "yV" again |
| SortKey.ScanFixed | lib/sortKey.ts:19-40 | the corrected continuation is a non-empty base62 string not ending in '0' |
| SortKey.KeyBetweenFixed | lib/sortKey.ts:9-41 | the corrected key is never empty, never ends in '0', and is base62 whenever the left bound is |
| SortKey.FirstDigitsOrdered | lib/sortKey.ts:22-25 | under well-formed bounds the left digit never exceeds the right one |
| SortKey.ScanFixedBetween | lib/sortKey.ts:19-40 | the corrected continuation sorts strictly between well-formed bounds |
| SortKey.ScanFixedEqual | lib/sortKey.ts:27-31 | the equal-digit case of the corrected continuation stays between the bounds |
| SortKey.ScanFixedWide | lib/sortKey.ts:33-36 | the wide-gap case stays between the bounds |
| SortKey.ScanFixedAdjacent | lib/sortKey.ts:38-39 | the corrected adjacent case (left digit, then a key after the rest of the left bound) stays between the bounds |
| SortKey.KeyBetweenFixedOrdered | lib/sortKey.ts:9-41 | the corrected key sorts strictly after a base62 left bound and strictly before a right bound that sorts after it and does not end in '0' |
| SortKey.FixedAppendAfterAdjacent | lib/sortKey.ts:38-39 | the corrected version gives "yzU" after "yz" |
| ClipQueue.QueueOf | chrome-extension/lib/queue.js:8-11 | a missing key or a stored value that is not an array reads as the empty queue |
| ClipQueue.SetThenGet | chrome-extension/lib/queue.js:8-16 | writing a queue then reading it gives it back, and other storage keys are untouched |
| ClipQueue.KeepNewest | chrome-extension/lib/queue.js:43-47 | dropping the oldest until at most 200 remain leaves exactly min(n, 200) clips, a suffix of the queue |
| ClipQueue.EnqueueShape | chrome-extension/lib/queue.js:32-51 | after an enqueue the new clip is last, at most 200 clips remain and the survivors are the newest of the old queue in order |
| ClipQueue.EnqueueBelowCap | chrome-extension/lib/queue.js:41-47 | below the cap nothing is dropped |
| ClipQueue.EnqueueAllKeepsNewest | chrome-extension/lib/queue.js:32-51 | enqueuing clip after clip keeps exactly the newest 200 of everything ever queued |
| ClipQueue.KeepNewestAppend | chrome-extension/lib/queue.js:43-47 | capping before appending more does not change the final newest 200 |
| ClipQueue.FirstIndex | chrome-extension/lib/queue.js:59 | the position found is the first clip with the id, and a miss means no clip has it |
| ClipQueue.FindIndex | chrome-extension/lib/queue.js:59 | the search loop returns that first position, or -1 |
| ClipQueue.AckRemove | chrome-extension/lib/queue.js:57-65 | a clip is removed exactly when the first clip with the id carries the given nonce; then that clip alone is spliced out, otherwise the queue is unchanged |
| ClipQueue.AckRemovesOne | chrome-extension/lib/queue.js:57-65 | a removal shortens the queue by exactly one and keeps every other clip |
| ClipQueue.AckOwnClip | chrome-extension/lib/queue.js:32-65 | acknowledging a just-enqueued clip with its own nonce removes it and restores the old queue, when its id was new and nothing was dropped |
| ClipQueue.ClipStorage.constructor | chrome-extension/lib/queue.js:8-16 | the store starts from the given storage contents |
| ClipQueue.ClipStorage.Enqueue | chrome-extension/lib/queue.js:32-51 | the clip returned carries the given id, nonce, data and time, and the stored queue becomes the newest 200 of the old queue plus the clip |
| ClipQueue.ClipStorage.DequeueByAck | chrome-extension/lib/queue.js:57-65 | reports whether the acknowledgement matched; only then is the queue written back, without that clip; otherwise storage is unchanged |
| Diag.NormalizeDomain | app/app/shinen/lib/diag.mjs:16-23 | a falsy URL has no domain; a domain found is the lower-cased host of the URL's string form |
| Diag.StringOrNull | app/app/shinen/lib/diag.mjs:31-32 | a string is produced exactly for a truthy value |
| Diag.NormalizeEvent | app/app/shinen/lib/diag.mjs:25-35 | the timestamp is the event's own string or now; the card id is kept only when it is a number; extra only when a truthy object; the link and thumbnail are present exactly when truthy; a truthy domain is kept as its string |
| Diag.AsStored | app/app/shinen/lib/diag.mjs:47-70 | an event read back keeps its timestamp as a string and its extra object |
| Diag.ReadBackNormalized | app/app/shinen/lib/diag.mjs:25-82 | normalising an event that `log` stored, when it is read back, gives the event `log` returned, provided the link is not a falsy non-null value, the printed forms are non-empty and a card id sent through JSON is finite |
| Diag.EmptyLinkDomainCounterexample | app/app/shinen/lib/diag.mjs:30-31 | without the link condition the read-back differs: an empty-string link gives the logged event no domain, but the stored null link lets the re-normalisation take the thumbnail's domain |
| Diag.SliceLast | app/app/shinen/lib/diag.mjs:60 | `slice(-max)` keeps the last `max` events for positive `max`, all of them for 0, and drops the first `-max` for negative `max` |
| Diag.SliceLastKeepsNewest | app/app/shinen/lib/diag.mjs:59-77 | appending then capping to a positive `max` keeps the new event last and at most `max` events |
| Diag.SliceLastZeroKeepsAll | app/app/shinen/lib/diag.mjs:60 | a zero `max` keeps every event |
| Diag.MemoryLog.constructor | app/app/shinen/lib/diag.mjs:5 | the module's one memory log starts empty when the module loads |
| Diag.DiagStore.constructor | app/app/shinen/lib/diag.mjs:41-45 | key and max default to "shinen_diag_v1" and 200; the store works on the given storage or on the module's shared memory log, which creating a store does not reset |
| Diag.DiagStore.ReadRaw | app/app/shinen/lib/diag.mjs:47-57 | without storage the shared memory log is read; a missing key reads as no events |
| Diag.DiagStore.Read | app/app/shinen/lib/diag.mjs:80-82 | one normalised event per stored event, in order |
| Diag.DiagStore.Log | app/app/shinen/lib/diag.mjs:59-79 | returns the normalised event; afterwards the log reads as the last `max` of the old log plus that event, written to storage under the key or to the shared memory log, and nothing else changes |
| Diag.DiagStore.Clear | app/app/shinen/lib/diag.mjs:86-96 | afterwards the log reads as empty: the key is removed from storage, or the shared memory log emptied |
| Diag.SecondStoreSeesFirstLog | app/app/shinen/lib/diag.mjs:5-62 | two stores without storage share one memory log: a store created after another has logged an event reads that event back |
| Diag.BuildDiagnosticsRecords | app/app/shinen/lib/diag.mjs:110-124 | one metadata row counting the events, with debug, commit and error flags by truthiness and source "local", then one "diag" row per normalised event in order |
| Diag.ExportOfLoggedEvents | app/app/shinen/lib/diag.mjs:73-124 | exporting logged events yields, row by row, exactly the events `log` returned |
| Diag.IsDebugModeEnabled | app/app/shinen/lib/diag.mjs:159-176 | a `debug` query parameter of "1" enables and "0" disables; otherwise debug mode is on exactly when the storage flag reads "1" |
| TunnelLayout.WorldToScreen | app/app/tunnelLayout.ts:46-55 | at zoom 1 the conversion is a pure pan |
| TunnelLayout.ScreenToWorld | app/app/tunnelLayout.ts:34-43 | defined exactly when the zoom is not zero, and the world point found maps back to the screen point |
| TunnelLayout.ScreenWorldRoundTrip | app/app/tunnelLayout.ts:34-55 | screen to world to screen is the identity for a non-zero zoom |
| TunnelLayout.WorldScreenRoundTrip | app/app/tunnelLayout.ts:34-55 | world to screen to world is the identity for a non-zero zoom |
| TunnelLayout.GetEpsilon | app/app/tunnelLayout.ts:59-62 | the epsilon is at least 1, and exactly 1 outside a browser or for a pixel ratio of at least 0.5 |
| TunnelLayout.OverlapSymmetric | app/app/tunnelLayout.ts:66-73 | the overlap test does not depend on the order of its arguments |
| TunnelLayout.TouchingDoNotOverlap | app/app/tunnelLayout.ts:66-73 | with no epsilon, rectangles that only share an edge do not overlap |
| TunnelLayout.OverlapMonotoneInEpsilon | app/app/tunnelLayout.ts:66-73 | raising epsilon can only add overlaps |
| TunnelLayout.SeparatedDoNotOverlap | app/app/tunnelLayout.ts:66-73 | rectangles further apart than epsilon on either axis do not overlap |
| TunnelLayout.Collect | app/app/tunnelLayout.ts:86-96 | the rectangles built for counting are never zero by zero |
| TunnelLayout.CollectAccountsForEveryId | app/app/tunnelLayout.ts:89-96 | every positioned card is either measured into a rectangle or counted as zero-size |
| TunnelLayout.OverlapsWithZero | app/app/tunnelLayout.ts:100-104 | no overlap is counted for a rectangle exactly when it overlaps none of the later ones |
| TunnelLayout.PairCountZeroIff | app/app/tunnelLayout.ts:98-107 | the pair count is zero exactly when no two rectangles overlap |
| TunnelLayout.OverlapsWithBound | app/app/tunnelLayout.ts:100-104 | a rectangle overlaps at most all the later ones |
| TunnelLayout.PairCountBound | app/app/tunnelLayout.ts:98-107 | at most n(n-1)/2 pairs are counted |
| TunnelLayout.CountOverlapPairs | app/app/tunnelLayout.ts:81-108 | the nested loops count exactly the overlapping pairs i < j of the measured rectangles, and the zero-size count is the number of skipped cards |
| TunnelLayout.CountPairs | app/app/tunnelLayout.ts:98-105 | the nested loops return the pair count of their rectangles |
| TunnelLayout.CeilSqrt | app/app/tunnelLayout.ts:273-276 | `Math.ceil(Math.sqrt(n))` is the least k with k * k >= n |
| TunnelLayout.CeilSqrtOfSquare | app/app/tunnelLayout.ts:273-276 | the square root is exact on squares |
| TunnelLayout.GridCols | app/app/tunnelLayout.ts:273-276 | the fallback grid has at least one column and enough columns that cols * cols >= n |
| TunnelArrange.GridOf | app/app/tunnelArrange.js:12-16 | the grid has at least one column, enough columns that cols * cols >= n, and one column for zero or one card |
| TunnelArrange.ArrangeGridNonOverlap | app/app/tunnelArrange.js:11-27 | the loop builds the positions of ArrangeGrid, the map of every card to its slot |
| TunnelArrange.GridUpToKeys | app/app/tunnelArrange.js:20-25 | after k cards the ids placed are exactly the first k ids |
| TunnelArrange.GridUpToEntry | app/app/tunnelArrange.js:20-25 | every placed id sits at the slot of one of its occurrences |
| TunnelArrange.GridUpToLast | app/app/tunnelArrange.js:20-25 | an id not repeated later keeps the slot of its position |
| TunnelArrange.ArrangeGridKeys | app/app/tunnelArrange.js:11-27 | every id gets a position with z = 0, and nothing else does |
| TunnelArrange.ArrangeGridSlot | app/app/tunnelArrange.js:20-25 | card i sits at column i mod cols and row i div cols, offset and spaced by the gaps |
| TunnelArrange.RectsOf | app/app/tunnelArrange.js:34-41 | one rectangle of the common size per key, at the key's position |
| TunnelArrange.CountOverlapPairs | app/app/tunnelArrange.js:34-50 | the nested loops count exactly the overlapping key pairs i < j, without epsilon, with the default size 240 by 320 |
| TunnelArrange.CountHitsAfter | app/app/tunnelArrange.js:39-47 | the inner loop counts the later keys whose rectangle overlaps key i |
| TunnelArrange.CellsApart | app/app/tunnelArrange.js:24 | slots k >= 1 steps apart on an axis are at least one gap apart |
| TunnelArrange.DifferentCells | app/app/tunnelArrange.js:22-23 | different card indices fall in different cells |
| TunnelArrange.CellsDisjoint | app/app/tunnelArrange.js:24-45 | cards in different cells of a grid whose gaps are at least the card size do not overlap |
| TunnelArrange.SlotsDisjoint | app/app/tunnelArrange.js:22-24 | two different slots do not overlap under that condition |
| TunnelArrange.ArrangedGridHasNoOverlaps | app/app/tunnelArrange.js:11-50 | with gaps at least the card size no two arranged cards overlap, in whatever order the keys are enumerated |
| TunnelArrange.DefaultGridHasNoOverlaps | app/app/tunnelArrange.js:12-34 | the default arrangement (gaps 280 by 320) has no overlapping pair for the default card size |
| TunnelAutoArrange.LessTotal | app/app/tunnelLayout.ts:198 | the default sort order on ids is total |
| TunnelAutoArrange.AtMostTransitive | app/app/tunnelLayout.ts:198 | "sorts no later than" is transitive |
| TunnelAutoArrange.InsertSorted | app/app/tunnelLayout.ts:198 | inserting an id adds exactly that id |
| TunnelAutoArrange.InsertSortedKeepsOrder | app/app/tunnelLayout.ts:198 | inserting into a sorted list keeps it sorted |
| TunnelAutoArrange.SortIds | app/app/tunnelLayout.ts:198 | `validIds.sort()` yields a sorted permutation of the ids |
| TunnelAutoArrange.HeadIsLeast | app/app/tunnelLayout.ts:198 | the first id of a sorted list sorts no later than any other |
| TunnelAutoArrange.SortedUnique | app/app/tunnelLayout.ts:198 | a sorted list is determined by its elements |
| TunnelAutoArrange.FloorDivMonotone | app/app/tunnelLayout.ts:125-135 | cell coordinates grow with the coordinate |
| TunnelAutoArrange.RangeOf | app/app/tunnelLayout.ts:125-135 | a rectangle of non-negative size spans a non-empty range of cells |
| TunnelAutoArrange.OverlapSharesCell | app/app/tunnelLayout.ts:125-166 | rectangles whose interiors intersect share a hash cell, so the hash never misses a true overlap |
| TunnelAutoArrange.HashInsert | app/app/tunnelLayout.ts:137-150 | the rectangle is appended to the bucket of every cell it touches and to no other |
| TunnelAutoArrange.InsertKeepsHash | app/app/tunnelLayout.ts:137-150 | inserting a placed rectangle keeps every cell holding exactly the placed rectangles that touch it |
| TunnelAutoArrange.InsertPlaced | app/app/tunnelLayout.ts:137-150 | inserting a newly placed card keeps the hash in step with the placed cards |
| TunnelAutoArrange.HashQuery | app/app/tunnelLayout.ts:152-166 | the query loops gather the buckets of every cell the candidate touches |
| TunnelAutoArrange.ColumnUpToMembers | app/app/tunnelLayout.ts:156-163 | the inner loop gathers exactly the members of the column's visited cells |
| TunnelAutoArrange.ColumnsUpToMembers | app/app/tunnelLayout.ts:155-164 | the outer loop gathers exactly the members of the visited cells |
| TunnelAutoArrange.QueryFindsSharers | app/app/tunnelLayout.ts:152-166 | the query returns exactly the placed rectangles that share a cell with the candidate |
| TunnelAutoArrange.ValidIds | app/app/tunnelLayout.ts:184-195 | the ids kept are exactly those whose size is not 0 by 0 |
| TunnelAutoArrange.SumW | app/app/tunnelLayout.ts:202-208 | the total width of the cards is non-negative |
| TunnelAutoArrange.SumH | app/app/tunnelLayout.ts:202-208 | the total height of the cards is non-negative |
| TunnelAutoArrange.SortedValidIds | app/app/tunnelLayout.ts:184-198 | the ids laid out are sorted and are exactly the measured cards |
| TunnelAutoArrange.ParamsFor | app/app/tunnelLayout.ts:201-219 | the hash cell is at least a gap wide, the usable width at least a cell, and the fallback grid has enough columns for every card |
| TunnelAutoArrange.NudgeStep | app/app/tunnelLayout.ts:259-267 | a nudge keeps the card's size |
| TunnelAutoArrange.Nudge | app/app/tunnelLayout.ts:250-269 | the nudging uses at most 50 attempts and keeps the card's size |
| TunnelAutoArrange.IndexOf | app/app/tunnelLayout.ts:277 | `indexOf` finds the first position of the id |
| TunnelAutoArrange.PlaceCardUnfold | app/app/tunnelLayout.ts:226-294 | placing one card is the row wrap, stagger, nudging or grid fallback, hash insertion and cursor advance in that order |
| TunnelAutoArrange.AutoArrange | app/app/tunnelLayout.ts:176-297 | the method returns the positions and zero-size count of the placement function |
| TunnelAutoArrange.FilterZeroSize | app/app/tunnelLayout.ts:184-195 | the first loop keeps the cards that are not 0 by 0 and counts the others |
| TunnelAutoArrange.SumSizes | app/app/tunnelLayout.ts:202-208 | the loop totals the widths and heights |
| TunnelAutoArrange.PlaceAll | app/app/tunnelLayout.ts:226-294 | the main loop places the sorted cards one after another |
| TunnelAutoArrange.PlaceOne | app/app/tunnelLayout.ts:227-293 | the body of the main loop for one card places it as the placement function says and keeps the hash in step |
| TunnelAutoArrange.QueryDecidesCollision | app/app/tunnelLayout.ts:253-256 | `some` over the query result reports an overlap exactly when a placed card that shares a hash cell with the candidate overlaps it (with eps); the hash cells ignore eps, so an eps-overlap across a cell border is not found, while every strict overlap shares a cell (`OverlapSharesCell`) |
| TunnelAutoArrange.NudgeLoop | app/app/tunnelLayout.ts:250-269 | the while loop ends with the candidate and attempt count of the nudging function |
| TunnelAutoArrange.PlaceUpToShape | app/app/tunnelLayout.ts:226-294 | after k cards, k rectangles are placed, exactly the first k ids have positions, and all lie in the plane z = 0 |
| TunnelAutoArrange.AutoArrangePlacesEveryMeasuredCard | app/app/tunnelLayout.ts:176-297 | every card that is not 0 by 0 gets a position with z = 0, and no other id does |
| TunnelAutoArrange.ZeroCountAccounts | app/app/tunnelLayout.ts:184-195 | every card is either laid out or counted as zero-size |
| TunnelAutoArrange.AutoArrangeOrderIndependent | app/app/tunnelLayout.ts:170-198 | the layout depends only on the sizes, not on the order in which the Map was filled |
| TunnelAutoArrange.SameKeysSameInputs | app/app/tunnelLayout.ts:184-198 | any two enumerations of the same Map give the same sorted ids and zero count |
| TunnelAutoArrange.NudgedCandidateIsClear | app/app/tunnelLayout.ts:250-269 | a candidate accepted before the 50 attempts run out overlaps no placed card |
| TunnelAutoArrange.PlacedCardOutcome | app/app/tunnelLayout.ts:249-289 | card k lands with z = 0 at a rectangle that is either its fallback grid slot or clear of every card placed before it |
| Ssrf.ToNumber | lib/ssrf.ts:12 | `Number(s)` of a string of ASCII digits is its decimal value |
| Ssrf.DottedQuad | lib/ssrf.ts:3-12 | the spelling of a dotted quad contains a dot |
| Ssrf.SplitDottedQuad | lib/ssrf.ts:12 | splitting a dotted quad on '.' gives back its four numerals |
| Ssrf.DigitsAndDotsAreLower | lib/ssrf.ts:40 | digits and dots are unchanged by lower-casing |
| Ssrf.QuadShape | lib/ssrf.ts:31-40 | a dotted quad is four dotted digit runs of digits and dots only, unchanged by lower-casing |
| Ssrf.PrivatePrefixIsCidr | lib/ssrf.ts:15-23 | on a dotted quad of octets, the guard's two-octet test agrees with membership of 0/8, 10/8, 127/8, 169.254/16, 172.16/12, 192.168/16 or 100.64/10 |
| Ssrf.IsPrivateIPv4OfNumerals | lib/ssrf.ts:11-24 | four numerals are private when one exceeds 255 or the first two fall in a private prefix |
| Ssrf.IsPrivateIPv4OfDottedQuad | lib/ssrf.ts:11-24 | a dotted quad of octets is private exactly when its address lies in one of the private blocks; a numeral above 255 is treated as private |
| Ssrf.MalformedIPv4IsPrivate | lib/ssrf.ts:12-14 | anything that does not split into four parts is treated as private |
| Ssrf.AfterLastColon | lib/ssrf.ts:31 | the text after the last colon is a colon-free suffix preceded by a colon |
| Ssrf.MappedIPv4 | lib/ssrf.ts:31 | a captured group is a dotted-digit run and the address ends in "::ffff:" and the group |
| Ssrf.AfterLastColonOfSuffix | lib/ssrf.ts:31 | after "…:" followed by colon-free text, the text after the last colon is that text |
| Ssrf.MappedIPv4Matches | lib/ssrf.ts:31 | the pattern matches every address ending in "::ffff:" and a dotted-digit group, capturing the group |
| Ssrf.IPv6ReservedPrefixesArePrivate | lib/ssrf.ts:26-30 | loopback, unspecified, fc00::/7 and fe80::/10 addresses are private |
| Ssrf.MappedFollowsIPv4 | lib/ssrf.ts:31-32 | "::ffff:" + t is private exactly when t is as an IPv4 address |
| Ssrf.MappedAddressFollowsIPv4 | lib/ssrf.ts:26-34 | an IPv4-mapped address ::ffff:a.b.c.d is private exactly when a.b.c.d is in a private block |
| Ssrf.StripBrackets | lib/ssrf.ts:5-9 | the result is the host itself or the host with one pair of surrounding brackets removed |
| Ssrf.ValidateUrl | lib/ssrf.ts:37-45 | an accepted URL is http or https, on the default port, 80 or 443, and its host is not localhost, 0.0.0.0, a private IPv4 literal or a private IPv6 literal |
| Ssrf.ValidateUrlIPv4Literal | lib/ssrf.ts:37-45 | for an http(s) URL on an allowed port whose host is an IPv4 literal other than 0.0.0.0, the verdict is exactly the private-address test |
| Ssrf.ValidateUrlDottedQuad | lib/ssrf.ts:37-45 | for an http(s) URL whose host is a dotted quad, the URL is accepted exactly when the address is outside every private block |
| Ssrf.QuadIsIPv4Literal | lib/ssrf.ts:3 | a dotted quad of octets matches `IPV4_RE` |
| Ssrf.ValidateUrlRejectsPrivateIPv6 | lib/ssrf.ts:43 | a host that is a private IPv6 literal is rejected |
| Ssrf.ValidateUrlRejectsMappedPrivate | lib/ssrf.ts:40-43 | a hostname written `[::ffff:a.b.c.d]` (dotted) with a.b.c.d in a private block is rejected |
| Ssrf.DotlessIsNotDottedMapped | lib/ssrf.ts:31 | the IPv4-mapped pattern never matches an address without a dot |
| Ssrf.MappedHexSpellingDecodes | lib/ssrf.ts:31 | the dotted pattern does not match ::ffff:a.b.c.d in the URL parser's hex spelling `::ffff:hhhh:hhhh`, while the hex pattern captures its two pieces, which spell a.b.c.d |
| Ssrf.HexMappedAcceptedAsWritten | lib/ssrf.ts:37-45 | an http(s) URL whose host is ::ffff:a.b.c.d in the hex spelling is accepted whatever the address: no branch of `isPrivateIPv6` matches it |
| Ssrf.HexMappedLoopbackIsAccepted | lib/ssrf.ts:31-32 | `[::ffff:7f00:1]`, the parsed form of `[::ffff:127.0.0.1]`, lies in 127.0.0.0/8 and is accepted |
| Ssrf.DottedHasNoHexMapping | lib/ssrf.ts:31 | the hex pattern of the corrected check does not match the dotted spelling |
| Ssrf.MappedHexFollowsIPv4 | lib/ssrf.ts:26-34 | with the corrected check, ::ffff:a.b.c.d is private exactly when a.b.c.d is in a private block, in the hex and in the dotted spelling |
| Ssrf.ValidateUrlIntended | lib/ssrf.ts:37-45 | the corrected guard accepts only URLs the source's guard accepts |
| Ssrf.ValidateUrlIntendedOnHexMapped | lib/ssrf.ts:37-45 | with the corrected check, a URL whose host is ::ffff:a.b.c.d in the hex spelling is accepted exactly when a.b.c.d is outside every private block |
| RestrictedUrl.NonStringIsRestricted | chrome-extension/lib/restricted-url.js:12-13 | a missing, empty or non-string URL is restricted |
| RestrictedUrl.BlankIsRestricted | chrome-extension/lib/restricted-url.js:3-14 | a URL of white space only is restricted (the empty pattern after trimming) |
| RestrictedUrl.RestrictedSchemeIsRestricted | chrome-extension/lib/restricted-url.js:2-14 | each of chrome:, chrome-extension:, edge:, about:, file: and view-source: is recognised in any letter case, after leading white space and with any text after it |
| RestrictedUrl.WebUrlIsNotRestricted | chrome-extension/lib/restricted-url.js:2-14 | http:// and https:// URLs, in any letter case, are not restricted |
| RestrictedUrl.PrefixDecides | chrome-extension/lib/restricted-url.js:2-10 | two texts agreeing on their first 17 characters match the same scheme patterns |
| RestrictedUrl.RestrictedDependsOnPrefix | chrome-extension/lib/restricted-url.js:12-15 | only the first 17 characters of the trimmed, lower-cased URL decide, 17 being the length of "chrome-extension:" |
| FanzaThumb.CleanCid | app/api/link-preview/fanzaThumb.mjs:27 | removing every character outside `[a-zA-Z0-9_-]` never lengthens the text, leaves only cid characters and keeps an already clean text unchanged |
| FanzaThumb.CleanCidDistributes | app/api/link-preview/fanzaThumb.mjs:27 | the global replace works character by character: cleaning a concatenation is the concatenation of the cleaned parts |
| FanzaThumb.CidCharsAreTrimmed | app/api/link-preview/fanzaThumb.mjs:26-27 | a text of cid characters has no white space for `.trim()` to remove |
| FanzaThumb.NormalizeCid | app/api/link-preview/fanzaThumb.mjs:24-29 | a falsy cid gives null; a returned cid is non-empty and made of `[a-zA-Z0-9_-]` only; a malformed escape throws |
| FanzaThumb.NormalizeCleanCid | app/api/link-preview/fanzaThumb.mjs:24-29 | a non-empty clean cid normalises to itself |
| FanzaThumb.NormalizeCidIdempotent | app/api/link-preview/fanzaThumb.mjs:24-29 | normalising a normalised cid gives it back unchanged |
| FanzaThumb.DmmLikeHostCharacterised | app/api/link-preview/fanzaThumb.mjs:31-34 | a host is DMM-like exactly when, lower-cased, it is dmm.co.jp or a subdomain of it, and a subdomain is joined by a dot |
| FanzaThumb.GroupRun | app/api/link-preview/fanzaThumb.mjs:59-60 | the greedy group `[a-zA-Z0-9_%.-]+` takes the longest prefix of group characters: it stops only at the end or at a non-group character |
| FanzaThumb.FirstMatchFrom | app/api/link-preview/fanzaThumb.mjs:59-60 | the position found is a match of `<lead>cid=` and no earlier position from the start is one |
| FanzaThumb.CidParam | app/api/link-preview/fanzaThumb.mjs:58-61 | `match(...)?.[1] ?? null` is the group of some match when there is one, and null exactly when the pattern matches nowhere |
| FanzaThumb.FirstCid | app/api/link-preview/fanzaThumb.mjs:62-65 | the result is the normalisation of one of the candidates, and null only when every candidate normalises to null |
| FanzaThumb.CidFromCandidates | app/api/link-preview/fanzaThumb.mjs:62-66 | the loop over the candidates returns the first usable cid, propagating a throwing decode |
| FanzaThumb.QueryCid | app/api/link-preview/fanzaThumb.mjs:50-56 | a cid taken from the query is the normalisation of the parsed `cid` parameter |
| FanzaThumb.ExtractCidResult | app/api/link-preview/fanzaThumb.mjs:47-67 | a cid that `extractCid` returns is non-empty and made of cid characters only |
| FanzaThumb.ExtractCid | app/api/link-preview/fanzaThumb.mjs:47-67 | the method computes the result of `extractCid` |
| FanzaThumb.ExtractCidPrefersQuery | app/api/link-preview/fanzaThumb.mjs:50-54 | a `cid` query parameter that normalises to a cid is returned, whatever the path holds |
| FanzaThumb.ExtractCidFallsBackToPath | app/api/link-preview/fanzaThumb.mjs:58-66 | without a usable query parameter, the `?cid=`/`&cid=` match is tried first and `/cid=` only when the first gives null |
| FanzaThumb.CoverUrls | app/api/link-preview/fanzaThumb.mjs:1-6 | there are four cover URL builders |
| FanzaThumb.InferDmmCoverCandidates | app/api/link-preview/fanzaThumb.mjs:69-73 | the result has four URLs or none, and none exactly when the cid normalises to null |
| FanzaThumb.CoverUrlsDistinct | app/api/link-preview/fanzaThumb.mjs:1-6 | the four URLs of one cid are pairwise different |
| FanzaThumb.CoverUrlInjective | app/api/link-preview/fanzaThumb.mjs:2 | two clean cids with the same first cover URL are equal |
| FanzaThumb.CidRunBeforeSlash | app/api/link-preview/fanzaThumb.mjs:2-5 | the cid is read back from the path segment it opens |
| FanzaThumb.FirstAccepted | app/api/link-preview/fanzaThumb.mjs:96-106 | the result is a candidate the probe accepts with every earlier candidate rejected or throwing, and null only when no candidate is accepted |
| FanzaThumb.ChooseCoverByProbe | app/api/link-preview/fanzaThumb.mjs:95-107 | the promise rejects exactly when the cid cannot be decoded; otherwise the result is the first accepted cover candidate |
| XigMedia.HostCharsHaveNoScheme | app/api/link-preview/xigMedia.mjs:14-21 | a lower-case host name never contains "://", so it is never sent to the URL parser |
| XigMedia.HostCharsAreTrimmedLower | app/api/link-preview/xigMedia.mjs:1-16 | trimming and lower-casing leave a lower-case host name unchanged |
| XigMedia.BareHostIsItself | app/api/link-preview/xigMedia.mjs:14-23 | the host tested for a bare lower-case host name is the name itself |
| XigMedia.BareHostJudgedAsWritten | app/api/link-preview/xigMedia.mjs:13-25 | a bare host name is an X host or an Instagram host exactly when the name itself is one |
| XigMedia.SubdomainsAreAccepted | app/api/link-preview/xigMedia.mjs:17-24 | x.com, twitter.com, instagram.com and every subdomain of them are accepted |
| XigMedia.LookalikeIsRejected | app/api/link-preview/xigMedia.mjs:17 | a host that ends in "x.com" without a dot before it is not an X host |
| XigMedia.EmptyHostIsRejected | app/api/link-preview/xigMedia.mjs:9-24 | the empty host (a URL that does not parse) is neither an X nor an Instagram host |
| XigMedia.UrlHost | app/api/link-preview/xigMedia.mjs:5-15 | text with "://" is tested by the hostname `getHost` returns |
| XigMedia.UrlIsJudgedByHostname | app/api/link-preview/xigMedia.mjs:5-25 | a URL that does not parse is neither kind of host; one that parses is judged by its lower-cased hostname, both directions |
| XigMedia.MediaBonus | app/api/link-preview/xigMedia.mjs:93-96 | the media-host and path bonuses add up to between 0 and 31 points |
| XigMedia.ScoreImageRange | app/api/link-preview/xigMedia.mjs:89-103 | an icon scores the bonus minus 50 (always negative), a small image the bonus minus 20 (at most 11), any other image the bonus itself |
| XigMedia.SquareAtJoin | app/api/link-preview/xigMedia.mjs:49 | `NxN` followed by a separator or the end is a back-referenced square at that position |
| XigMedia.SquareSizeIsSmall | app/api/link-preview/xigMedia.mjs:47-49 | each listed square size between separators, with an optional `s` or `p` before it, gives the hint "small" |
| XigMedia.IconWordIsIcon | app/api/link-preview/xigMedia.mjs:47-51 | every icon word gives the hint "icon" unless a square size already gave "small" |
| XigMedia.BestIndex | app/api/link-preview/xigMedia.mjs:107-112 | the kept candidate has a URL, no candidate with a URL scores more, every earlier one scores strictly less (ties keep the first), and none is kept only when no candidate has a URL |
| XigMedia.Scores | app/api/link-preview/xigMedia.mjs:110 | one score per candidate, each the score of that candidate's URL |
| XigMedia.Present | app/api/link-preview/xigMedia.mjs:109 | one flag per candidate: whether `candidate?.url` is truthy |
| XigMedia.SelectBestImageCandidate | app/api/link-preview/xigMedia.mjs:105-115 | the loop computes the selected URL, and a non-array or empty list gives null |
| XigMedia.SelectedIsBest | app/api/link-preview/xigMedia.mjs:105-115 | a chosen URL is truthy, scores above 0, is never an icon, is not beaten by any candidate and beats every earlier one |
| XigMedia.NoPositiveScoreSelectsNothing | app/api/link-preview/xigMedia.mjs:113-114 | when no candidate scores above 0, nothing is chosen |
| MarketPulseNormalize.DeduplicateItems | tools/market_pulse/src/normalize.ts:6-16 | the loop with its `seen` set keeps the first item of each id, in input order |
| MarketPulseNormalize.DeduplicateItemsProperties | tools/market_pulse/src/normalize.ts:6-16 | the result has distinct ids, keeps every id of the input, holds for each id the first item that has it, is a subsequence of the input, and deduplicating it again changes nothing |
| MarketPulseNormalize.FilterByDate | tools/market_pulse/src/normalize.ts:21-29 | an item is kept exactly when its date is valid and not before the cut-off (and the cut-off is valid); the result is a subsequence of the input |
| MarketPulseNormalize.FilterByDateIdempotent | tools/market_pulse/src/normalize.ts:21-29 | filtering twice with the same cut-off is filtering once |
| MarketPulseNormalize.InsertByDate | tools/market_pulse/src/normalize.ts:35-37 | inserting adds exactly that one item |
| MarketPulseNormalize.SortByDate | tools/market_pulse/src/normalize.ts:34-38 | the sorted list is a permutation of the input |
| MarketPulseNormalize.InsertKeepsOrder | tools/market_pulse/src/normalize.ts:35-37 | inserting a dated item into a newest-first list keeps it newest first |
| MarketPulseNormalize.SortByDateNewestFirst | tools/market_pulse/src/normalize.ts:34-38 | when every date is valid, the sorted list is ordered newest first |
| MarketPulseScore.Matches | tools/market_pulse/src/score.ts:12-21 | at most one entry per keyword; a keyword is listed exactly when the lower-cased text contains the lower-cased keyword |
| MarketPulseScore.CountMatches | tools/market_pulse/src/score.ts:12-21 | the loop collects the matching keywords in keyword order and counts them |
| MarketPulseScore.ContainedIsFound | tools/market_pulse/src/score.ts:13-16 | a keyword that occurs in the text as written is found |
| MarketPulseScore.FoundIgnoresCase | tools/market_pulse/src/score.ts:13-16 | the substring test ignores letter case on both the text and the keyword, both directions |
| MarketPulseScore.MatchesIgnoresCase | tools/market_pulse/src/score.ts:12-21 | texts equal up to letter case match the same keywords |
| MarketPulseScore.Clamp | tools/market_pulse/src/score.ts:23-25 | with lo <= hi the result lies in [lo, hi]; a value already in range is kept; the result is the value, lo or hi and never above hi |
| MarketPulseScore.Round | tools/market_pulse/src/score.ts:56-69 | `Math.round` gives the integer within half a unit, halves rounding up |
| MarketPulseScore.RoundOfInt | tools/market_pulse/src/score.ts:66-69 | rounding an integer leaves it unchanged |
| MarketPulseScore.Unique | tools/market_pulse/src/score.ts:71 | `[...new Set(list)]` has no string twice and holds exactly the strings of the list |
| MarketPulseScore.FindSource | tools/market_pulse/src/score.ts:33 | a found source is configured with the item's source id, and none is found exactly when no configured source has that id |
| MarketPulseScore.Scaled | tools/market_pulse/src/score.ts:56 | the weighted, rounded total lies in [0, 100] |
| MarketPulseScore.ScaledUnit | tools/market_pulse/src/score.ts:56 | weight 1 leaves a total in [0, 100] unchanged |
| MarketPulseScore.ScaledNonPositive | tools/market_pulse/src/score.ts:56 | a weight of 0 or less gives the total 0 |
| MarketPulseScore.ScoreItem | tools/market_pulse/src/score.ts:31-73 | pain <= 40, demand <= 30, urgency <= 20, frequency in [0, 10] and total in [0, 100]; the matched keywords are distinct and are exactly the configured keywords found in the text |
| MarketPulseScore.ScoreItemParts | tools/market_pulse/src/score.ts:39-68 | each keyword hit is worth 8 pain, 10 demand or 10 urgency points, up to the category's maximum |
| MarketPulseScore.ScoreItemFrequency | tools/market_pulse/src/score.ts:51-69 | the frequency bonus is 0, 2, 6 or 10 for 0, 1, 2 or 3 categories hit |
| MarketPulseScore.ScoreItemTotal | tools/market_pulse/src/score.ts:55-70 | the total is the sum of the four reported parts, scaled by the source weight, rounded and clamped to [0, 100] |
| MarketPulseScore.ScoreItemUnitWeight | tools/market_pulse/src/score.ts:34-56 | with weight 1 the total is the sum of the four parts |
| MarketPulseScore.ScoreItemNonPositiveWeight | tools/market_pulse/src/score.ts:55-56 | a source weighted 0 or less scores 0 |
| MarketPulseScore.DefaultWeight | tools/market_pulse/src/score.ts:33-34 | an unconfigured source, or one without a weight, is weighted 1 |
| SelfHealMigration.TwoLabelsAreBareDomain | app/app/shinen/lib/selfHealMigration.mjs:17 | two dot-joined labels of letters, digits and '-', then nothing or a path without white space, match the bare-domain pattern |
| SelfHealMigration.BareDomainGetsHttps | app/app/shinen/lib/selfHealMigration.mjs:11-30 | a domain written without a scheme, such as `example.com/page`, is parsed as `https://` plus the text with a leading "www." lower-cased |
| SelfHealMigration.NormalizeOfText | app/app/shinen/lib/selfHealMigration.mjs:11-30 | a non-empty trimmed text is normalised through its candidate, and refused when it has none |
| SelfHealMigration.CandidateOfBareDomain | app/app/shinen/lib/selfHealMigration.mjs:14-22 | a bare domain without an http(s) scheme or a leading "//" becomes `https://` plus the domain |
| SelfHealMigration.OtherSchemesAreRefused | app/app/shinen/lib/selfHealMigration.mjs:16-21 | a text with a colon in its host part and no http(s) scheme, such as `mailto:` or `javascript:`, is refused |
| SelfHealMigration.CandidateOfWebText | app/app/shinen/lib/selfHealMigration.mjs:16 | a text with an http(s) scheme, in any letter case, is handed on unchanged |
| SelfHealMigration.NormalizeWebText | app/app/shinen/lib/selfHealMigration.mjs:11-30 | a trimmed http(s) text is normalised by the URL parser alone |
| SelfHealMigration.NormalizeIsStable | app/app/shinen/lib/selfHealMigration.mjs:11-30 | when the URL parser serialises stably, a normalised URL normalises to itself |
| SelfHealMigration.SecondPatternIsCovered | app/app/shinen/lib/selfHealMigration.mjs:6-9 | every text the second generic-thumbnail pattern matches is matched by the first, so the second adds nothing |
| SelfHealMigration.GenericThumbIsRecognised | app/app/shinen/lib/selfHealMigration.mjs:125-130 | any URL under `https://abs.twimg.com/` whose path ends in `/og/image.png`, with an optional query or fragment and no line break, is the generic X login thumbnail |
| SelfHealMigration.OtherHostsAreNotGeneric | app/app/shinen/lib/selfHealMigration.mjs:125-130 | a text in which `abs.twimg.com` does not occur (in any letter case) is never the generic thumbnail |
| SelfHealMigration.DedupeActions | app/app/shinen/lib/selfHealMigration.mjs:94-104 | the loop with its `seen` set keeps the first action of each key, in order |
| SelfHealMigration.DedupeActionsProperties | app/app/shinen/lib/selfHealMigration.mjs:94-104 | the result has distinct keys, keeps every key, holds for each key its first action, is a subsequence of the input, and deduplicating it again changes nothing |
| SelfHealMigration.KeepsRecord | app/app/shinen/lib/selfHealMigration.mjs:151-197 | replacing the media, recording one of the four reasons and adding a drop or an unfurl of the card's URL keeps the migration's invariant |
| SelfHealMigration.NoteToClip | app/app/shinen/lib/selfHealMigration.mjs:140-156 | step 1 changes the card exactly when it has a URL and is not a clip; it then becomes a clip whose source URL is the canonical URL, its media untouched |
| SelfHealMigration.DropGenericThumbs | app/app/shinen/lib/selfHealMigration.mjs:158-181 | step 2 keeps the type and source, changes the card whenever the media's url, thumbnail or poster is the generic thumbnail, and does nothing otherwise |
| SelfHealMigration.RepairEmbed | app/app/shinen/lib/selfHealMigration.mjs:183-207 | step 3 keeps the invariant, the type and the source, never undoes a change, and does nothing to media that are not an embed |
| SelfHealMigration.InferMissingEmbed | app/app/shinen/lib/selfHealMigration.mjs:186-200 | filling in an inferred embed, or asking for an unfurl, keeps the invariant, the type and the source |
| SelfHealMigration.Steps | app/app/shinen/lib/selfHealMigration.mjs:132-208 | after the three steps, `changed` holds exactly when a reason was recorded, every reason is one of the four, every action is the thumbnail drop or an unfurl of the card's URL, and the card keeps its id and text |
| SelfHealMigration.MigrateCard | app/app/shinen/lib/selfHealMigration.mjs:132-215 | an unchanged card comes back as it was; `changed` holds exactly when there are reasons; the id and text are kept; the type is kept or becomes the clip type; the actions are the drop and unfurls of the card's own URL, without repeats |
| SelfHealMigration.UrlNoteBecomesClip | app/app/shinen/lib/selfHealMigration.mjs:140-156 | a card with a URL that is not a clip is changed into a clip whose source URL is that URL, with the reason normalize_url_note_to_clip first |
| SelfHealMigration.MigrateCardIdempotentWithoutMedia | app/app/shinen/lib/selfHealMigration.mjs:132-215 | for a card without media, migrating the migrated card changes nothing |
| SelfHealMigration.DropAndEnqueueDiffer | app/app/shinen/lib/selfHealMigration.mjs:98-123 | a drop action and an unfurl request never share a deduplication key |
| SelfHealMigration.DropActionsDistinct | app/app/shinen/lib/selfHealMigration.mjs:174-213 | the actions of the thumbnail step survive deduplication unchanged |
| SelfHealMigration.StepsOfImageThumb | app/app/shinen/lib/selfHealMigration.mjs:158-181 | for a clip whose image URL is the generic thumbnail, the steps remove the media and record one reason and the drop actions |
| SelfHealMigration.GenericImageThumbIsDropped | app/app/shinen/lib/selfHealMigration.mjs:158-215 | a clip whose image media are the generic X thumbnail loses its media, with reason drop_x_generic_thumb, the drop action and an unfurl of its URL when it has one |
| SelfHealMigration.StepsOfOtherMedia | app/app/shinen/lib/selfHealMigration.mjs:162-173 | for media that are neither an image nor an embed, the generic URL is kept while the card is reported changed |
| SelfHealMigration.GenericThumbOnOtherMediaRepeats | app/app/shinen/lib/selfHealMigration.mjs:162-173 | media that are neither an image nor an embed keep a generic-thumbnail URL, so migrating the result again reports a change again: the migration is not idempotent on such cards |
| SelfHealMigration.SummarizeCard | app/app/shinen/lib/selfHealMigration.mjs:106-115 | the summary keeps the card type and gives the source URL when it is truthy, null otherwise |
| SelfHealMigration.RunLimit | app/app/shinen/lib/selfHealMigration.mjs:218-220 | a positive number limit is rounded down, anything else gives 30 |
| SelfHealMigration.WithCardId | app/app/shinen/lib/selfHealMigration.mjs:246-248 | each action of a card, in order, is tagged with the card's id |
| SelfHealMigration.RunShape | app/app/shinen/lib/selfHealMigration.mjs:227-250 | one card out per card in; the first `limit` cards with work are migrated and every other card is returned as it was; every card with work is a candidate; `min(candidates, limit)` are applied; one fix per changed card |
| SelfHealMigration.RunUnfold | app/app/shinen/lib/selfHealMigration.mjs:227-250 | the runner's state after `i + 1` cards is one step from its state after `i` |
| SelfHealMigration.WithCardIdAppend | app/app/shinen/lib/selfHealMigration.mjs:246-248 | tagging one more action appends its tagged copy |
| SelfHealMigration.TagActions | app/app/shinen/lib/selfHealMigration.mjs:246-248 | the inner loop tags every action of a card with the card's id |
| SelfHealMigration.MigrateAll | app/app/shinen/lib/selfHealMigration.mjs:221-250 | the pass over the cards computes the runner's state: cards, counters, actions and fixes |
| SelfHealMigration.RunSelfHealMigration | app/app/shinen/lib/selfHealMigration.mjs:217-262 | one card out per card in; applied is min(candidates, limit); remaining is candidates minus applied; at most as many changed as applied, with one fix each; the actions have no repeats |
| SlackDaemon.SliceTo | tools/slack_remote/daemon.mjs:55 | `s.slice(0, end)` is a prefix of `s`, as long as `end` or `s`, whichever is shorter, for a non-negative end |
| SlackDaemon.TextSummaryShape | tools/slack_remote/daemon.mjs:53-56 | a non-empty text within the limit is kept whole; a longer one becomes its first `limit` characters and "...", `limit + 3` characters in all |
| SlackDaemon.TextSummaryOfEmpty | tools/slack_remote/daemon.mjs:54 | the empty text is summarised as "(empty)" |
| SlackDaemon.DropCr | tools/slack_remote/daemon.mjs:59 | removing the `\r` of a `\r\n` break takes at most one trailing carriage return |
| SlackDaemon.SplitLines | tools/slack_remote/daemon.mjs:59 | `split(/\r?\n/)` gives one piece per newline-separated piece, at least one, none containing a newline |
| SlackDaemon.ShortOutputIsKept | tools/slack_remote/daemon.mjs:62-64 | output of at most forty lines without carriage returns is returned unchanged |
| SlackDaemon.LongOutputIsCut | tools/slack_remote/daemon.mjs:58-66 | longer output is cut to its first twenty lines, the "...(snip)..." marker and its last twenty lines |
| SlackDaemon.EscapedIsReadBack | tools/slack_remote/daemon.mjs:154-156 | a POSIX shell reads the escaped text followed by a closing quote back as the original text |
| SlackDaemon.ShellQuoteRoundTrip | tools/slack_remote/daemon.mjs:154-156 | the shell reads a quoted string back as exactly one word equal to the string, whatever quotes it contains |
| SlackDaemon.ParseRunCommandAccepts | tools/slack_remote/daemon.mjs:121-152 | a command is accepted exactly when the trimmed text is one of the two ship commands, or starts with "run codex " or "run claude " followed by something other than white space |
| SlackDaemon.CodexPromptIsOneWord | tools/slack_remote/daemon.mjs:135-142 | the codex prompt is the trimmed text after the prefix, and reaches the shell as one quoted word that reads back as the prompt |
| SlackDaemon.NonEmpty | tools/slack_remote/daemon.mjs:13 | `filter(Boolean)` keeps exactly the non-empty strings |
| SlackDaemon.TrimAll | tools/slack_remote/daemon.mjs:12 | each piece is trimmed, in place |
| SlackDaemon.IsAllowedUser | tools/slack_remote/daemon.mjs:228-232 | an empty user id is refused; an empty allowlist lets every other user in; otherwise exactly the listed ids are allowed |
| SlackDaemon.AllowlistFromEnvironment | tools/slack_remote/daemon.mjs:10-13 | a user is allowed exactly when the id is not empty and either the list is empty or some comma-separated piece of the environment value, trimmed, equals the id |
| SlackDaemon.Unexpired | tools/slack_remote/daemon.mjs:193-199 | the pending requests after cleanup are exactly those not older than the 30-minute TTL, each unchanged |
| SlackDaemon.ExpiryIsPermanent | tools/slack_remote/daemon.mjs:189-191 | a request that has expired stays expired later |
| SlackDaemon.UnexpiredLater | tools/slack_remote/daemon.mjs:193-199 | cleaning up now and again later leaves what one cleanup later leaves |
| SlackDaemon.Approvals.constructor | tools/slack_remote/daemon.mjs:22 | the pending approvals start empty |
| SlackDaemon.Approvals.CleanupExpired | tools/slack_remote/daemon.mjs:193-199 | the loop deletes exactly the expired requests from the pending map |
| Ntfy.ParseArgs | tools/notify/ntfy.mjs:5-31 | the loop over the arguments computes the scan: each flag takes the argument after it (or "" at the end) and skips it, and other arguments are ignored |
| Ntfy.ParseArgsRoundTrip | tools/notify/ntfy.mjs:5-31 | rendering the four fields as flag/value pairs and parsing them back gives the same fields, whatever their text, flag-like values included |
| Ntfy.ScanSkipsNonFlags | tools/notify/ntfy.mjs:13-28 | arguments that are not flags change nothing |
| Ntfy.FlagWithoutValue | tools/notify/ntfy.mjs:16-25 | a flag given as the last argument sets its field to "" |
| Ntfy.ScanPassesOver | tools/notify/ntfy.mjs:13-28 | the scan passes over a run of non-flag arguments unchanged |
| Ntfy.AuthHeaderChoice | tools/notify/ntfy.mjs:33-42 | a non-empty token gives "Bearer " and the token; otherwise a non-empty user and password give "Basic " and the base64 of "user:pass"; the header is empty exactly when neither is set |
| Ntfy.ConstructorIsNotALevel | tools/notify/ntfy.mjs:50-58 | as written, the priority "Constructor" finds the object literal's inherited `constructor` member instead of a level |
| Ntfy.NormalizePriority | tools/notify/ntfy.mjs:44-59 | the normalised priority, looked up among the table's own keys only, is always one of "1" to "5" |
| Ntfy.AsWrittenAgreesElsewhere | tools/notify/ntfy.mjs:44-59 | the code as written and the corrected function agree on every input that is not an inherited key |
| Ntfy.NormalizePriorityCases | tools/notify/ntfy.mjs:44-59 | empty input gives 3; a digit 1 to 5 is kept; min, low, default, high and max, in any letter case and with surrounding white space, give 1 to 5; anything else gives 3 |
| Ntfy.NormalizePriorityIdempotent | tools/notify/ntfy.mjs:44-59 | normalising a normalised priority changes nothing |
| Ntfy.LevelIsRaw | tools/notify/ntfy.mjs:45 | trimming and lower-casing leave a level digit unchanged |
| OpenaiImageProbe.AddTsShape | scripts/openai_image_probe.py:40-41 | the URL is kept as a prefix, followed by `&` when it already has a query and `?` otherwise, then `ts=` and the timestamp in decimal; the result always has a query |
| OpenaiImageProbe.AddTsInjective | scripts/openai_image_probe.py:40-41 | different timestamps give different URLs |
| OpenaiImageProbe.ExtractErrmsgCases | scripts/openai_image_probe.py:108-117 | a body that is not JSON, not an object, or has no object under `error` gives ""; a string `error.message` is returned; the result is "" or truthy |
| OpenaiImageProbe.StatusIconClassifies | scripts/openai_image_probe.py:278-284 | the icon is the check mark exactly for 200, the skip mark exactly for -1 and -2, and the cross for every other code |
| OpenaiImageProbe.ExitTwoIffBothCrossed | scripts/openai_image_probe.py:268-275 | the script exits with 2 exactly when both codes show the cross, and with 0 otherwise |
| OpenaiImageProbe.RunProbe | scripts/openai_image_probe.py:196-275 | the run's codes and messages are those of the skip rules or the two calls, and its exit status follows from the codes |
| OpenaiImageProbe.SkippedProbeSucceeds | scripts/openai_image_probe.py:201-275 | SKIP_OPENAI=1 wins over a missing key; a skipped run makes no call, records code -1 or -2 for both and exits with 0 |
| OpenaiImageProbe.CalledProbeFailsOnlyWhenBothFail | scripts/openai_image_probe.py:207-275 | with a key, the run exits with 2 exactly when neither call answered 200 |
| Text.Trim | app/api/link-preview/xigMedia.mjs:2 | `trim()` leaves no white space at either end and never lengthens the text |
| Text.TrimIdempotent | app/api/link-preview/xigMedia.mjs:2 | trimming twice is trimming once |
| Text.ToLower | tools/market_pulse/src/score.ts:13 | `toLowerCase()` keeps the length and lowers each letter in place |
| Text.Split | tools/slack_remote/daemon.mjs:11 | `split(",")` gives at least one piece, none containing the separator |
| Text.JoinSplit | tools/slack_remote/daemon.mjs:59-63 | joining the pieces of a split with the separator gives back the text |
| Text.SplitJoin | tools/slack_remote/daemon.mjs:65 | splitting a join of separator-free pieces gives back the pieces |
| Text.OnDomainBoundary | app/api/link-preview/fanzaThumb.mjs:33 | a host on a domain that is not the domain itself ends with the domain right after a dot |
| Dedup.DedupByShape | tools/market_pulse/src/normalize.ts:6-16 | dropping repeats keeps one element per key, no key twice, as a subsequence of the input |
| Dedup.DedupByKeepsFirst | tools/market_pulse/src/normalize.ts:9-13 | the element kept for each key is the first one with that key |
| Dedup.DedupByIdempotent | tools/market_pulse/src/normalize.ts:6-16 | dropping repeats twice is dropping them once |
| Decimal.DecimalRoundTrip | scripts/openai_image_probe.py:41 | reading back the decimal numeral of a natural number gives the number |
| Decimal.IntToDecimalInjective | scripts/openai_image_probe.py:41 | distinct integers print differently |
| JsValue.CoalesceVersusOr | app/app/shinen/lib/selfHealMigration.mjs:142-170 | `??` and the logical or disagree only when the left operand is falsy but neither null nor undefined |

## Left out

### External code and I/O (parameters in the model)

- The WHATWG URL parser (`new URL`, `hostname`, `searchParams`, `href`) is a parameter wherever it is used. Parsing URLs is the platform's job, not this code's.
- The model of the SSRF guard starts from the parsed URL's parts. `dnsCheck` is not part of this model: it resolves names over the network.
- `decodeURIComponent`, `String(v)` of non-string values, base64 encoding, `json.loads` and `new Date(s).getTime()` are parameters.
- `inferEmbedFromUrl` and `extractYoutubeId` are parameters of the migration. Both are regular-expression scrapers over parsed URLs.
- Clocks (`Date.now()`), random ids and nonces, and the network probes (`headOk`, the probe script's HTTP calls) are parameters. Their results are taken as given.
- The browser's `chrome.storage` and `localStorage` are maps from keys to stored values. Asynchronous interleavings of concurrent callers are not modelled.
- Diag.DiagStore.Log: a `setItem` that throws is swallowed by the source (diag.mjs lines 65-69) and the log is then left as it was; the model's storage writes always succeed. The same holds for `removeItem` in Diag.DiagStore.Clear (lines 91-95), and a `getItem` that throws reads as no events, like an unparsable value.
- The Slack socket loop, `slackApi`, `runWithLock`, the approval message blocks and usage text are left out. The same goes for the ntfy `fetch` call and `toHeaderLatin1`, and for the probe's report file, prints, image signatures and hashes. All of these are I/O or formatting of I/O.
- The other exports of these files are not part of this model: `applyUnfurlResultToCard`, `collectImageCandidatesFromHtml`, `isLoginWallHtml`, `isAgeGateHtml`, `isLikelySharedDmmImage` and similar scrapers.

### Numbers and text

- Coordinates, sizes, weights and timings are real numbers or integers. IEEE floating-point rounding, NaN and the infinities are not modelled, except where the code tests for them (`Number.isFinite`, NaN dates), which have constructors of their own.
- Strings are sequences of characters. JavaScript counts UTF-16 code units, which agrees with the model for every character of the Basic Multilingual Plane.
- Text.ToLower: only the ASCII letters are lowered. JavaScript's `toLowerCase` also lowers other scripts. The restricted-URL test, the ntfy priority names, the X and Instagram host tests and the self-heal URL patterns compare lower-cased text against ASCII patterns, so nothing is lost there. `MarketPulseScore.Found` and `Matches` lower-case configured keywords that may be any text: a keyword such as "échec" matches "ÉCHEC" in JavaScript but not in the model.

### What the model's data drops

- A board card's source keeps its URL, its site and a favicon. The favicon stands for every other field, which the migration copies without reading.
- SlackDaemon.Approvals: the pending approvals are a map, so the JavaScript `Map`'s insertion order is not kept. Nothing in the daemon depends on that order.
- TunnelAutoArrange.AutoArrange: card sizes are browser measurements, taken to be non-negative.

### Contracts stated weaker than the source

- Ssrf.ValidateUrlRejectsMappedPrivate: covers only a host written `[::ffff:a.b.c.d]` in dotted form. The URL parser hands IPv4-mapped hosts over in hex (`[::ffff:7f00:1]`), which `isPrivateIPv6` does not recognise, so `validateUrl` accepts them (`Ssrf.HexMappedAcceptedAsWritten`; see "## Findings"). `dnsCheck` makes the same `isPrivateIPv6` call (lib/ssrf.ts:51).
- SelfHealMigration.MigrateCardIdempotentWithoutMedia: idempotence of `migrateCard` is proved only for cards without media. It does not hold in general, as `GenericThumbOnOtherMediaRepeats` shows: media that are neither an image nor an embed keep a generic-thumbnail URL and are reported changed on every run.
- Diag.ReadBackNormalized: the read-back round trip is proved under side conditions. As `EmptyLinkDomainCounterexample` shows, an empty-string link breaks it.
- SelfHealMigration.NormalizeIsStable: relies on the URL parser serialising an http(s) URL to an href that parses back to itself, which is the WHATWG parser's documented behaviour.
- MarketPulseNormalize.SortByDateNewestFirst: the newest-first order is proved when every date is valid. With an invalid date the comparator returns NaN, and JavaScript leaves the order implementation-defined.
- TunnelLayout.ScreenWorldRoundTrip: holds over the reals. With floating point the round trip is exact only up to rounding.
- XigMedia.SquareSizeIsSmall: the size and icon regular expressions are modelled as predicates on the lower-cased text, and the lemmas name the cases they cover.

## Findings

| source | as written | input that shows it | evidently intended | confidence | as-written member | corrected member |
|---|---|---|---|---|---|---|
| lib/sortKey.ts:38-39 | when the digits at the first difference are adjacent, the key is the left digit followed by 'V', whatever follows in the left bound | `generateKeyBetween("yz", null)` gives "yV", which sorts before "yz"; after "yV" it gives "yV" again | the key sorts strictly after the left bound, so appending keeps keys increasing and distinct | not executed | SortKey.AppendAfterAdjacentCounterexample | SortKey.KeyBetweenFixedOrdered |
| tools/notify/ntfy.mjs:50-58 | `map[raw]` on a plain object literal also finds inherited members | `normalizePriority("Constructor")` returns the `Object` constructor (`"__proto__"` returns the prototype) instead of a level | every priority header is one of "1" to "5" | not executed | Ntfy.ConstructorIsNotALevel | Ntfy.NormalizePriority |
| lib/ssrf.ts:31-32 | an IPv4-mapped address is decoded only in the dotted spelling `::ffff:a.b.c.d`, but the URL parser prints every IPv6 host in hex | `http://[::ffff:127.0.0.1]/` reaches the guard with hostname `[::ffff:7f00:1]` and is accepted, although it is loopback | an IPv4-mapped address is rejected when its IPv4 address is private, in the spelling the parser produces | not executed | Ssrf.HexMappedLoopbackIsAccepted | Ssrf.ValidateUrlIntendedOnHexMapped |

Nothing else in the model calls `Ssrf.ValidateUrl`. It stays as written, and `Ssrf.ValidateUrlIntended` is the corrected guard.
