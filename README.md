# ZSNAP visual search, modelled in Dafny

ZSNAP is a set of experiment modules for the SNAP stimulus-presentation framework. This project models three of them.

- **`BaseModule`.** The module template.
- **`VisualSearch`.** The "Where's Waldo" search with eye-gaze input. It presents a target character, then a picture book page. The participant searches the page until their gaze has dwelt on the character's mask, or until the search time runs out.
- **`VisualSearch_nogaze`.** The same paradigm without gaze. The page stays up for a fixed number of frames while a cursor is drawn.

Each Dafny module corresponds to a part of the code:

| Dafny module | file | what it holds |
|---|---|---|
| `Optional`, `Strings`, `Numbers` | `optional.dfy`, `strings.dfy`, `numbers.dfy` | Option values. Python's substring test, `";".join`, `str.split`, `str(int)` and slicing. Python's `int()` on a float as truncation toward zero. |
| `BaseModule` | `base_module.dfy` | `instruct`, `alignVertical`, `photomarker`, the log line and log path. The template's mutable state (subject, log file) as a class. The `Event` type: the engine calls (markers, flashes, cursor, sleeps, pictures) that the modules make. |
| `DwellWindow` | `dwell_window.dfy` | Python's `deque(maxlen=n)` as a class over a sequence. It is specified by `LastN`, the last `n` items. |
| `SearchTrials` | `search_trials.dfy` | The trial bookkeeping that both visual-search modules share line for line: trial count, pause rule, mask name, target choice, and the `"\n"`-led log line. |
| `VisualSearch` | `visual_search.dfy` | `screen2scene`, `screen2image`, `simple_almost_equal`. The numpy mask lookup and the 90% check. The frame loop of one search as reference functions over the gaze chunks, with its properties. |
| `VisualSearchSession` | `visual_search_session.dfy` | `VisualSearch.run` as a class `Experiment` whose methods change the cursor, the engine trace and the log text. The dwell window is an object made once per run. Each method is proved equal to a reference function of the session: `TrialStep`, `BlockUpTo`, `Blocks`, `Session`. |
| `VisualSearchNoGaze` | `visual_search_nogaze.dfy` | `VisualSearch_nogaze.run` in the same form. Its fixed-length cursor loop is a method proved equal to `LoopEvents`. |

## How the model follows the code

A session is modelled as the sequence of engine calls it makes (`Event`s) plus the text of its log file. An exception ends the Python `run`. Each such exception is a `Stop` value that ends the model's session at the same point, after the same calls:

- **`NoTarget`.** The target variable is still unbound on the first trial whose image name has no `chN` tag: an `UnboundLocalError`.
- **`MarkerFault`.** `rect` is unbound for a position code other than `tl`/`ll`/`tr`/`lr`. The marker has already been sent.
- **`MissingImage` / `MissingMask`.** An image or mask file cannot be opened.
- **`SearchFault(f)`.** numpy raises `IndexError` at frame `f`'s check.
- **`NoCursor`.** The no-gaze module calls `removeCursor` when no cursor object was ever created, which raises `AttributeError`. This happens with zero search frames.

Points where the module's design description and its code differ. The model follows the code:

- The dwell window is created once per run (`src/modules/VisualSearch.py:281`), not once per search. It is never cleared, so the first checks of a search can judge samples from the previous image (`WindowCarriesOver`, `StaleWindowDecides`).
- The threshold is the hard-coded `0.9 * fixationframes` with a strict `>`.
- The window is checked on every frame once it is full. There is no batched re-check and no gap filling or interpolation. `isnan` is imported but unused.
- A check can raise instead of degrading to "not yet". Negative pixel indices wrap around; other out-of-range indices raise. An empty full window (`fixationframes == 0`) also raises.

Other facts of the code that the model keeps:

- The trial loop is `for trial in range(self.trials)` inside `for block in range(self.blocks)`. So every block shows the same first `trials` images, and pauses `blocks` times (`PausesPerBlock`).
- On a fixation, `removeCursor` runs twice: inside the loop and after it (`Ending`).
- Python 2 `/` on two ints is floor division (`TrialsPerBlock`).
- `photomarker` sizes its rectangle by `base.getAspectRatio()` at the call, while `screen2scene` uses the window-size ratio fixed in `__init__`. The two can differ, so both modules take the engine's ratio `ar` separately from the screen size.
- The 90% reading of the check (`BinaryMaskFixation`) assumes a mask of 0s and 1s. `Check` itself models the raw sum, so on a mask stored as 0/255 the same `sum > 0.9 * n` fires with far fewer samples on target.

## Model

| member | source | states |
|---|---|---|
| Numbers.Trunc | src/modules/VisualSearch.py:131 | `int()` of a float truncates toward zero: the result is within one of the value, on the side of zero |
| Numbers.Frames | src/modules/VisualSearch.py:277-278 | a frame count `int(rate * seconds)` of non-negative values is the largest whole number not above the product |
| BaseModule.Instruct | src/modules/BaseModule/BaseModule.py:154-174 | the shown text starts with the given text. With `time == 0` it continues with `"\n\n\1small\1"` and the press-space prompt, and the module waits for space. Otherwise the text is unchanged and the module sleeps exactly `time` |
| BaseModule.AlignOffset | src/modules/BaseModule/BaseModule.py:177-182 | defined exactly for indices the three-element list accepts (`-3..2`). Align 0 puts the top at 1, align 1 the centre at 0, align 2 the bottom at -1, and the negative indices alias them |
| BaseModule.PhotomarkerRect | src/modules/BaseModule/BaseModule.py:192-202 | a rectangle exists exactly for `tl`, `ll`, `tr`, `lr`. It is `sc` wide and `sc` high, and touches the named corner of `[-ar, ar] x [-1, 1]` |
| BaseModule.PhotomarkerOnScreen | src/modules/BaseModule/BaseModule.py:192-202 | a marker no larger than the screen lies wholly inside `[-ar, ar] x [-1, 1]` |
| BaseModule.Photomarker | src/modules/BaseModule/BaseModule.py:185-208 | the marker is always sent first. A missing position means the default. The call fails, after sending only the marker, exactly when the position is not a corner. Otherwise the corner's rectangle follows |
| BaseModule.LogLine | src/modules/BaseModule/BaseModule.py:211-218 | a template log record ends with a newline |
| BaseModule.LogLineFields | src/modules/BaseModule/BaseModule.py:211-218 | a template record without its newline splits on `;` back into subject, timestamp and the logged values (one empty field for none), when no field holds a `;` |
| BaseModule.LogFilePath | src/modules/BaseModule/BaseModule.py:122-123 | the log file is `logs/<module>-<openTime>-<subject>.csv` (for a relative module name), and always ends in `.csv` |
| BaseModule.Module.constructor | src/modules/BaseModule/BaseModule.py:61-87 | the template starts as `BaseModule` with its header line, logging on, no subject and no log file |
| BaseModule.Module.SetSubject | src/modules/BaseModule/BaseModule.py:147-151 | the typed ID becomes the subject |
| BaseModule.Module.OpenLog | src/modules/BaseModule/BaseModule.py:103-126 | with logging on, the log file gets the template's path and holds exactly the header line; with logging off nothing changes |
| BaseModule.Module.Log | src/modules/BaseModule/BaseModule.py:211-218 | with logging on, exactly one record is appended to the log file's contents and no other file changes; with logging off no file changes |
| DwellWindow.LastN | src/modules/VisualSearch.py:281 | a `maxlen` deque holds `min(len, maxlen)` items |
| DwellWindow.LastNAppendOne | src/modules/VisualSearch.py:376-377 | appending below capacity keeps every item and adds the new one at the end. Appending to a full window evicts exactly the oldest and keeps the order. A zero-capacity window stays empty |
| DwellWindow.LastNAbsorbs | src/modules/VisualSearch.py:376-377 | the window only ever depends on the most recent `maxlen` samples: trimming earlier changes nothing later |
| DwellWindow.Window.constructor | src/modules/VisualSearch.py:281 | `deque(maxlen=n)` is empty with capacity `n` |
| DwellWindow.Window.Append | src/modules/VisualSearch.py:377 | the window never exceeds its capacity and becomes the last `maxlen` of its old items plus the new sample |
| DwellWindow.Window.AppendChunk | src/modules/VisualSearch.py:376-377 | appending a chunk sample by sample leaves the last `maxlen` of the old items followed by the chunk |
| SearchTrials.TrialsPerBlock | src/modules/VisualSearch.py:57 | `ntrialperblock` is the floor of images over blocks: `n * blocks <= alltrials < (n + 1) * blocks`, positive exactly when there are at least `blocks` images |
| SearchTrials.TrialCount | src/modules/VisualSearch.py:55-58 | `trials` is a multiple of `blocks`, at most the number of images and less than `blocks` below it |
| SearchTrials.ImageIndexInRange | src/modules/VisualSearch_nogaze.py:41-44 | every trial index of the loop names an existing image |
| SearchTrials.PausesPerBlock | src/modules/VisualSearch.py:284-290 | since the trial index restarts at 0 in every block and runs over all `ntrialperblock * blocks` trials, a block holds `blocks` pauses |
| SearchTrials.MaskName | src/modules/VisualSearch.py:293 | the mask name ends in `_mask.png` after a prefix of the image name. For names of four or more characters that prefix drops exactly the last four; shorter names follow Python's negative slice end |
| SearchTrials.MaskNameOfStem | src/modules/VisualSearch_nogaze.py:224 | the mask of `stem` plus a four-character extension is `stem_mask.png` |
| SearchTrials.TargetFor | src/modules/VisualSearch.py:302-309 | no target exactly when none was chosen before and the image name has no `ch1`..`ch4`; a newly chosen target indexes one of the four characters |
| SearchTrials.TargetIsLastMatch | src/modules/VisualSearch_nogaze.py:233-240 | the last match wins: target `i` is chosen when its tag occurs and no higher-numbered tag does; without a tag the previous target stays |
| SearchTrials.ChooseTarget | src/modules/VisualSearch.py:302-309 | the chain of independent `if`s, run in order, yields `TargetFor` |
| SearchTrials.LogLine | src/modules/VisualSearch.py:485-489 | a visual-search log record starts with a newline |
| SearchTrials.TrialLogLineFields | src/modules/VisualSearch.py:299 | a trial's record, without its newline, splits into exactly five fields: subject, timestamp, block, trial, image. The block and trial fields are digit strings that read back as the 1-based block and trial |
| SearchTrials.LogPath | src/modules/VisualSearch.py:266 | the visual-search log file lies under `./logs/` and ends in `.csv` |
| SearchTrials.LogPathFields | src/modules/VisualSearch.py:266 | between `./logs/` and `.csv` the name splits on `-` back into the module name, the opening time and the subject, when neither of the last two holds a dash |
| VisualSearch.AspectRatio | src/modules/VisualSearch.py:125 | the scene's aspect ratio is positive |
| VisualSearch.ScreenSceneRoundTrip | src/modules/VisualSearch.py:127-128 | `screen2scene` loses nothing: its inverse gives back the screen point on both axes |
| VisualSearch.SceneScreenRoundTrip | src/modules/VisualSearch.py:127-128 | every scene point is `screen2scene` of some screen point |
| VisualSearch.SceneLandmarks | src/modules/VisualSearch.py:127-128 | the screen's centre goes to `(0, 0)`, its top-left corner to `(-ar, 1)` and its bottom-right corner to `(ar, -1)` |
| VisualSearch.SceneMonotone | src/modules/VisualSearch.py:127-128 | scene x grows strictly with screen x and does not depend on y; scene y falls strictly as screen y grows and does not depend on x |
| VisualSearch.SceneBounds | src/modules/VisualSearch.py:127-128 | points on the screen land in `[-ar, ar] x [-1, 1]` |
| VisualSearch.ImageBounds | src/modules/VisualSearch.py:130-131 | for `0 <= x < sx` and `0 <= y < sy`, `screen2image` gives a column in `[0, w)` and a row in `[0, h)` |
| VisualSearch.ImageMonotone | src/modules/VisualSearch.py:130-131 | `screen2image` is non-decreasing in each coordinate |
| VisualSearch.ImagePixelCovers | src/modules/VisualSearch.py:130-131 | the pixel a screen point maps to covers that point: the pixel's span on the screen contains it on both axes |
| VisualSearch.AlmostEqualIsClose | src/modules/VisualSearch.py:36-38 | values `simple_almost_equal` accepts differ by less than `10 ** -dec` |
| VisualSearch.AlmostEqualNotByDistance | src/modules/VisualSearch.py:36-38 | closeness alone does not suffice: 0.9995 and 1.0 are not almost equal at three decimals |
| VisualSearch.NpIndex | src/modules/VisualSearch.py:382 | numpy's index rule: an index is accepted exactly when it lies in `[-n, n)`, and negative indices count from the end |
| VisualSearch.MaskSumDefined | src/modules/VisualSearch.py:382 | `sum(mask[rows, cols])` exists exactly when numpy can index every pixel |
| VisualSearch.BinarySumCountsHits | src/modules/VisualSearch.py:382 | on a 0/1 mask the sum counts the samples on target |
| VisualSearch.BinaryMaskFixation | src/modules/VisualSearch.py:379-382 | with a 0/1 mask and every pixel inside it, a full window is a fixation exactly when more than 90% of its samples are on target |
| VisualSearch.OnScreenNeverFaults | src/modules/VisualSearch.py:379-382 | when the mask has the image's size and every midpoint lies on the screen, the check cannot raise |
| VisualSearch.OutcomeIsFirstDecisive | src/modules/VisualSearch.py:356-389 | a search ends with a fixation (or a fault) at frame `f` exactly when that frame's check says so and no earlier check was decisive. It times out exactly when no check within `visualsearchframes` was decisive |
| VisualSearch.VerdictStep | src/modules/VisualSearch.py:379-389 | a decisive check ends the search at its frame; any other passes to the next frame |
| VisualSearch.FrameTraceAt | src/modules/VisualSearch.py:368-389 | each completed frame moves the cursor to its chunk's last sample, flushes the inlet and sleeps one frame, in that order |
| VisualSearch.PulledGrows | src/modules/VisualSearch.py:362 | later frames only add samples to what was pulled |
| VisualSearch.WindowCarriesOver | src/modules/VisualSearch.py:281-285 | until `fixationframes` new samples have arrived, the window still ends with the previous search's newest samples, followed by everything pulled since |
| VisualSearch.WindowForgetsStart | src/modules/VisualSearch.py:376-377 | once `fixationframes` samples have arrived in this search, the window no longer depends on what it held before |
| VisualSearch.WindowStep | src/modules/VisualSearch.py:376-377 | appending frame `f`'s chunk to frame `f`'s window gives frame `f + 1`'s window |
| VisualSearch.NeverFullTimesOut | src/modules/VisualSearch.py:356-379 | a window that never fills never triggers a check, and the search times out |
| VisualSearch.ZeroCapacityFaults | src/modules/VisualSearch.py:278-281 | with `fixationframes == 0` the empty window counts as full at once, and the first check raises |
| VisualSearch.FoundNeedsFullWindow | src/modules/VisualSearch.py:379-385 | a fixation needs a full, non-empty window, counting the samples carried over |
| VisualSearch.StaleWindowDecides | src/modules/VisualSearch.py:362-382 | if no sample arrives in the first frame, the first check judges the previous search's window against the new mask, and a full on-target window ends the new search at frame 0 |
| VisualSearch.CursorOnScreen | src/modules/VisualSearch.py:365-368 | the cursor of a frame whose last midpoint is on the screen lies on the scene, at depth 0 |
| VisualSearchSession.DefaultFrames | src/modules/VisualSearch.py:277-278 | at the default 600 Hz a search lasts at most 3600 frames, a fixation needs 600 samples, and the cursor fades in over 60 frames |
| VisualSearchSession.PerformPrepared | src/modules/VisualSearch.py:287-311 | a trial first pauses (at a block's first image), then logs, then chooses the target; only the choice can stop it |
| VisualSearchSession.LaterSteps | src/modules/VisualSearch.py:317-393 | from the target's presentation on, a trial leaves the log and the target alone, only adds engine calls, and cannot stop for want of a target |
| VisualSearchSession.TrialWritesRecord | src/modules/VisualSearch.py:299 | every trial writes its record, even one that then stops the session, and only adds engine calls |
| VisualSearchSession.NoTargetExactly | src/modules/VisualSearch.py:302-311 | a trial stops for want of a target exactly when none was chosen before and its image has no tag |
| VisualSearchSession.MarkerFaultExactly | src/modules/VisualSearch.py:322-335 | once a target is chosen, a trial stops at the photomarker exactly when the configured position is not a corner |
| VisualSearchSession.CompletedTrial | src/modules/VisualSearch.py:301-393 | a trial that completes leaves a target chosen and the cursor back at the origin |
| VisualSearchSession.BlockStopped | src/modules/VisualSearch.py:284-285 | after an exception, no further trial of the block runs |
| VisualSearchSession.BlockStopsAt | src/modules/VisualSearch.py:284-285 | once a trial has stopped the session, the rest of the block leaves it unchanged |
| VisualSearchSession.StoppedSessionStays | src/modules/VisualSearch.py:284-285 | a session that stops within a block runs no later block |
| VisualSearchSession.Experiment.constructor | src/modules/VisualSearch.py:115-125 | the cursor starts at the origin, with nothing shown or logged; the window size for the scene mapping and the engine's aspect ratio for photomarkers are kept apart |
| VisualSearchSession.Experiment.SetSubject | src/modules/VisualSearch.py:422-426 | the typed ID becomes the subject |
| VisualSearchSession.Experiment.OpenLog | src/modules/VisualSearch.py:264-269 | the log file is named by `LogPath` and holds exactly the header line |
| VisualSearchSession.Experiment.Log | src/modules/VisualSearch.py:485-489 | with logging on, exactly one `"\n"`-led record is appended; otherwise the log is unchanged |
| VisualSearchSession.Experiment.Photomarker | src/modules/VisualSearch.py:460-483 | the calls made and the failure are those of `photomarker` with the configured position, the rectangle sized by the engine's aspect ratio `ar` (not the window-size ratio of `screen2scene`) |
| VisualSearchSession.Experiment.ShowCursor | src/modules/VisualSearch.py:194-205 | the cursor appears at `cursorPos`, then one sleep per fade frame |
| VisualSearchSession.Experiment.Frame | src/modules/VisualSearch.py:362-382 | one frame moves the cursor to `CursorAt`, advances the window to the next frame's window, and returns a check that decides the outcome from that frame on as `FirstDecisive` does |
| VisualSearchSession.Experiment.RunFrames | src/modules/VisualSearch.py:356-389 | the frame loop returns the reference outcome. It leaves the window and cursor of the last frame it ran (the cursor untouched when no frame ran), and makes the calls of the completed frames plus the fixation's or fault's last calls |
| VisualSearchSession.Experiment.SearchTrial | src/modules/VisualSearch.py:354-393 | one search yields `Outcome`, the window after the consumed frames, the search's whole trace, and the cursor reset to the origin unless the check raised |
| VisualSearchSession.Experiment.PresentTarget | src/modules/VisualSearch.py:317-335 | the target's presentation is the reference `TargetShown` step: circle, `target` marker, picture, circle, `image` marker, both markers sized by the engine's aspect ratio, and a stop after the first marker for an unknown position |
| VisualSearchSession.Experiment.SearchImage | src/modules/VisualSearch.py:337-393 | the image's display and search is the reference `ImageSearched` step |
| VisualSearchSession.Experiment.Break | src/modules/VisualSearch.py:287-290 | the press-space wait and the one-second sleep come exactly before the trials with `trial % ntrialperblock == 0` |
| VisualSearchSession.Experiment.Prepare | src/modules/VisualSearch.py:287-309 | pause, exactly one record, and the `TargetFor` choice |
| VisualSearchSession.Experiment.Show | src/modules/VisualSearch.py:317-393 | presentation and search are the trial's reference steps from the presentation on |
| VisualSearchSession.Experiment.Trial | src/modules/VisualSearch.py:287-393 | one pass of the loop body is `TrialStep`, and appends exactly the trial's record to the log |
| VisualSearchSession.Experiment.BlockTrial | src/modules/VisualSearch.py:285-393 | a trial of a block that has not stopped is that block's next stage, and extends the block's records by one |
| VisualSearchSession.Experiment.RunBlock | src/modules/VisualSearch.py:285-393 | the inner loop is `BlockUpTo` over all `trials`; if no trial stops, the log grows by every trial's record in order |
| VisualSearchSession.Experiment.RunBlocks | src/modules/VisualSearch.py:281-393 | the nested loops, with one dwell window throughout, are `Blocks` over all blocks; if nothing stops, the log grows by every record of the session |
| VisualSearchSession.Experiment.Run | src/modules/VisualSearch.py:244-399 | `run` is the reference `Session`, followed by the end text unless a trial stopped it. With logging on, the subject and log path are set, and a completed log is the header plus every trial's record |
| VisualSearchNoGaze.DefaultFrames | src/modules/VisualSearch_nogaze.py:170-211 | at the default 60 Hz every image stays up 360 frames and the cursor fades in over 6 |
| VisualSearchNoGaze.FrameCounts | src/modules/VisualSearch_nogaze.py:265-281 | frame 0 shows the cursor and fades it in; every other frame re-creates it; each sleeps one frame more |
| VisualSearchNoGaze.LoopCounts | src/modules/VisualSearch_nogaze.py:265-283 | the loop runs all of its `k` frames: one `showCursor`, `k - 1` `updateCursor`, `k + fadeFrames` sleeps, no `removeCursor`, nothing else |
| VisualSearchNoGaze.LoopPrefix | src/modules/VisualSearch_nogaze.py:265-281 | the frames run in order: the first `f` frames' calls and then frame `f`'s are a prefix of the loop's calls |
| VisualSearchNoGaze.TrialWritesRecord | src/modules/VisualSearch_nogaze.py:230 | every trial writes its record, even one that then stops, and only adds engine calls |
| VisualSearchNoGaze.NoTargetExactly | src/modules/VisualSearch_nogaze.py:233-242 | a trial stops for want of a target exactly when none was chosen before and the image has no tag; an untagged image keeps the previous target |
| VisualSearchNoGaze.CompletedTrial | src/modules/VisualSearch_nogaze.py:246-285 | a completed trial's calls are the pause, the presentation, the full `visualsearchframes`-frame cursor loop, one `removeCursor` and the blank pause. The cursor exists and is back at the origin |
| VisualSearchNoGaze.NoCursorExactly | src/modules/VisualSearch_nogaze.py:265-283 | a trial that reaches its image fails at `removeCursor` exactly when the loop has no frames and no earlier trial created a cursor |
| VisualSearchNoGaze.ShownStays | src/modules/VisualSearch_nogaze.py:264-283 | once a cursor object exists it stays, and no later trial fails for want of one |
| VisualSearchNoGaze.BlockStopped | src/modules/VisualSearch_nogaze.py:215-216 | after an exception, no further trial of the block runs |
| VisualSearchNoGaze.BlockStopsAt | src/modules/VisualSearch_nogaze.py:215-216 | once a trial has stopped the session, the rest of the block leaves it unchanged |
| VisualSearchNoGaze.StoppedSessionStays | src/modules/VisualSearch_nogaze.py:215-216 | a session that stops within a block runs no later block |
| VisualSearchNoGaze.Experiment.constructor | src/modules/VisualSearch_nogaze.py:95-97 | the cursor position starts at the origin with no cursor object, nothing shown or logged |
| VisualSearchNoGaze.Experiment.SetSubject | src/modules/VisualSearch_nogaze.py:318-322 | the typed ID becomes the subject |
| VisualSearchNoGaze.Experiment.OpenLog | src/modules/VisualSearch_nogaze.py:198-203 | the log file is named by `LogPath` and holds exactly the header line |
| VisualSearchNoGaze.Experiment.Log | src/modules/VisualSearch_nogaze.py:383-387 | with logging on, exactly one `"\n"`-led record is appended; otherwise the log is unchanged |
| VisualSearchNoGaze.Experiment.Photomarker | src/modules/VisualSearch_nogaze.py:357-380 | the calls made and the failure are those of `photomarker` with the configured position |
| VisualSearchNoGaze.Experiment.ShowCursor | src/modules/VisualSearch_nogaze.py:135-145 | a cursor object now exists; it appears at `cursorPos`, then one sleep per fade frame |
| VisualSearchNoGaze.Experiment.CursorLoop | src/modules/VisualSearch_nogaze.py:265-281 | the frame loop makes exactly the calls of `LoopEvents`; a cursor exists afterwards exactly when one did before or the loop ran |
| VisualSearchNoGaze.Experiment.RemoveCursor | src/modules/VisualSearch_nogaze.py:156-158 | the cursor is destroyed if it exists; otherwise the call fails and nothing is drawn |
| VisualSearchNoGaze.Experiment.Break | src/modules/VisualSearch_nogaze.py:218-221 | the press-space wait and the one-second sleep come exactly before the trials with `trial % ntrialperblock == 0` |
| VisualSearchNoGaze.Experiment.Prepare | src/modules/VisualSearch_nogaze.py:218-240 | pause, exactly one record, and the `TargetFor` choice |
| VisualSearchNoGaze.Experiment.Present | src/modules/VisualSearch_nogaze.py:246-260 | fails exactly for a non-corner position, after the crosshair and the first marker; otherwise makes the whole presentation and shows the image |
| VisualSearchNoGaze.Experiment.Search | src/modules/VisualSearch_nogaze.py:262-285 | the loop's calls, then, if a cursor exists, its removal, the blank pause and the reset to the origin; the search fails exactly when no cursor was ever made |
| VisualSearchNoGaze.Experiment.Trial | src/modules/VisualSearch_nogaze.py:218-285 | one pass of the loop body is `TrialStep`, and appends exactly the trial's record to the log |
| VisualSearchNoGaze.Experiment.RunBlock | src/modules/VisualSearch_nogaze.py:216-285 | the inner loop is `BlockUpTo` over all `trials`; if no trial stops, the log grows by every trial's record in order |
| VisualSearchNoGaze.Experiment.RunBlocks | src/modules/VisualSearch_nogaze.py:215-285 | the nested loops are `Blocks` over all blocks; if nothing stops, the log grows by every record of the session |
| VisualSearchNoGaze.Experiment.Run | src/modules/VisualSearch_nogaze.py:161-292 | `run` is the reference `Session`, followed by the end text unless a trial stopped it. With logging on, the subject and log path are set, and a completed log is the header plus every trial's record |

`instruct` and `alignVertical` are the same in `src/modules/VisualSearch.py:428-458` and `src/modules/VisualSearch_nogaze.py:325-354` as in the template. `BaseModule.Instruct` and `BaseModule.AlignOffset` model them for all three modules.

## Left out

- Lab Streaming Layer I/O (`resolve_stream`, `StreamInlet`, `pull_chunk`). The chunks each frame receives are an input (`Inputs.stream`), given per block, trial and frame. `inlet.flush()` appears as a `Flush` event; its effect on later chunks is part of that input.
- Panda3D and SNAP engine calls appear only as `Event`s. Positions of the circle cue, durations, colours, scales and text styling are dropped. `crossOn`/`crossOff` and `circleOn`/`circleOff`, fades included, are one `Cross` or `Circle` event each. Their per-frame sleeps are not counted.
- Fade animations: the alpha values are not modelled. `showCursor` keeps one sleep per fade frame.
- Randomness: the shuffled image order is an input; `uniform` timings are dropped.
- File and image I/O:
  - the log file is a string (`logText`, `files`);
  - `os.path.join` is modelled with POSIX separators only (`PathJoin`); the Windows `\` separator and drive letters are not;
  - image sizes and mask arrays are inputs keyed by path, and a missing key is the error `open` raises;
  - in debug mode the mask's `picture` call is recorded before `MissingMask` stops the session, so the engine's own failure to load a missing mask file is not distinguished;
  - a mask is a 2-D integer array (an RGB mask file, giving a 3-D array, is not modelled).
- The clock: `time()` and the opening time are inputs.
- IEEE floating point: coordinates are exact reals, so rounding, NaN and `int(NaN)` raising are not modelled.
- `simple_almost_equal`'s only caller prints a warning. The warning and all other `print` output are left out.
- Also left out:
  - the escape key and `exit`;
  - `setSubject`'s widget teardown and the subject prompt's wait for Enter;
  - the empty `instruction` branch;
  - `show_feedback`, which nothing calls;
  - the template's placeholder `instruct` calls in `BaseModule.run`.
- `src/modules/Rest.py` is not part of this model.
- VisualSearch.FrameTrace: its own contract states only the length (three calls per frame). `FrameTraceAt` states the calls of each frame.
