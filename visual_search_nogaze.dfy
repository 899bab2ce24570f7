/** The visual-search module without gaze input: the same trials as the
    gaze module (pause, log record, target, image), but the image stays up
    for a fixed number of frames while a cursor is shown at a fixed
    position; nothing can end the search early. */
module VisualSearchNoGaze {
  import opened Optional
  import opened Strings
  import opened Numbers
  import opened BaseModule
  import opened SearchTrials

  // ---------------------------------------------------------------------
  // Settings and inputs
  // ---------------------------------------------------------------------

  /** The attributes `__init__` sets that the session depends on. */
  datatype Settings = Settings(blocks: nat, framerate: real, maxtime: real, fadeTime: real,
                               markerPosition: string, markerScale: real, logging: bool)

  /** Settings the module can start with: at least one block, and rates
      and durations that are not negative. */
  type Config = c: Settings | c.blocks > 0 && c.framerate >= 0.0 && c.maxtime >= 0.0 && c.fadeTime >= 0.0
    witness Settings(12, 60.0, 6.0, 0.1, "lr", 0.1, true)

  /** The values `__init__` assigns. */
  const Defaults: Config := Settings(12, 60.0, 6.0, 0.1, "lr", 0.1, true)

  /** `visualsearchframes`: the frames every image stays up. */
  function SearchFrames(c: Config): nat
  {
    Frames(c.framerate, c.maxtime)
  }

  /** `fadeFrames`: the frames the cursor takes to fade in. */
  function FadeFrames(c: Config): nat
  {
    Frames(c.framerate, c.fadeTime)
  }

  /** At 60 Hz every image stays up for 360 frames and the cursor fades in
      over 6. */
  lemma DefaultFrames()
    ensures SearchFrames(Defaults) == 360 && FadeFrames(Defaults) == 6
  {
    assert Defaults.framerate * Defaults.maxtime == 360.0;
    assert Defaults.framerate * Defaults.fadeTime == 6.0;
  }

  /** What the session reads from outside: the participant ID typed at the
      prompt, the opening time in milliseconds, the shuffled image names
      and the wall clock at each trial's log record. */
  datatype Inputs = Inputs(subject: string, openTime: string, images: seq<string>,
                           clock: (nat, nat) -> string)

  // ---------------------------------------------------------------------
  // The cursor loop
  // ---------------------------------------------------------------------

  /** The engine calls of frame `f` of the loop: the cursor is shown (and
      fades in) at the first frame and re-created at every later one; each
      frame ends with a one-frame sleep. */
  function FrameEvents(f: nat, at: Pos3, fadeFrames: nat): seq<Event>
  {
    (if f == 0 then [ShowCursor(at)] + Sleeps(fadeFrames) else [UpdateCursor(at)]) + [Sleep]
  }

  /** The engine calls of frames `0 .. k - 1`. */
  function LoopEvents(k: nat, at: Pos3, fadeFrames: nat): seq<Event>
  {
    if k == 0 then [] else LoopEvents(k - 1, at, fadeFrames) + FrameEvents(k - 1, at, fadeFrames)
  }

  /** One frame's calls: the first frame shows the cursor and fades it in,
      every other frame re-creates it; each sleeps once more. */
  lemma FrameCounts(f: nat, at: Pos3, fadeFrames: nat)
    ensures var m := multiset(FrameEvents(f, at, fadeFrames));
      m[ShowCursor(at)] == (if f == 0 then 1 else 0) &&
      m[UpdateCursor(at)] == (if f == 0 then 0 else 1) &&
      m[Sleep] == (if f == 0 then fadeFrames + 1 else 1) &&
      m[RemoveCursor] == 0 && |m| == (if f == 0 then fadeFrames + 2 else 2)
  {
    SleepsMultiset(fadeFrames);
  }

  /** The loop runs every one of its frames: one cursor appearance at the
      start, a re-creation at each of the other frames, one sleep per frame
      besides the fade-in, and nothing that removes the cursor. */
  lemma {:induction false} LoopCounts(k: nat, at: Pos3, fadeFrames: nat)
    ensures var m := multiset(LoopEvents(k, at, fadeFrames));
      m[ShowCursor(at)] == (if k > 0 then 1 else 0) &&
      m[UpdateCursor(at)] == (if k > 0 then k - 1 else 0) &&
      m[Sleep] == (if k > 0 then k + fadeFrames else 0) &&
      m[RemoveCursor] == 0 && |m| == (if k > 0 then 2 * k + fadeFrames else 0)
  {
    if k > 0 {
      LoopCounts(k - 1, at, fadeFrames);
      FrameCounts(k - 1, at, fadeFrames);
      var a, b := LoopEvents(k - 1, at, fadeFrames), FrameEvents(k - 1, at, fadeFrames);
      assert multiset(a + b) == multiset(a) + multiset(b);
    }
  }

  /** A run of sleeps holds nothing but sleeps. */
  lemma {:induction false} SleepsMultiset(k: nat)
    ensures multiset(Sleeps(k)) == multiset{}[Sleep := k]
  {
    if k > 0 {
      SleepsMultiset(k - 1);
      assert Sleeps(k) == Sleeps(k - 1) + [Sleep];
    } else {
      assert Sleeps(0) == [];
    }
  }

  /** The frames run in order: the calls of the first `f` frames are a
      prefix of the loop's calls, followed by frame `f`'s. */
  lemma {:induction false} LoopPrefix(f: nat, k: nat, at: Pos3, fadeFrames: nat)
    requires f < k
    ensures LoopEvents(f, at, fadeFrames) + FrameEvents(f, at, fadeFrames) <= LoopEvents(k, at, fadeFrames)
    decreases k - f
  {
    if f < k - 1 {
      LoopPrefix(f, k - 1, at, fadeFrames);
    }
  }

  // ---------------------------------------------------------------------
  // One trial and the whole session
  // ---------------------------------------------------------------------

  /** Why a session stops early: no target could be chosen yet (the target
      variable is unbound), a photomarker position code is unknown, or the
      cursor is removed before any was ever created (a search of zero
      frames in the first trial that gets that far). */
  datatype Stop = NoTarget | MarkerFault | NoCursor

  /** What the session has changed so far: the engine calls, the log
      file's text, the target chosen last, whether a cursor object exists,
      and the cursor position. */
  datatype Snapshot = Snapshot(trace: seq<Event>, log: string, target: Option<nat>, shown: bool, cursor: Pos3)

  /** A snapshot after some work, and whether that work ended the session. */
  datatype Step = Step(after: Snapshot, stop: Option<Stop>)

  /** A target index names one of the four characters. */
  predicate TargetValid(s: Snapshot)
  {
    s.target.Some? ==> s.target.value < 4
  }

  /** The trial's record, as the log file receives it. */
  function TrialRecord(c: Config, inp: Inputs, block: nat, trial: nat): string
    requires trial < |inp.images|
  {
    TrialLine(c.logging, inp.subject, inp.clock(block, trial), block, trial, inp.images[trial])
  }

  /** What the target's presentation and the image add to the trace: the
      crosshair, the "target" marker, the character's picture, the
      crosshair again, the "image" marker and the image. */
  function Presentation(c: Config, ar: real, target: nat, image: string): seq<Event>
    requires target < 4 && IsCorner(c.markerPosition)
  {
    [Cross] + Photomarker("target", None, c.markerPosition, ar, c.markerScale).events +
    [Picture(WaldoTargets[target]), Cross] +
    Photomarker("image", None, c.markerPosition, ar, c.markerScale).events +
    [Picture(ImagePath + image)]
  }

  /** Reference definition of one trial: the pause where a block of images
      starts, the log record, the target's choice, its presentation, the
      image with its cursor loop, and the cursor's removal. */
  function TrialStep(c: Config, ar: real, inp: Inputs, s: Snapshot, block: nat, trial: nat): (st: Step)
    requires trial < TrialCount(|inp.images|, c.blocks) && TargetValid(s)
    ensures TargetValid(st.after)
  {
    var s1 := s.(trace := s.trace + PauseEvents(trial, TrialsPerBlock(|inp.images|, c.blocks)),
                 log := s.log + TrialRecord(c, inp, block, trial),
                 target := TargetFor(inp.images[trial], s.target));
    if s1.target.None? then Step(s1, Some(NoTarget))
    else if !IsCorner(c.markerPosition) then
      Step(s1.(trace := s1.trace + [Cross, Marker("target")]), Some(MarkerFault))
    else
      var frames := SearchFrames(c);
      var t := s1.trace + Presentation(c, ar, s1.target.value, inp.images[trial])
               + LoopEvents(frames, s.cursor, FadeFrames(c));
      var shown := s.shown || frames > 0;
      if !shown then Step(s1.(trace := t), Some(NoCursor))
      else Step(s1.(trace := t + [RemoveCursor, Sleep], shown := true, cursor := Origin), None)
  }

  /** A snapshot, and whether the session has stopped. */
  datatype Stage = Stage(snap: Snapshot, stop: Option<Stop>)

  /** One trial more, unless the session has already stopped. */
  function Advance(c: Config, ar: real, inp: Inputs, g: Stage, block: nat, trial: nat): (g': Stage)
    requires trial < TrialCount(|inp.images|, c.blocks) && TargetValid(g.snap)
    ensures TargetValid(g'.snap)
  {
    if g.stop.Some? then g
    else
      var st := TrialStep(c, ar, inp, g.snap, block, trial);
      Stage(st.after, st.stop)
  }

  /** Trials `0 .. t - 1` of block `block`, from stage `g`. */
  function BlockUpTo(c: Config, ar: real, inp: Inputs, g: Stage, block: nat, t: nat): (g': Stage)
    requires t <= TrialCount(|inp.images|, c.blocks) && TargetValid(g.snap)
    ensures TargetValid(g'.snap)
  {
    if t == 0 then g
    else Advance(c, ar, inp, BlockUpTo(c, ar, inp, g, block, t - 1), block, t - 1)
  }

  /** Blocks `0 .. b - 1`, every one of them running all trials, from stage `g`. */
  function Blocks(c: Config, ar: real, inp: Inputs, g: Stage, b: nat): (g': Stage)
    requires TargetValid(g.snap)
    ensures TargetValid(g'.snap)
  {
    if b == 0 then g
    else BlockUpTo(c, ar, inp, Blocks(c, ar, inp, g, b - 1), b - 1, TrialCount(|inp.images|, c.blocks))
  }

  /** The stage before the first trial: the log file holds its header if
      logging is on, no target is chosen and no cursor exists yet. */
  function Start(c: Config, trace: seq<Event>, log: string): Stage
  {
    Stage(Snapshot(trace, if c.logging then LogHeader else log, None, false, Origin), None)
  }

  /** Reference definition of the whole session's trials. */
  function Session(c: Config, ar: real, inp: Inputs, trace: seq<Event>, log: string): Stage
  {
    Blocks(c, ar, inp, Start(c, trace, log), c.blocks)
  }

  // ---------------------------------------------------------------------
  // Properties of a trial and of the session
  // ---------------------------------------------------------------------

  /** Every trial writes its record, even one that then stops the session,
      and only adds engine calls to the trace. */
  lemma TrialWritesRecord(c: Config, ar: real, inp: Inputs, s: Snapshot, block: nat, trial: nat)
    requires trial < TrialCount(|inp.images|, c.blocks) && TargetValid(s)
    ensures var st := TrialStep(c, ar, inp, s, block, trial);
      st.after.log == s.log + TrialRecord(c, inp, block, trial) && s.trace <= st.after.trace
  {
  }

  /** A trial stops for want of a target exactly when no target was chosen
      before and the image's name carries none of the four tags; a trial
      without a tag otherwise shows the previous trial's target. */
  lemma NoTargetExactly(c: Config, ar: real, inp: Inputs, s: Snapshot, block: nat, trial: nat)
    requires trial < TrialCount(|inp.images|, c.blocks) && TargetValid(s)
    ensures TrialStep(c, ar, inp, s, block, trial).stop == Some(NoTarget) <==>
      s.target.None? && forall i :: 0 <= i < 4 ==> !Contains(inp.images[trial], TargetTag(i))
    ensures (forall i :: 0 <= i < 4 ==> !Contains(inp.images[trial], TargetTag(i))) ==>
      TrialStep(c, ar, inp, s, block, trial).after.target == s.target
  {
    TargetIsLastMatch(inp.images[trial], s.target, 0);
  }

  /** A trial that runs to its end shows the image for exactly
      `visualsearchframes` frames (the cursor loop has no way out), then
      removes the cursor once, sleeps once more and puts the cursor back
      at the origin. */
  lemma CompletedTrial(c: Config, ar: real, inp: Inputs, s: Snapshot, block: nat, trial: nat)
    requires trial < TrialCount(|inp.images|, c.blocks) && TargetValid(s)
    requires TrialStep(c, ar, inp, s, block, trial).stop.None?
    ensures var st := TrialStep(c, ar, inp, s, block, trial);
      var target := TargetFor(inp.images[trial], s.target);
      target.Some? && IsCorner(c.markerPosition) && st.after.target == target &&
      st.after.trace == s.trace + PauseEvents(trial, TrialsPerBlock(|inp.images|, c.blocks))
        + Presentation(c, ar, target.value, inp.images[trial])
        + LoopEvents(SearchFrames(c), s.cursor, FadeFrames(c)) + [RemoveCursor, Sleep] &&
      st.after.shown && st.after.cursor == Origin
  {
  }

  /** A trial that gets to its image stops for want of a cursor exactly
      when the search has no frames and no earlier trial created one. */
  lemma NoCursorExactly(c: Config, ar: real, inp: Inputs, s: Snapshot, block: nat, trial: nat)
    requires trial < TrialCount(|inp.images|, c.blocks) && TargetValid(s)
    requires TargetFor(inp.images[trial], s.target).Some? && IsCorner(c.markerPosition)
    ensures TrialStep(c, ar, inp, s, block, trial).stop == Some(NoCursor) <==> !s.shown && SearchFrames(c) == 0
    ensures TrialStep(c, ar, inp, s, block, trial).stop != Some(MarkerFault)
  {
  }

  /** Once a cursor has been created it stays: later trials with zero
      frames remove the old object again and never stop for want of one. */
  lemma ShownStays(c: Config, ar: real, inp: Inputs, s: Snapshot, block: nat, trial: nat)
    requires trial < TrialCount(|inp.images|, c.blocks) && TargetValid(s) && s.shown
    ensures TrialStep(c, ar, inp, s, block, trial).stop != Some(NoCursor)
    ensures TrialStep(c, ar, inp, s, block, trial).after.shown
  {
  }

  /** A stopped session stays as it is for the rest of a block. */
  lemma {:induction false} BlockStopped(c: Config, ar: real, inp: Inputs, g: Stage, block: nat, t: nat)
    requires t <= TrialCount(|inp.images|, c.blocks) && TargetValid(g.snap) && g.stop.Some?
    ensures BlockUpTo(c, ar, inp, g, block, t) == g
  {
    if t > 0 {
      BlockStopped(c, ar, inp, g, block, t - 1);
    }
  }

  /** Once a trial has stopped the session, the rest of its block leaves
      the stage unchanged. */
  lemma {:induction false} BlockStopsAt(c: Config, ar: real, inp: Inputs, g: Stage, block: nat, t: nat, t': nat)
    requires t <= t' <= TrialCount(|inp.images|, c.blocks) && TargetValid(g.snap)
    requires BlockUpTo(c, ar, inp, g, block, t).stop.Some?
    ensures BlockUpTo(c, ar, inp, g, block, t') == BlockUpTo(c, ar, inp, g, block, t)
    decreases t' - t
  {
    if t < t' {
      BlockStopsAt(c, ar, inp, g, block, t, t' - 1);
    }
  }

  /** A session that stops within block `block` ends with that block. */
  lemma StoppedSessionStays(c: Config, ar: real, inp: Inputs, g: Stage, block: nat)
    requires block < c.blocks && TargetValid(g.snap)
    requires Blocks(c, ar, inp, g, block + 1).stop.Some?
    ensures Blocks(c, ar, inp, g, c.blocks) == Blocks(c, ar, inp, g, block + 1)
  {
    var x := Blocks(c, ar, inp, g, block + 1);
    var b := block + 1;
    while b < c.blocks
      invariant block + 1 <= b <= c.blocks
      invariant Blocks(c, ar, inp, g, b) == x
    {
      BlockStopped(c, ar, inp, x, b, TrialCount(|inp.images|, c.blocks));
      b := b + 1;
    }
  }

  /** The records of trials `0 .. t - 1` of block `block`. */
  function BlockRecords(c: Config, inp: Inputs, block: nat, t: nat): string
    requires t <= TrialCount(|inp.images|, c.blocks)
  {
    if t == 0 then "" else BlockRecords(c, inp, block, t - 1) + TrialRecord(c, inp, block, t - 1)
  }

  /** The records of every trial of blocks `0 .. b - 1`. */
  function SessionRecords(c: Config, inp: Inputs, b: nat): string
  {
    if b == 0 then "" else SessionRecords(c, inp, b - 1) + BlockRecords(c, inp, b - 1, TrialCount(|inp.images|, c.blocks))
  }

  /** One more trial's record extends the block's records. */
  lemma BlockRecordsStep(c: Config, inp: Inputs, block: nat, t: nat, before: string)
    requires t < TrialCount(|inp.images|, c.blocks)
    ensures before + BlockRecords(c, inp, block, t) + TrialRecord(c, inp, block, t)
      == before + BlockRecords(c, inp, block, t + 1)
  {
    var b, r := BlockRecords(c, inp, block, t), TrialRecord(c, inp, block, t);
    assert before + b + r == before + (b + r);
  }

  /** One more block's records extend the session's records. */
  lemma SessionRecordsStep(c: Config, inp: Inputs, b: nat, before: string)
    ensures before + SessionRecords(c, inp, b) + BlockRecords(c, inp, b, TrialCount(|inp.images|, c.blocks))
      == before + SessionRecords(c, inp, b + 1)
  {
    var x, y := SessionRecords(c, inp, b), BlockRecords(c, inp, b, TrialCount(|inp.images|, c.blocks));
    assert before + x + y == before + (x + y);
  }

  // ---------------------------------------------------------------------
  // The module's state
  // ---------------------------------------------------------------------

  /** The module's state that `run` changes: where the cursor is drawn,
      whether a cursor object exists, the engine calls made so far, the
      subject, and the log file. */
  class Experiment {
    const settings: Config
    const ar: real
    const fadeFrames: nat := FadeFrames(settings)
    var cursorPos: Pos3
    var cursorShown: bool
    var trace: seq<Event>
    var subject: Option<string>
    var logFile: Option<string>
    var logText: string

    /** A fresh module: the cursor position at the origin, no cursor
        object, nothing shown or logged yet. */
    constructor (settings: Config, ar: real)
      ensures this.settings == settings && this.ar == ar
      ensures cursorPos == Origin && !cursorShown && trace == [] && subject == None && logFile == None && logText == ""
    {
      this.settings := settings;
      this.ar := ar;
      cursorPos := Origin;
      cursorShown := false;
      trace := [];
      subject := None;
      logFile := None;
      logText := "";
    }

    /** The state the session's reference definition speaks of. */
    function Snap(target: Option<nat>): Snapshot
      reads this
    {
      Snapshot(trace, logText, target, cursorShown, cursorPos)
    }

    /** `setSubject`: the entry widget's callback stores the typed ID. */
    method SetSubject(s: string)
      modifies this`subject
      ensures subject == Some(s)
    {
      subject := Some(s);
    }

    /** Creating the log file: named after the module, the opening time
        and the subject, and holding the header line only. */
    method OpenLog(openTime: string)
      requires subject.Some?
      modifies this`logFile, this`logText
      ensures logFile == Some(LogPath(openTime, subject.value)) && logText == LogHeader
    {
      logFile := Some(LogPath(openTime, subject.value));
      logText := LogHeader;
    }

    /** `log(*args)`: with logging on, one record is appended to the log
        file; with logging off nothing is written. */
    method Log(timestamp: string, args: seq<string>)
      requires settings.logging ==> subject.Some?
      modifies this`logText
      ensures logText == old(logText) + (if settings.logging then SearchTrials.LogLine(subject.value, timestamp, args) else "")
    {
      if settings.logging {
        logText := logText + SearchTrials.LogLine(subject.value, timestamp, args);
      }
    }

    /** `photomarker(marker)`: the marker is sent, then the flash for the
        configured corner is drawn; `failed` reports that `rect` was
        unbound because the position code is unknown. */
    method Photomarker(marker: string) returns (failed: bool)
      modifies this`trace
      ensures var f := BaseModule.Photomarker(marker, None, settings.markerPosition, ar, settings.markerScale);
        trace == old(trace) + f.events && failed == f.failed
    {
      trace := trace + [Marker(marker)];
      var rect := PhotomarkerRect(settings.markerPosition, ar, settings.markerScale);
      failed := rect.None?;
      if !failed {
        trace := trace + [Rectangle(rect.value)];
      }
    }

    /** `showCursor`: a cursor object is created at `cursorPos` and fades
        in over `fadeFrames` frames, sleeping one frame each. */
    method ShowCursor()
      modifies this`trace, this`cursorShown
      ensures cursorShown
      ensures trace == old(trace) + [Event.ShowCursor(cursorPos)] + Sleeps(fadeFrames)
    {
      trace := trace + [Event.ShowCursor(cursorPos)];
      cursorShown := true;
      ghost var shown := trace;
      for i := 0 to fadeFrames
        invariant cursorShown
        invariant trace == shown + Sleeps(i)
      {
        trace := trace + [Sleep];
        assert Sleeps(i) + [Sleep] == Sleeps(i + 1);
      }
    }

    /** The search's frame loop: `frames` frames, the cursor shown at the
        first and re-created at every other, one frame's sleep each. */
    method CursorLoop(frames: nat)
      modifies this`trace, this`cursorShown
      ensures cursorShown == (old(cursorShown) || frames > 0)
      ensures trace == old(trace) + LoopEvents(frames, cursorPos, fadeFrames)
    {
      for f := 0 to frames
        invariant cursorShown == (old(cursorShown) || f > 0)
        invariant trace == old(trace) + LoopEvents(f, cursorPos, fadeFrames)
      {
        if f == 0 {
          ShowCursor();
        } else {
          trace := trace + [UpdateCursor(cursorPos)];
        }
        trace := trace + [Sleep];
      }
    }

    /** `removeCursor`: the cursor object is destroyed; without one the
        attribute lookup fails and `failed` says so. */
    method RemoveCursor() returns (failed: bool)
      modifies this`trace
      ensures failed == !cursorShown
      ensures trace == old(trace) + (if cursorShown then [Event.RemoveCursor] else [])
    {
      failed := !cursorShown;
      if !failed {
        trace := trace + [Event.RemoveCursor];
      } else {
        assert trace + [] == trace;
      }
    }

    /** The self-paced break where a block of images starts. */
    method Break(trial: nat, perBlock: nat)
      requires perBlock > 0
      modifies this`trace
      ensures trace == old(trace) + PauseEvents(trial, perBlock)
    {
      if trial % perBlock == 0 {
        trace := trace + [WaitForUser, Sleep];
      } else {
        assert trace + [] == trace;
      }
    }

    /** The start of the trial loop's body: the break at a block's first
        image, the log record and the target's choice. */
    method Prepare(inp: Inputs, block: nat, trial: nat, target: Option<nat>)
      returns (chosen: Option<nat>)
      requires trial < TrialCount(|inp.images|, settings.blocks)
      requires settings.logging ==> subject == Some(inp.subject)
      modifies this`trace, this`logText
      ensures trace == old(trace) + PauseEvents(trial, TrialsPerBlock(|inp.images|, settings.blocks))
      ensures logText == old(logText) + TrialRecord(settings, inp, block, trial)
      ensures chosen == TargetFor(inp.images[trial], target)
    {
      Break(trial, TrialsPerBlock(|inp.images|, settings.blocks));
      var image := inp.images[trial];
      Log(inp.clock(block, trial), TrialLogArgs(block, trial, image));
      chosen := ChooseTarget(image, target);
    }

    /** The target's presentation and the image: crosshair, "target"
        marker, the character, crosshair, "image" marker, the image. An
        unknown position code stops at the first marker. */
    method Present(target: nat, image: string) returns (failed: bool)
      requires target < 4
      modifies this`trace
      ensures failed == !IsCorner(settings.markerPosition)
      ensures failed ==> trace == old(trace) + [Cross, Marker("target")]
      ensures !failed ==> trace == old(trace) + Presentation(settings, ar, target, image)
    {
      trace := trace + [Cross];
      failed := Photomarker("target");
      if failed {
        return;
      }
      trace := trace + [Picture(WaldoTargets[target]), Cross];
      var second := Photomarker("image");
      trace := trace + [Picture(ImagePath + image)];
    }

    /** The search: the cursor loop, then the cursor's removal, the blank
        pause and the reset of the cursor position; `failed` when there was
        no cursor object to remove. */
    method Search() returns (failed: bool)
      modifies this`trace, this`cursorPos, this`cursorShown
      ensures var t := old(trace) + LoopEvents(SearchFrames(settings), old(cursorPos), fadeFrames);
        failed == !(old(cursorShown) || SearchFrames(settings) > 0) &&
        cursorShown == !failed &&
        (failed ==> trace == t && cursorPos == old(cursorPos)) &&
        (!failed ==> trace == t + [Event.RemoveCursor, Sleep] && cursorPos == Origin)
    {
      CursorLoop(SearchFrames(settings));
      failed := RemoveCursor();
      if failed {
        return;
      }
      trace := trace + [Sleep];
      cursorPos := Origin;
    }

    /** One pass of the trial loop's body. */
    method Trial(inp: Inputs, block: nat, trial: nat, target: Option<nat>)
      returns (chosen: Option<nat>, stop: Option<Stop>)
      requires trial < TrialCount(|inp.images|, settings.blocks) && (target.Some? ==> target.value < 4)
      requires settings.logging ==> subject == Some(inp.subject)
      modifies this`trace, this`cursorPos, this`cursorShown, this`logText
      ensures TrialStep(settings, ar, inp, old(Snap(target)), block, trial) == Step(Snap(chosen), stop)
      ensures logText == old(logText) + TrialRecord(settings, inp, block, trial)
    {
      chosen := Prepare(inp, block, trial, target);
      if chosen.None? {
        return chosen, Some(NoTarget);
      }
      var failed := Present(chosen.value, inp.images[trial]);
      if failed {
        return chosen, Some(MarkerFault);
      }
      failed := Search();
      stop := if failed then Some(NoCursor) else None;
    }

    /** One block: every trial in turn, until one stops the run. */
    method RunBlock(inp: Inputs, block: nat, target: Option<nat>, ghost before: Stage)
      returns (chosen: Option<nat>, stop: Option<Stop>)
      requires before == Stage(Snap(target), None) && TargetValid(before.snap)
      requires settings.logging ==> subject == Some(inp.subject)
      modifies this`trace, this`cursorPos, this`cursorShown, this`logText
      ensures BlockUpTo(settings, ar, inp, before, block, TrialCount(|inp.images|, settings.blocks))
        == Stage(Snap(chosen), stop)
      ensures stop.None? ==>
        logText == old(logText) + BlockRecords(settings, inp, block, TrialCount(|inp.images|, settings.blocks))
    {
      chosen := target;
      var trials := TrialCount(|inp.images|, settings.blocks);
      for trial := 0 to trials
        invariant BlockUpTo(settings, ar, inp, before, block, trial) == Stage(Snap(chosen), None)
        invariant logText == old(logText) + BlockRecords(settings, inp, block, trial)
      {
        chosen, stop := Trial(inp, block, trial, chosen);
        BlockRecordsStep(settings, inp, block, trial, old(logText));
        if stop.Some? {
          BlockStopsAt(settings, ar, inp, before, block, trial + 1, trials);
          return;
        }
      }
      stop := None;
    }

    /** Every block in turn, until a trial stops the run. */
    method RunBlocks(inp: Inputs, ghost g0: Stage) returns (stop: Option<Stop>)
      requires g0 == Stage(Snap(None), None)
      requires settings.logging ==> subject == Some(inp.subject)
      modifies this`trace, this`cursorPos, this`cursorShown, this`logText
      ensures var g := Blocks(settings, ar, inp, g0, settings.blocks);
        stop == g.stop && trace == g.snap.trace && logText == g.snap.log &&
        cursorShown == g.snap.shown && cursorPos == g.snap.cursor
      ensures stop.None? ==> logText == old(logText) + SessionRecords(settings, inp, settings.blocks)
    {
      var target: Option<nat> := None;
      for block := 0 to settings.blocks
        invariant Blocks(settings, ar, inp, g0, block) == Stage(Snap(target), None)
        invariant logText == old(logText) + SessionRecords(settings, inp, block)
      {
        target, stop := RunBlock(inp, block, target, Blocks(settings, ar, inp, g0, block));
        SessionRecordsStep(settings, inp, block, old(logText));
        if stop.Some? {
          StoppedSessionStays(settings, ar, inp, g0, block);
          return;
        }
      }
      stop := None;
    }

    /** `run`: with logging on, the subject is entered and the log file
        created; every block runs every trial; the closing text follows
        unless a trial stopped the run. */
    method Run(inp: Inputs) returns (stop: Option<Stop>)
      requires cursorPos == Origin && !cursorShown
      modifies this`trace, this`cursorPos, this`cursorShown, this`subject, this`logFile, this`logText
      ensures var g := Session(settings, ar, inp, old(trace), old(logText));
        stop == g.stop && logText == g.snap.log && cursorShown == g.snap.shown &&
        trace == g.snap.trace + (if stop.None? then [Message(EndText)] else [])
      ensures settings.logging && stop.None? ==> logText == LogHeader + SessionRecords(settings, inp, settings.blocks)
      ensures settings.logging ==> subject == Some(inp.subject) && logFile == Some(LogPath(inp.openTime, inp.subject))
      ensures !settings.logging ==> subject == old(subject) && logFile == old(logFile)
    {
      if settings.logging {
        SetSubject(inp.subject);
        OpenLog(inp.openTime);
      }
      stop := RunBlocks(inp, Stage(Snap(None), None));
      if stop.None? {
        trace := trace + [Message(EndText)];
      }
    }
  }
}
