/** The `run` method of the visual-search module with gaze input, as a
    whole session: the log file is created, the dwell window is made once,
    and then every block runs every trial: a pause where a block of
    images starts, the log record, the target's choice, its presentation,
    the image and, last, the gaze search. An exception in any trial ends
    the session there. */
module VisualSearchSession {
  import opened Optional
  import opened Numbers
  import opened Strings
  import opened BaseModule
  import opened DwellWindow
  import opened SearchTrials
  import opened VisualSearch

  // ---------------------------------------------------------------------
  // Settings and inputs
  // ---------------------------------------------------------------------

  /** The attributes `__init__` sets that the session depends on. */
  datatype Settings = Settings(blocks: nat, framerate: real, maxtime: real, fixationtime: real,
                               fadeTime: real, markerPosition: string, markerScale: real,
                               logging: bool, debug: bool)

  /** Settings the module can start with: at least one block (a remainder
      of images is dropped by the floor in `TrialsPerBlock`), and rates
      and durations that are not negative. */
  type Config = c: Settings | c.blocks > 0 && c.framerate >= 0.0 && c.maxtime >= 0.0 &&
    c.fixationtime >= 0.0 && c.fadeTime >= 0.0
    witness Settings(12, 600.0, 6.0, 1.0, 0.1, "lr", 0.1, true, true)

  /** The values `__init__` assigns. */
  const Defaults: Config := Settings(12, 600.0, 6.0, 1.0, 0.1, "lr", 0.1, true, true)

  /** `visualsearchframes`: the most frames one search runs. */
  function SearchFrames(c: Config): nat
  {
    Frames(c.framerate, c.maxtime)
  }

  /** `fixationframes`: the dwell window's capacity. */
  function FixationFrames(c: Config): nat
  {
    Frames(c.framerate, c.fixationtime)
  }

  /** `fadeFrames`: the frames the cursor takes to fade in. */
  function FadeFrames(c: Config): nat
  {
    Frames(c.framerate, c.fadeTime)
  }

  /** At 600 Hz a search lasts at most 3600 frames, a fixation needs a
      window of 600 samples and the cursor fades in over 60 frames. */
  lemma DefaultFrames()
    ensures SearchFrames(Defaults) == 3600 && FixationFrames(Defaults) == 600 && FadeFrames(Defaults) == 60
  {
    assert Defaults.framerate * Defaults.maxtime == 3600.0;
    assert Defaults.framerate * Defaults.fixationtime == 600.0;
    assert Defaults.framerate * Defaults.fadeTime == 60.0;
  }

  /** An image's size as PIL reports it. A PNG image has at least one
      pixel each way (section 11.2.2 of the PNG specification). */
  datatype Size = Size(width: int, height: int)
  type ImageSize = s: Size | s.width > 0 && s.height > 0 witness Size(1, 1)

  /** What the session reads from outside: the participant ID typed at the
      prompt, the opening time in milliseconds, the shuffled image names,
      the image files' sizes and the mask files' pixels (keyed by path),
      the wall clock at each trial's log record, and the chunks the gaze
      stream delivers during each trial's search, frame by frame. */
  datatype Inputs = Inputs(subject: string, openTime: string, images: seq<string>,
                           sizes: map<string, ImageSize>, masks: map<string, Mask>,
                           clock: (nat, nat) -> string, stream: (nat, nat) -> seq<seq<Gaze>>)

  // ---------------------------------------------------------------------
  // The session, step by step
  // ---------------------------------------------------------------------

  /** Why a session stops early: no target could be chosen yet (the
      target variable is unbound), a photomarker position code is
      unknown, the image or the mask file cannot be opened, or the check
      in a search raised an IndexError at a frame. */
  datatype Stop = NoTarget | MarkerFault | MissingImage | MissingMask | SearchFault(frame: nat)

  /** What the session has changed so far: the engine calls, the log
      file's text, the dwell window, the cursor position and the target
      chosen last. */
  datatype Snapshot = Snapshot(trace: seq<Event>, log: string, window: seq<Gaze>, cursor: Pos3,
                               target: Option<nat>)

  /** A snapshot after some work, and whether that work ended the session. */
  datatype Step = Step(after: Snapshot, stop: Option<Stop>)

  /** A target index names one of the four characters. */
  predicate TargetValid(s: Snapshot)
  {
    s.target.Some? ==> s.target.value < 4
  }

  /** What a trial's record adds to the log file: one line if logging is
      on, nothing otherwise. */
  function TrialRecord(c: Config, inp: Inputs, block: nat, trial: nat): string
    requires trial < |inp.images|
  {
    TrialLine(c.logging, inp.subject, inp.clock(block, trial), block, trial, inp.images[trial])
  }

  /** The target's presentation: the circle cue, the "target" marker, the
      character's picture, the circle again and the "image" marker. Both
      markers use the same position code, so an unknown code stops the
      session at the first one, after its marker is sent. Both rectangles
      are sized by `ar`, the aspect ratio the engine reports at the call. */
  function TargetShown(c: Config, ar: real, s: Snapshot): Step
    requires s.target.Some? && s.target.value < 4
  {
    var first := Photomarker("target", None, c.markerPosition, ar, c.markerScale);
    var t1 := s.trace + [Circle] + first.events;
    if first.failed then Step(s.(trace := t1), Some(MarkerFault))
    else
      var second := Photomarker("image", None, c.markerPosition, ar, c.markerScale);
      Step(s.(trace := t1 + [Picture(WaldoTargets[s.target.value]), Circle] + second.events), None)
  }

  /** The image and its search: the image file is opened for its size,
      the image (and, in debug mode, its mask) is shown, the mask file is
      loaded and the gaze search runs on the persistent window. */
  function ImageSearched(c: Config, scr: Screen, inp: Inputs, s: Snapshot, block: nat, trial: nat): Step
    requires trial < |inp.images|
  {
    var path := ImagePath + inp.images[trial];
    var maskPath := MaskPath + MaskName(inp.images[trial]);
    if path !in inp.sizes then Step(s, Some(MissingImage))
    else
      var t := s.trace + [Picture(path)] + (if c.debug then [Picture(maskPath)] else []);
      if maskPath !in inp.masks then Step(s.(trace := t), Some(MissingMask))
      else
        var search := Search(scr, inp.sizes[path].width, inp.sizes[path].height, FixationFrames(c),
                             s.window, inp.stream(block, trial));
        var frames := SearchFrames(c);
        var r := Outcome(search, inp.masks[maskPath], frames);
        Step(Snapshot(t + SearchEvents(search, r, frames, FadeFrames(c), s.cursor), s.log,
                      WindowAt(search, Consumed(r, frames)),
                      if r.Fault? then CursorAt(search, r.frame) else Origin, s.target),
             if r.Fault? then Some(SearchFault(r.frame)) else None)
  }

  /** The steps of a trial, in the order the loop body takes them. */
  datatype Action =
    | Break        // the self-paced pause where a block of images starts
    | Record       // the trial's log record
    | Choose       // the target's choice from the image name
    | Present      // the target's presentation
    | Look         // the image and the gaze search

  const TrialScript: seq<Action> := [Break, Record, Choose, Present, Look]

  /** What one step of a trial does to the snapshot, and whether it ends
      the session. */
  function Act(c: Config, scr: Screen, ar: real, inp: Inputs, s: Snapshot, block: nat, trial: nat, a: Action): (st: Step)
    requires trial < TrialCount(|inp.images|, c.blocks) && TargetValid(s)
    ensures TargetValid(st.after)
  {
    match a
    case Break => Step(s.(trace := s.trace + PauseEvents(trial, TrialsPerBlock(|inp.images|, c.blocks))), None)
    case Record => Step(s.(log := s.log + TrialRecord(c, inp, block, trial)), None)
    case Choose =>
      var target := TargetFor(inp.images[trial], s.target);
      Step(s.(target := target), if target.None? then Some(NoTarget) else None)
    case Present => if s.target.None? then Step(s, Some(NoTarget)) else TargetShown(c, ar, s)
    case Look => ImageSearched(c, scr, inp, s, block, trial)
  }

  /** The steps of the trial from step `from` on, until one ends the session. */
  function Perform(c: Config, scr: Screen, ar: real, inp: Inputs, s: Snapshot, block: nat, trial: nat, from: nat): (st: Step)
    requires trial < TrialCount(|inp.images|, c.blocks) && TargetValid(s)
    ensures TargetValid(st.after)
    decreases |TrialScript| - from
  {
    if from >= |TrialScript| then Step(s, None)
    else
      var st := Act(c, scr, ar, inp, s, block, trial, TrialScript[from]);
      if st.stop.Some? then st else Perform(c, scr, ar, inp, st.after, block, trial, from + 1)
  }

  /** Reference definition of one trial: the break, the log record, the
      target's choice, its presentation and the image's search, each
      possibly ending the session. */
  function TrialStep(c: Config, scr: Screen, ar: real, inp: Inputs, s: Snapshot, block: nat, trial: nat): (st: Step)
    requires trial < TrialCount(|inp.images|, c.blocks) && TargetValid(s)
    ensures TargetValid(st.after)
  {
    Perform(c, scr, ar, inp, s, block, trial, 0)
  }

  /** Running the trial from a step is that step, then the rest unless it stopped. */
  lemma PerformNext(c: Config, scr: Screen, ar: real, inp: Inputs, s: Snapshot, block: nat, trial: nat, from: nat)
    requires trial < TrialCount(|inp.images|, c.blocks) && TargetValid(s) && from < |TrialScript|
    ensures var st := Act(c, scr, ar, inp, s, block, trial, TrialScript[from]);
      Perform(c, scr, ar, inp, s, block, trial, from) ==
        if st.stop.Some? then st else Perform(c, scr, ar, inp, st.after, block, trial, from + 1)
  {
  }

  /** The first three steps of a trial change one part of the snapshot
      each, and only the choice of a target can stop the session. */
  lemma PerformPrepared(c: Config, scr: Screen, ar: real, inp: Inputs, s: Snapshot, block: nat, trial: nat)
    requires trial < TrialCount(|inp.images|, c.blocks) && TargetValid(s)
    ensures var target := TargetFor(inp.images[trial], s.target);
      var s' := s.(trace := s.trace + PauseEvents(trial, TrialsPerBlock(|inp.images|, c.blocks)),
                   log := s.log + TrialRecord(c, inp, block, trial), target := target);
      Perform(c, scr, ar, inp, s, block, trial, 0) ==
        if target.None? then Step(s', Some(NoTarget)) else Perform(c, scr, ar, inp, s', block, trial, 3)
  {
    var s1 := s.(trace := s.trace + PauseEvents(trial, TrialsPerBlock(|inp.images|, c.blocks)));
    var s2 := s1.(log := s.log + TrialRecord(c, inp, block, trial));
    PerformNext(c, scr, ar, inp, s, block, trial, 0);
    PerformNext(c, scr, ar, inp, s1, block, trial, 1);
    PerformNext(c, scr, ar, inp, s2, block, trial, 2);
  }

  /** A snapshot, and whether the session has stopped. */
  datatype Stage = Stage(snap: Snapshot, stop: Option<Stop>)

  /** One trial more, unless the session has already stopped. */
  function Advance(c: Config, scr: Screen, ar: real, inp: Inputs, g: Stage, block: nat, trial: nat): (g': Stage)
    requires trial < TrialCount(|inp.images|, c.blocks) && TargetValid(g.snap)
    ensures TargetValid(g'.snap)
  {
    if g.stop.Some? then g
    else
      var st := TrialStep(c, scr, ar, inp, g.snap, block, trial);
      Stage(st.after, st.stop)
  }

  /** Trials `0 .. t - 1` of block `block`, from stage `g`. */
  function BlockUpTo(c: Config, scr: Screen, ar: real, inp: Inputs, g: Stage, block: nat, t: nat): (g': Stage)
    requires t <= TrialCount(|inp.images|, c.blocks) && TargetValid(g.snap)
    ensures TargetValid(g'.snap)
  {
    if t == 0 then g
    else Advance(c, scr, ar, inp, BlockUpTo(c, scr, ar, inp, g, block, t - 1), block, t - 1)
  }

  /** Blocks `0 .. b - 1`, every one of them running all trials, from stage `g`. */
  function Blocks(c: Config, scr: Screen, ar: real, inp: Inputs, g: Stage, b: nat): (g': Stage)
    requires TargetValid(g.snap)
    ensures TargetValid(g'.snap)
  {
    if b == 0 then g
    else BlockUpTo(c, scr, ar, inp, Blocks(c, scr, ar, inp, g, b - 1), b - 1, TrialCount(|inp.images|, c.blocks))
  }

  /** The stage before the first trial: the log file holds its header if
      logging is on, the window is empty and no target is chosen. */
  function Start(c: Config, trace: seq<Event>, log: string, cursor: Pos3): Stage
  {
    Stage(Snapshot(trace, if c.logging then LogHeader else log, [], cursor, None), None)
  }

  /** Reference definition of the whole session's trials. */
  function Session(c: Config, scr: Screen, ar: real, inp: Inputs, trace: seq<Event>, log: string, cursor: Pos3): Stage
  {
    Blocks(c, scr, ar, inp, Start(c, trace, log, cursor), c.blocks)
  }

  // ---------------------------------------------------------------------
  // Properties of the session
  // ---------------------------------------------------------------------

  /** A stopped session stays as it is for the rest of a block. */
  lemma {:induction false} BlockStopped(c: Config, scr: Screen, ar: real, inp: Inputs, g: Stage, block: nat, t: nat)
    requires t <= TrialCount(|inp.images|, c.blocks) && TargetValid(g.snap) && g.stop.Some?
    ensures BlockUpTo(c, scr, ar, inp, g, block, t) == g
  {
    if t > 0 {
      BlockStopped(c, scr, ar, inp, g, block, t - 1);
    }
  }

  /** Once a trial has stopped the session, the rest of its block leaves
      the stage unchanged. */
  lemma {:induction false} BlockStopsAt(c: Config, scr: Screen, ar: real, inp: Inputs, g: Stage, block: nat, t: nat, t': nat)
    requires t <= t' <= TrialCount(|inp.images|, c.blocks) && TargetValid(g.snap)
    requires BlockUpTo(c, scr, ar, inp, g, block, t).stop.Some?
    ensures BlockUpTo(c, scr, ar, inp, g, block, t') == BlockUpTo(c, scr, ar, inp, g, block, t)
    decreases t' - t
  {
    if t < t' {
      BlockStopsAt(c, scr, ar, inp, g, block, t, t' - 1);
    }
  }

  /** A session that stops within block `block` ends with that block:
      no later block runs a trial. */
  lemma StoppedSessionStays(c: Config, scr: Screen, ar: real, inp: Inputs, g: Stage, block: nat)
    requires block < c.blocks && TargetValid(g.snap)
    requires Blocks(c, scr, ar, inp, g, block + 1).stop.Some?
    ensures Blocks(c, scr, ar, inp, g, c.blocks) == Blocks(c, scr, ar, inp, g, block + 1)
  {
    var x := Blocks(c, scr, ar, inp, g, block + 1);
    var b := block + 1;
    while b < c.blocks
      invariant block + 1 <= b <= c.blocks
      invariant Blocks(c, scr, ar, inp, g, b) == x
    {
      BlockStopped(c, scr, ar, inp, x, b, TrialCount(|inp.images|, c.blocks));
      b := b + 1;
    }
  }

  /** From the target's presentation on, a trial leaves the log and the
      target as they are, only adds engine calls, and cannot stop for want
      of a target once one is chosen. */
  lemma {:induction false} LaterSteps(c: Config, scr: Screen, ar: real, inp: Inputs, s: Snapshot, block: nat, trial: nat, from: nat)
    requires trial < TrialCount(|inp.images|, c.blocks) && TargetValid(s) && from >= 3
    ensures var st := Perform(c, scr, ar, inp, s, block, trial, from);
      st.after.log == s.log && st.after.target == s.target && s.trace <= st.after.trace &&
      (s.target.Some? ==> st.stop != Some(NoTarget))
    decreases |TrialScript| - from
  {
    if from < |TrialScript| {
      PerformNext(c, scr, ar, inp, s, block, trial, from);
      var st := Act(c, scr, ar, inp, s, block, trial, TrialScript[from]);
      if st.stop.None? {
        LaterSteps(c, scr, ar, inp, st.after, block, trial, from + 1);
      }
    }
  }

  /** Every trial writes its record, even one that then stops the
      session, and a trial only adds engine calls to the trace. */
  lemma TrialWritesRecord(c: Config, scr: Screen, ar: real, inp: Inputs, s: Snapshot, block: nat, trial: nat)
    requires trial < TrialCount(|inp.images|, c.blocks) && TargetValid(s)
    ensures var st := TrialStep(c, scr, ar, inp, s, block, trial);
      st.after.log == s.log + TrialRecord(c, inp, block, trial) && s.trace <= st.after.trace
  {
    PerformPrepared(c, scr, ar, inp, s, block, trial);
    var target := TargetFor(inp.images[trial], s.target);
    var s' := s.(trace := s.trace + PauseEvents(trial, TrialsPerBlock(|inp.images|, c.blocks)),
                 log := s.log + TrialRecord(c, inp, block, trial), target := target);
    if target.Some? {
      LaterSteps(c, scr, ar, inp, s', block, trial, 3);
    }
  }

  /** A trial stops for want of a target exactly when no target was chosen
      before and the image's name carries none of the four tags. */
  lemma NoTargetExactly(c: Config, scr: Screen, ar: real, inp: Inputs, s: Snapshot, block: nat, trial: nat)
    requires trial < TrialCount(|inp.images|, c.blocks) && TargetValid(s)
    ensures TrialStep(c, scr, ar, inp, s, block, trial).stop == Some(NoTarget) <==>
      s.target.None? && forall i :: 0 <= i < 4 ==> !Contains(inp.images[trial], TargetTag(i))
  {
    PerformPrepared(c, scr, ar, inp, s, block, trial);
    var target := TargetFor(inp.images[trial], s.target);
    var s' := s.(trace := s.trace + PauseEvents(trial, TrialsPerBlock(|inp.images|, c.blocks)),
                 log := s.log + TrialRecord(c, inp, block, trial), target := target);
    if target.Some? {
      LaterSteps(c, scr, ar, inp, s', block, trial, 3);
    }
  }

  /** Once a target is chosen, a trial stops at the photomarker exactly
      when the configured position code is not one of the four corners;
      with the default code "lr" it never does. */
  lemma MarkerFaultExactly(c: Config, scr: Screen, ar: real, inp: Inputs, s: Snapshot, block: nat, trial: nat)
    requires trial < TrialCount(|inp.images|, c.blocks) && TargetValid(s)
    requires TargetFor(inp.images[trial], s.target).Some?
    ensures TrialStep(c, scr, ar, inp, s, block, trial).stop == Some(MarkerFault) <==> !IsCorner(c.markerPosition)
  {
    PerformPrepared(c, scr, ar, inp, s, block, trial);
    var s' := s.(trace := s.trace + PauseEvents(trial, TrialsPerBlock(|inp.images|, c.blocks)),
                 log := s.log + TrialRecord(c, inp, block, trial), target := TargetFor(inp.images[trial], s.target));
    PerformNext(c, scr, ar, inp, s', block, trial, 3);
    var st := TargetShown(c, ar, s');
    if st.stop.None? {
      PerformNext(c, scr, ar, inp, st.after, block, trial, 4);
      var st' := ImageSearched(c, scr, inp, st.after, block, trial);
      if st'.stop.None? {
        assert Perform(c, scr, ar, inp, st'.after, block, trial, 5) == Step(st'.after, None);
      }
    }
  }

  /** A trial that does not stop the session leaves a target chosen and
      the cursor back at the origin. */
  lemma CompletedTrial(c: Config, scr: Screen, ar: real, inp: Inputs, s: Snapshot, block: nat, trial: nat)
    requires trial < TrialCount(|inp.images|, c.blocks) && TargetValid(s)
    requires TrialStep(c, scr, ar, inp, s, block, trial).stop.None?
    ensures var after := TrialStep(c, scr, ar, inp, s, block, trial).after;
      after.target == TargetFor(inp.images[trial], s.target) && after.target.Some? && after.cursor == Origin
  {
    PerformPrepared(c, scr, ar, inp, s, block, trial);
    var s' := s.(trace := s.trace + PauseEvents(trial, TrialsPerBlock(|inp.images|, c.blocks)),
                 log := s.log + TrialRecord(c, inp, block, trial), target := TargetFor(inp.images[trial], s.target));
    PerformNext(c, scr, ar, inp, s', block, trial, 3);
    var st := TargetShown(c, ar, s');
    PerformNext(c, scr, ar, inp, st.after, block, trial, 4);
    var st' := ImageSearched(c, scr, inp, st.after, block, trial);
    assert Perform(c, scr, ar, inp, st'.after, block, trial, 5) == Step(st'.after, None);
  }

  /** The records of trials `0 .. t - 1` of block `block`. */
  function BlockRecords(c: Config, inp: Inputs, block: nat, t: nat): string
    requires t <= TrialCount(|inp.images|, c.blocks)
  {
    if t == 0 then "" else BlockRecords(c, inp, block, t - 1) + TrialRecord(c, inp, block, t - 1)
  }

  /** The records of every trial of blocks `0 .. b - 1`. */
  function SessionRecords(c: Config, inp: Inputs, b: nat): string
  {
    if b == 0 then "" else SessionRecords(c, inp, b - 1) + BlockRecords(c, inp, b - 1, TrialCount(|inp.images|, c.blocks))
  }

  /** A trial run on a block that has not stopped is the block's next stage. */
  lemma BlockStep(c: Config, scr: Screen, ar: real, inp: Inputs, g: Stage, block: nat, t: nat, s: Snapshot, st: Step)
    requires t < TrialCount(|inp.images|, c.blocks) && TargetValid(g.snap) && TargetValid(s)
    requires BlockUpTo(c, scr, ar, inp, g, block, t) == Stage(s, None)
    requires TrialStep(c, scr, ar, inp, s, block, t) == st
    ensures BlockUpTo(c, scr, ar, inp, g, block, t + 1) == Stage(st.after, st.stop)
  {
  }

  /** A block that has stopped by trial `t` ends where it stopped. */
  lemma BlockEnds(c: Config, scr: Screen, ar: real, inp: Inputs, g: Stage, block: nat, t: nat, s: Snapshot, stop: Stop)
    requires t <= TrialCount(|inp.images|, c.blocks) && TargetValid(g.snap)
    requires BlockUpTo(c, scr, ar, inp, g, block, t) == Stage(s, Some(stop))
    ensures BlockUpTo(c, scr, ar, inp, g, block, TrialCount(|inp.images|, c.blocks)) == Stage(s, Some(stop))
  {
    BlockStopsAt(c, scr, ar, inp, g, block, t, TrialCount(|inp.images|, c.blocks));
  }

  /** One more trial's record extends the block's records. */
  lemma BlockRecordsStep(c: Config, inp: Inputs, block: nat, t: nat, before: string)
    requires t < TrialCount(|inp.images|, c.blocks)
    ensures before + BlockRecords(c, inp, block, t) + TrialRecord(c, inp, block, t)
      == before + BlockRecords(c, inp, block, t + 1)
  {
    var b, r := BlockRecords(c, inp, block, t), TrialRecord(c, inp, block, t);
    assert before + b + r == before + (b + r);
  }

  /** One more block's records extend the session's records. */
  lemma SessionRecordsStep(c: Config, inp: Inputs, b: nat, before: string)
    ensures before + SessionRecords(c, inp, b) + BlockRecords(c, inp, b, TrialCount(|inp.images|, c.blocks))
      == before + SessionRecords(c, inp, b + 1)
  {
    var x, y := SessionRecords(c, inp, b), BlockRecords(c, inp, b, TrialCount(|inp.images|, c.blocks));
    assert before + x + y == before + (x + y);
  }

  // ---------------------------------------------------------------------
  // The module's state
  // ---------------------------------------------------------------------

  /** The module's state that `run` changes: where the cursor is, the
      engine calls made so far, the subject, and the log file. `scr` is
      the window size `__init__` reads for the scene mapping; `ar` is the
      aspect ratio the engine reports when a photomarker is drawn, which
      need not be the window's own ratio. */
  class Experiment {
    const settings: Config
    const scr: Screen
    const ar: real
    const fadeFrames: nat := FadeFrames(settings)
    var cursorPos: Pos3
    var trace: seq<Event>
    var subject: Option<string>
    var logFile: Option<string>
    var logText: string

    /** A fresh module: the cursor at the origin, nothing shown or logged yet. */
    constructor (settings: Config, scr: Screen, ar: real)
      ensures this.settings == settings && this.scr == scr && this.ar == ar
      ensures cursorPos == Origin && trace == [] && subject == None && logFile == None && logText == ""
    {
      this.settings := settings;
      this.scr := scr;
      this.ar := ar;
      cursorPos := Origin;
      trace := [];
      subject := None;
      logFile := None;
      logText := "";
    }

    /** The state the session's reference definition speaks of. */
    function Snap(win: Window<Gaze>, target: Option<nat>): Snapshot
      reads this, win
    {
      Snapshot(trace, logText, win.items, cursorPos, target)
    }

    /** `setSubject`: the entry widget's callback stores the typed ID. */
    method SetSubject(s: string)
      modifies this`subject
      ensures subject == Some(s)
    {
      subject := Some(s);
    }

    /** Creating the log file: named after the module, the opening time
        and the subject, and holding the header line only. */
    method OpenLog(openTime: string)
      requires subject.Some?
      modifies this`logFile, this`logText
      ensures logFile == Some(LogPath(openTime, subject.value)) && logText == LogHeader
    {
      logFile := Some(LogPath(openTime, subject.value));
      logText := LogHeader;
    }

    /** `log(*args)`: with logging on, one record is appended to the log
        file; with logging off nothing is written. */
    method Log(timestamp: string, args: seq<string>)
      requires settings.logging ==> subject.Some?
      modifies this`logText
      ensures logText == old(logText) + (if settings.logging then SearchTrials.LogLine(subject.value, timestamp, args) else "")
    {
      if settings.logging {
        logText := logText + SearchTrials.LogLine(subject.value, timestamp, args);
      }
    }

    /** `photomarker(marker)`: the marker is sent, then the flash for the
        configured corner is drawn; `failed` reports that `rect` was
        unbound because the position code is unknown. */
    method Photomarker(marker: string) returns (failed: bool)
      modifies this`trace
      ensures var f := BaseModule.Photomarker(marker, None, settings.markerPosition, ar, settings.markerScale);
        trace == old(trace) + f.events && failed == f.failed
    {
      trace := trace + [Marker(marker)];
      var rect := PhotomarkerRect(settings.markerPosition, ar, settings.markerScale);
      failed := rect.None?;
      if !failed {
        trace := trace + [Rectangle(rect.value)];
      }
    }

    /** `showCursor`: the cursor appears at `cursorPos` and fades in over
        `fadeFrames` frames, sleeping one frame each. */
    method ShowCursor()
      modifies this`trace
      ensures trace == old(trace) + [Event.ShowCursor(cursorPos)] + Sleeps(fadeFrames)
    {
      trace := trace + [Event.ShowCursor(cursorPos)];
      ghost var shown := trace;
      for i := 0 to fadeFrames
        invariant trace == shown + Sleeps(i)
      {
        trace := trace + [Sleep];
        assert Sleeps(i) + [Sleep] == Sleeps(i + 1);
      }
    }

    /** One frame up to its check: the frame's chunk is pulled, the
        cursor moves to its last sample, the chunk is appended to the
        dwell window and, if the window is full, it is checked against
        the mask. The verdict is frame `f`'s check. */
    method Frame(win: Window<Gaze>, mask: Mask, width: int, height: int,
                 chunks: seq<seq<Gaze>>, f: nat, frames: nat, ghost s: Search) returns (v: Verdict)
      requires s == Search(scr, width, height, win.maxlen, s.start, chunks)
      requires win.Valid() && win.items == WindowAt(s, f) && f < frames
      modifies this`cursorPos, win
      ensures win.Valid() && win.items == WindowAt(s, f + 1)
      ensures cursorPos == CursorAt(s, f)
      ensures var vs := Verdicts(s, mask, frames);
        (v == OnTarget ==> FirstDecisive(vs, f) == Found(f)) &&
        (v == IndexFault ==> FirstDecisive(vs, f) == Fault(f)) &&
        (v != OnTarget && v != IndexFault ==> FirstDecisive(vs, f) == FirstDecisive(vs, f + 1))
    {
      var chunk := ChunkAt(chunks, f);
      cursorPos := CursorFor(scr, chunk);
      win.AppendChunk(chunk);
      WindowStep(s, f);
      v := NotFull;
      if |win.items| == win.maxlen {
        v := Check(scr, mask, width, height, win.items, win.maxlen);
      }
      VerdictStep(s, mask, frames, f);
    }

    /** The frame loop of one search: for each of `frames` frames pull the
        frame's chunk, move the cursor to its last sample, append the
        chunk to the dwell window and, once the window is full, check it
        against the mask. A fixation removes the cursor and leaves the
        loop; a failed check raises out of it. The engine calls made are
        returned in order. */
    method RunFrames(win: Window<Gaze>, mask: Mask, width: int, height: int,
                     chunks: seq<seq<Gaze>>, frames: nat, ghost s: Search)
      returns (r: SearchResult, events: seq<Event>)
      requires s == Search(scr, width, height, win.maxlen, win.items, chunks)
      requires win.Valid()
      modifies this`cursorPos, win
      ensures win.Valid()
      ensures r == Outcome(s, mask, frames)
      ensures r.TimedOut? ==> win.items == WindowAt(s, frames) && events == FrameTrace(s, frames)
      ensures r.TimedOut? && frames > 0 ==> cursorPos == CursorAt(s, frames - 1)
      ensures r.TimedOut? && frames == 0 ==> cursorPos == old(cursorPos)
      ensures !r.TimedOut? ==> win.items == WindowAt(s, r.frame + 1) && cursorPos == CursorAt(s, r.frame)
      ensures r.Found? ==> events == FrameTrace(s, r.frame) + [UpdateCursor(cursorPos), RemoveCursor]
      ensures r.Fault? ==> events == FrameTrace(s, r.frame) + [UpdateCursor(cursorPos)]
    {
      ghost var vs := Verdicts(s, mask, frames);
      assert s.start + Pulled(chunks, 0) == s.start;
      r, events := TimedOut, [];
      var f := 0;
      while f < frames
        invariant 0 <= f <= frames && win.Valid()
        invariant win.items == WindowAt(s, f)
        invariant events == FrameTrace(s, f)
        invariant FirstDecisive(vs, 0) == FirstDecisive(vs, f)
        invariant r == TimedOut
        invariant f > 0 ==> cursorPos == CursorAt(s, f - 1)
        invariant f == 0 ==> cursorPos == old(cursorPos)
      {
        var v := Frame(win, mask, width, height, chunks, f, frames, s);
        var update := UpdateCursor(cursorPos);
        if v == OnTarget {
          events := events + [update, RemoveCursor];
          r := Found(f);
          break;
        }
        if v == IndexFault {
          events := events + [update];
          r := Fault(f);
          break;
        }
        events := events + [update, Flush, Sleep];
        f := f + 1;
      }
    }

    /** The search for one image: the cursor appears and fades in, the
        frame loop runs, and unless it failed the cursor is removed, the
        blank pause follows and the cursor is reset to the origin. The
        result is the reference outcome, the window is left as that many
        frames' chunks made it, and the trace is the search's events. */
    method SearchTrial(win: Window<Gaze>, mask: Mask, width: int, height: int,
                       chunks: seq<seq<Gaze>>, frames: nat) returns (r: SearchResult)
      requires win.Valid()
      modifies this`trace, this`cursorPos, win
      ensures win.Valid()
      ensures var s := Search(scr, width, height, win.maxlen, old(win.items), chunks);
        r == Outcome(s, mask, frames) &&
        win.items == WindowAt(s, Consumed(r, frames)) &&
        trace == old(trace) + SearchEvents(s, r, frames, fadeFrames, old(cursorPos)) &&
        cursorPos == (if r.Fault? then CursorAt(s, r.frame) else Origin)
    {
      ghost var s := Search(scr, width, height, win.maxlen, win.items, chunks);
      ShowCursor();
      var events;
      r, events := RunFrames(win, mask, width, height, chunks, frames, s);
      trace := trace + events;
      if !r.Fault? {
        trace := trace + [RemoveCursor, Sleep];
        cursorPos := Origin;
      }
      SearchTraceAssembled(old(trace), s, r, frames, fadeFrames, old(cursorPos), events, trace);
    }

    /** The target's presentation: the circle cue, the "target" marker,
        the character's picture, the circle again and the "image" marker.
        The second marker cannot fail once the first has not. */
    method PresentTarget(win: Window<Gaze>, target: nat) returns (stop: Option<Stop>)
      requires target < 4
      modifies this`trace
      ensures TargetShown(settings, ar, old(Snap(win, Some(target)))) == Step(Snap(win, Some(target)), stop)
    {
      trace := trace + [Circle];
      var failed := Photomarker("target");
      if failed {
        return Some(MarkerFault);
      }
      trace := trace + [Picture(WaldoTargets[target]), Circle];
      failed := Photomarker("image");
      assert !failed;
      stop := None;
    }

    /** The image and its search: open the image for its size, show it
        (and in debug mode its mask), load the mask and search. */
    method SearchImage(win: Window<Gaze>, inp: Inputs, block: nat, trial: nat, maskName: string,
                       ghost target: Option<nat>) returns (stop: Option<Stop>)
      requires trial < |inp.images| && maskName == MaskName(inp.images[trial])
      requires win.Valid() && win.maxlen == FixationFrames(settings)
      modifies this`trace, this`cursorPos, win
      ensures win.Valid()
      ensures ImageSearched(settings, scr, inp, old(Snap(win, target)), block, trial) == Step(Snap(win, target), stop)
    {
      var path := ImagePath + inp.images[trial];
      if path !in inp.sizes {
        return Some(MissingImage);
      }
      var size := inp.sizes[path];
      trace := trace + [Picture(path)];
      if settings.debug {
        trace := trace + [Picture(MaskPath + maskName)];
      } else {
        assert trace + [] == trace;
      }
      if MaskPath + maskName !in inp.masks {
        return Some(MissingMask);
      }
      var r := SearchTrial(win, inp.masks[MaskPath + maskName], size.width, size.height,
                           inp.stream(block, trial), SearchFrames(settings));
      stop := if r.Fault? then Some(SearchFault(r.frame)) else None;
    }

    /** The self-paced break where a block of images starts: the module
        waits for the space bar, then sleeps a second. */
    method Break(trial: nat, perBlock: nat)
      requires perBlock > 0
      modifies this`trace
      ensures trace == old(trace) + PauseEvents(trial, perBlock)
    {
      if trial % perBlock == 0 {
        trace := trace + [WaitForUser, Sleep];
      } else {
        assert trace + [] == trace;
      }
    }

    /** The start of the trial loop's body: the break at a block's
        first image, the log record and the target's choice. */
    method Prepare(inp: Inputs, block: nat, trial: nat, target: Option<nat>)
      returns (chosen: Option<nat>)
      requires trial < TrialCount(|inp.images|, settings.blocks)
      requires settings.logging ==> subject == Some(inp.subject)
      modifies this`trace, this`logText
      ensures trace == old(trace) + PauseEvents(trial, TrialsPerBlock(|inp.images|, settings.blocks))
      ensures logText == old(logText) + TrialRecord(settings, inp, block, trial)
      ensures chosen == TargetFor(inp.images[trial], target)
    {
      Break(trial, TrialsPerBlock(|inp.images|, settings.blocks));
      var image := inp.images[trial];
      Log(inp.clock(block, trial), TrialLogArgs(block, trial, image));
      chosen := ChooseTarget(image, target);
    }

    /** The rest of the trial loop's body: the target's presentation and
        the image's search. */
    method Show(win: Window<Gaze>, inp: Inputs, block: nat, trial: nat, target: nat)
      returns (stop: Option<Stop>)
      requires trial < TrialCount(|inp.images|, settings.blocks) && target < 4
      requires win.Valid() && win.maxlen == FixationFrames(settings)
      modifies this`trace, this`cursorPos, win
      ensures win.Valid()
      ensures Perform(settings, scr, ar, inp, old(Snap(win, Some(target))), block, trial, 3) == Step(Snap(win, Some(target)), stop)
    {
      PerformNext(settings, scr, ar, inp, Snap(win, Some(target)), block, trial, 3);
      stop := PresentTarget(win, target);
      if stop.Some? {
        return;
      }
      PerformNext(settings, scr, ar, inp, Snap(win, Some(target)), block, trial, 4);
      stop := SearchImage(win, inp, block, trial, MaskName(inp.images[trial]), Some(target));
      assert Perform(settings, scr, ar, inp, Snap(win, Some(target)), block, trial, 5) == Step(Snap(win, Some(target)), None);
    }

    /** One pass of the trial loop's body. */
    method Trial(win: Window<Gaze>, inp: Inputs, block: nat, trial: nat, target: Option<nat>)
      returns (chosen: Option<nat>, stop: Option<Stop>)
      requires trial < TrialCount(|inp.images|, settings.blocks) && (target.Some? ==> target.value < 4)
      requires win.Valid() && win.maxlen == FixationFrames(settings)
      requires settings.logging ==> subject == Some(inp.subject)
      modifies this`trace, this`cursorPos, this`logText, win
      ensures win.Valid()
      ensures TrialStep(settings, scr, ar, inp, old(Snap(win, target)), block, trial) == Step(Snap(win, chosen), stop)
      ensures logText == old(logText) + TrialRecord(settings, inp, block, trial)
    {
      PerformPrepared(settings, scr, ar, inp, Snap(win, target), block, trial);
      chosen := Prepare(inp, block, trial, target);
      if chosen.None? {
        return chosen, Some(NoTarget);
      }
      stop := Show(win, inp, block, trial, chosen.value);
    }

    /** One trial of a block that has not stopped: the block's next stage. */
    method BlockTrial(win: Window<Gaze>, inp: Inputs, block: nat, trial: nat, target: Option<nat>,
                      ghost before: Stage, ghost log0: string)
      returns (chosen: Option<nat>, stop: Option<Stop>)
      requires trial < TrialCount(|inp.images|, settings.blocks) && TargetValid(before.snap)
      requires BlockUpTo(settings, scr, ar, inp, before, block, trial) == Stage(Snap(win, target), None)
      requires logText == log0 + BlockRecords(settings, inp, block, trial)
      requires win.Valid() && win.maxlen == FixationFrames(settings)
      requires settings.logging ==> subject == Some(inp.subject)
      modifies this`trace, this`cursorPos, this`logText, win
      ensures win.Valid()
      ensures BlockUpTo(settings, scr, ar, inp, before, block, trial + 1) == Stage(Snap(win, chosen), stop)
      ensures logText == log0 + BlockRecords(settings, inp, block, trial + 1)
    {
      ghost var s := Snap(win, target);
      chosen, stop := Trial(win, inp, block, trial, target);
      BlockStep(settings, scr, ar, inp, before, block, trial, s, Step(Snap(win, chosen), stop));
      BlockRecordsStep(settings, inp, block, trial, log0);
    }

    /** One block: every trial in turn, until one stops the run. */
    method RunBlock(win: Window<Gaze>, inp: Inputs, block: nat, target: Option<nat>, ghost before: Stage)
      returns (chosen: Option<nat>, stop: Option<Stop>)
      requires before == Stage(Snap(win, target), None) && TargetValid(before.snap)
      requires win.Valid() && win.maxlen == FixationFrames(settings)
      requires settings.logging ==> subject == Some(inp.subject)
      modifies this`trace, this`cursorPos, this`logText, win
      ensures win.Valid()
      ensures BlockUpTo(settings, scr, ar, inp, before, block, TrialCount(|inp.images|, settings.blocks))
        == Stage(Snap(win, chosen), stop)
      ensures stop.None? ==>
        logText == old(logText) + BlockRecords(settings, inp, block, TrialCount(|inp.images|, settings.blocks))
    {
      chosen := target;
      var trials := TrialCount(|inp.images|, settings.blocks);
      for trial := 0 to trials
        invariant win.Valid()
        invariant BlockUpTo(settings, scr, ar, inp, before, block, trial) == Stage(Snap(win, chosen), None)
        invariant logText == old(logText) + BlockRecords(settings, inp, block, trial)
      {
        chosen, stop := BlockTrial(win, inp, block, trial, chosen, before, old(logText));
        if stop.Some? {
          BlockEnds(settings, scr, ar, inp, before, block, trial + 1, Snap(win, chosen), stop.value);
          return;
        }
      }
      stop := None;
    }

    /** Every block in turn, until a trial stops the run. */
    method RunBlocks(win: Window<Gaze>, inp: Inputs, ghost g0: Stage) returns (stop: Option<Stop>)
      requires g0 == Stage(Snap(win, None), None)
      requires win.Valid() && win.maxlen == FixationFrames(settings)
      requires settings.logging ==> subject == Some(inp.subject)
      modifies this`trace, this`cursorPos, this`logText, win
      ensures var g := Blocks(settings, scr, ar, inp, g0, settings.blocks);
        stop == g.stop && trace == g.snap.trace && logText == g.snap.log && cursorPos == g.snap.cursor
      ensures stop.None? ==> logText == old(logText) + SessionRecords(settings, inp, settings.blocks)
    {
      var target: Option<nat> := None;
      for block := 0 to settings.blocks
        invariant win.Valid()
        invariant Blocks(settings, scr, ar, inp, g0, block) == Stage(Snap(win, target), None)
        invariant logText == old(logText) + SessionRecords(settings, inp, block)
      {
        target, stop := RunBlock(win, inp, block, target, Blocks(settings, scr, ar, inp, g0, block));
        SessionRecordsStep(settings, inp, block, old(logText));
        if stop.Some? {
          StoppedSessionStays(settings, scr, ar, inp, g0, block);
          return;
        }
      }
      stop := None;
    }

    /** `run`: with logging on, the subject is entered and the log file
        created; the dwell window is made once; every block runs every
        trial; the closing text follows unless a trial stopped the run. */
    method Run(inp: Inputs) returns (stop: Option<Stop>)
      modifies this`trace, this`cursorPos, this`subject, this`logFile, this`logText
      ensures var g := Session(settings, scr, ar, inp, old(trace), old(logText), old(cursorPos));
        stop == g.stop && logText == g.snap.log && cursorPos == g.snap.cursor &&
        trace == g.snap.trace + (if stop.None? then [Message(EndText)] else [])
      ensures settings.logging && stop.None? ==> logText == LogHeader + SessionRecords(settings, inp, settings.blocks)
      ensures settings.logging ==> subject == Some(inp.subject) && logFile == Some(LogPath(inp.openTime, inp.subject))
      ensures !settings.logging ==> subject == old(subject) && logFile == old(logFile)
    {
      if settings.logging {
        SetSubject(inp.subject);
        OpenLog(inp.openTime);
      }
      var win := new Window<Gaze>(FixationFrames(settings));
      stop := RunBlocks(win, inp, Stage(Snap(win, None), None));
      if stop.None? {
        trace := trace + [Message(EndText)];
      }
    }
  }
}
