/** The trial bookkeeping that both visual-search modules (with and
    without gaze) share line for line: how many trials there are, where the
    self-paced pauses fall, which mask file and which target character go
    with an image, and the line each trial adds to the log file. */
module SearchTrials {
  import opened Optional
  import opened Strings
  import BaseModule

  /** `ntrialperblock = floor(alltrials / blocks)`. */
  function TrialsPerBlock(alltrials: nat, blocks: nat): (n: nat)
    requires blocks > 0
    ensures n * blocks <= alltrials < n * blocks + blocks
    ensures n > 0 <==> alltrials >= blocks
  {
    alltrials / blocks
  }

  /** `trials = int(ntrialperblock * blocks)`: the largest multiple of
      `blocks` that does not exceed the number of images. */
  function TrialCount(alltrials: nat, blocks: nat): (n: nat)
    requires blocks > 0
    ensures n <= alltrials < n + blocks
    ensures n % blocks == 0
    ensures n > 0 <==> TrialsPerBlock(alltrials, blocks) > 0
  {
    MultipleMod(TrialsPerBlock(alltrials, blocks), 0, blocks);
    TrialsPerBlock(alltrials, blocks) * blocks
  }

  /** Every trial index of the loop names an existing image. */
  lemma ImageIndexInRange(alltrials: nat, blocks: nat, trial: nat)
    requires blocks > 0 && trial < TrialCount(alltrials, blocks)
    ensures trial < alltrials
  {
  }

  /** `(m * p + j) % p == j` for `0 <= j < p`. */
  lemma MultipleMod(m: nat, j: nat, p: nat)
    requires j < p
    ensures (m * p + j) % p == j && (m * p + j) / p == m
  {
    var q, r := (m * p + j) / p, (m * p + j) % p;
    var d := q - m;
    assert d * p == j - r by {
      assert q * p + r == m * p + j;
      assert d * p == q * p - m * p;
    }
  }

  /** A self-paced pause comes before trial `trial`, which the source
      tests as `trial % ntrialperblock == 0`. */
  predicate PauseBefore(trial: nat, perBlock: nat)
    requires perBlock > 0
  {
    trial % perBlock == 0
  }

  /** How many of the trial indices `0 .. n-1` get a pause. */
  function PauseCount(n: nat, perBlock: nat): nat
    requires perBlock > 0
  {
    if n == 0 then 0
    else PauseCount(n - 1, perBlock) + (if PauseBefore(n - 1, perBlock) then 1 else 0)
  }

  lemma {:induction false} PauseCountUpTo(m: nat, j: nat, p: nat)
    requires j < p
    ensures PauseCount(m * p + j + 1, p) == m + 1
    decreases m * p + j
  {
    MultipleMod(m, j, p);
    if j > 0 {
      PauseCountUpTo(m, j - 1, p);
    } else if m > 0 {
      PauseCountUpTo(m - 1, p - 1, p);
      assert (m - 1) * p + (p - 1) + 1 == m * p;
    }
  }

  /** The trial index restarts at zero in every block and runs over all
      `ntrialperblock * blocks` trials, so every block holds `blocks`
      pauses, not one. */
  lemma PausesPerBlock(perBlock: nat, blocks: nat)
    requires perBlock > 0
    ensures PauseCount(perBlock * blocks, perBlock) == blocks
  {
    if blocks > 0 {
      PauseCountUpTo(blocks - 1, perBlock - 1, perBlock);
      assert (blocks - 1) * perBlock + (perBlock - 1) + 1 == perBlock * blocks;
    }
  }

  /** The self-paced break before a trial: the "press space" prompt and a
      one-second sleep. */
  function PauseEvents(trial: nat, perBlock: nat): seq<BaseModule.Event>
    requires perBlock > 0
  {
    if PauseBefore(trial, perBlock) then [BaseModule.WaitForUser, BaseModule.Sleep] else []
  }

  /** Appended to an image name, minus its extension, to name its mask. */
  const MaskSuffix: string := "_mask.png"

  /** `image[0:len(image) - 4] + '_mask.png'`. The slice drops a
      four-character extension; for names shorter than four characters
      Python's negative slice end still applies. */
  function MaskName(image: string): (mask: string)
    ensures |mask| >= |MaskSuffix| && mask[|mask| - |MaskSuffix|..] == MaskSuffix
    ensures mask[..|mask| - |MaskSuffix|] <= image
    ensures |image| >= 4 ==> mask == image[..|image| - 4] + MaskSuffix
    ensures |image| < 4 ==>
      |mask| - |MaskSuffix| == (if 2 * |image| > 4 then 2 * |image| - 4 else 0)
  {
    PyPrefix(image, |image| - 4) + MaskSuffix
  }

  /** The mask of `stem.png` is `stem_mask.png`. */
  lemma MaskNameOfStem(stem: string, extension: string)
    requires |extension| == 4
    ensures MaskName(stem + extension) == stem + MaskSuffix
  {
    assert (stem + extension)[..|stem|] == stem;
  }

  /** The four target characters' pictures: Waldo, Wenda, Wizard Whitebeard, Odlaw. */
  const WaldoTargets: seq<string> := [
    "./media/waldo/ch/ch1_b.png",
    "./media/waldo/ch/ch2_b.png",
    "./media/waldo/ch/ch3_b.png",
    "./media/waldo/ch/ch4_b.png"
  ]

  /** The tag that selects target `i`: `ch1` .. `ch4`. */
  function TargetTag(i: nat): string
    requires i < 4
  {
    "ch" + [DigitChar(i + 1)]
  }

  /** The target index an image selects: the highest-numbered tag it
      contains wins; without any tag the previous target stays. */
  function TargetFor(image: string, previous: Option<nat>): (target: Option<nat>)
    ensures target.None? <==> previous.None? && forall i :: 0 <= i < 4 ==> !Contains(image, TargetTag(i))
    ensures target.Some? && target != previous ==> target.value < 4
  {
    assert TargetTag(0) == "ch1" && TargetTag(1) == "ch2";
    assert TargetTag(2) == "ch3" && TargetTag(3) == "ch4";
    if Contains(image, "ch4") then Some(3)
    else if Contains(image, "ch3") then Some(2)
    else if Contains(image, "ch2") then Some(1)
    else if Contains(image, "ch1") then Some(0)
    else previous
  }

  /** "Last match wins": target `i` is selected exactly when its tag occurs
      and no higher-numbered tag does; no tag keeps the previous target. */
  lemma TargetIsLastMatch(image: string, previous: Option<nat>, i: nat)
    requires i < 4
    ensures Contains(image, TargetTag(i)) && (forall j :: i < j < 4 ==> !Contains(image, TargetTag(j)))
            ==> TargetFor(image, previous) == Some(i)
    ensures (forall j :: 0 <= j < 4 ==> !Contains(image, TargetTag(j)))
            ==> TargetFor(image, previous) == previous
  {
    assert TargetTag(0) == "ch1" && TargetTag(1) == "ch2";
    assert TargetTag(2) == "ch3" && TargetTag(3) == "ch4";
  }

  /** The `if 'ch1' in image: ...` chain of independent tests, run in
      source order so that a later match overwrites an earlier one. */
  method ChooseTarget(image: string, previous: Option<nat>) returns (target: Option<nat>)
    ensures target == TargetFor(image, previous)
  {
    target := previous;
    if Contains(image, "ch1") {
      target := Some(0);
    }
    if Contains(image, "ch2") {
      target := Some(1);
    }
    if Contains(image, "ch3") {
      target := Some(2);
    }
    if Contains(image, "ch4") {
      target := Some(3);
    }
  }

  /** One record of a visual-search log file: a leading newline, then
      subject, timestamp and the values, separated by semicolons. */
  function LogLine(subject: string, timestamp: string, args: seq<string>): (line: string)
    ensures |line| >= 1 && line[0] == '\n'
  {
    "\n" + subject + ";" + timestamp + ";" + Join(args, ';')
  }

  /** The record without its leading newline is the semicolon-joined fields. */
  lemma LogLineBody(subject: string, timestamp: string, args: seq<string>)
    ensures LogLine(subject, timestamp, args)[1..] == subject + ";" + (timestamp + ";" + Join(args, ';'))
  {
    var j := Join(args, ';');
    assert "\n" + subject + ";" + timestamp + ";" + j == "\n" + (subject + ";" + (timestamp + ";" + j));
  }

  /** What each trial logs: block and trial, counted from one, and the image. */
  function TrialLogArgs(block: nat, trial: nat, image: string): seq<string>
  {
    [NatToString(block + 1), NatToString(trial + 1), image]
  }

  /** A trial's log record splits back into subject, timestamp, block,
      trial and image, and the two numbers read back as the 1-based
      block and trial, provided the names hold no semicolon. */
  lemma TrialLogLineFields(subject: string, timestamp: string, block: nat, trial: nat, image: string)
    requires ';' !in subject && ';' !in timestamp && ';' !in image
    ensures var fields := Split(LogLine(subject, timestamp, TrialLogArgs(block, trial, image))[1..], ';');
      |fields| == 5 && fields[0] == subject && fields[1] == timestamp && fields[4] == image &&
      (forall k :: 0 <= k < |fields[2]| ==> '0' <= fields[2][k] <= '9') &&
      (forall k :: 0 <= k < |fields[3]| ==> '0' <= fields[3][k] <= '9') &&
      ParseNat(fields[2]) == block + 1 && ParseNat(fields[3]) == trial + 1
  {
    var b, t := NatToString(block + 1), NatToString(trial + 1);
    var args := TrialLogArgs(block, trial, image);
    assert ';' !in b && ';' !in t;
    JoinCons(t, [image], ';');
    JoinCons(b, [t, image], ';');
    JoinCons(timestamp, args, ';');
    JoinCons(subject, [timestamp] + args, ';');
    assert [b] + [t, image] == args;
    assert [subject] + ([timestamp] + args) == [subject, timestamp, b, t, image];
    LogLineBody(subject, timestamp, args);
    SplitJoin([subject, timestamp, b, t, image], ';');
    ParseNatToString(block + 1);
    ParseNatToString(trial + 1);
  }

  /** What a trial's record adds to the log file: one line if logging is
      on, nothing otherwise. */
  function TrialLine(logging: bool, subject: string, timestamp: string, block: nat, trial: nat, image: string): string
  {
    if logging then LogLine(subject, timestamp, TrialLogArgs(block, trial, image)) else ""
  }

  const ModuleName: string := "VisualSearch"
  const ImagePath: string := "./media/waldo/images/"
  const MaskPath: string := "./media/waldo/masks/"

  /** The first line of the log file: the column names, quoted. */
  const LogHeader: string := "\"subject\";\"timestamp\";\"block\";\"trial\";\"stimulusfile\""

  /** The closing text, in the engine's "text" style. */
  const EndText: string := "\U{1}text\U{1}End of this part"

  /** The log file of a session: `./logs/<module>-<time>-<subject>.csv`. */
  function LogPath(openTime: string, subject: string): (path: string)
    ensures "./logs/" <= path && |path| >= 4 && path[|path| - 4..] == ".csv"
  {
    "./logs/" + ModuleName + "-" + openTime + "-" + subject + ".csv"
  }

  /** The log file's name reads back as module, opening time and subject
      when neither of the last two holds a dash. */
  lemma LogPathFields(openTime: string, subject: string)
    requires '-' !in openTime && '-' !in subject
    ensures var path := LogPath(openTime, subject);
      |path| >= 11 && path[..7] == "./logs/" && path[|path| - 4..] == ".csv" &&
      Split(path[7..|path| - 4], '-') == [ModuleName, openTime, subject]
  {
    var rest := openTime + "-" + subject;
    var name := ModuleName + "-" + rest;
    var path := LogPath(openTime, subject);
    assert path == "./logs/" + name + ".csv";
    assert path[7..|path| - 4] == name;
    SplitNoSeparator(subject, '-');
    SplitField(openTime, '-', subject);
    SplitField(ModuleName, '-', rest);
  }
}
