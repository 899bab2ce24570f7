/** The module template every experiment module is copied from: prompts,
    vertical text alignment, photodiode markers and the semicolon-separated
    log file. The engine itself (text rendering, rectangles, timing) is not
    modelled; its calls appear as `Event`s. */
module BaseModule {
  import opened Optional
  import opened Strings

  /** A position in the engine's scene, `(x, y, z)`; `y` is depth and `z` is up. */
  datatype Pos3 = Pos3(x: real, y: real, z: real)

  /** The origin, where the cursor is reset after every trial. */
  const Origin: Pos3 := Pos3(0.0, 0.0, 0.0)

  /** A screen rectangle as the engine's `rectangle` call takes it:
      `[left, right, top, bottom]` in scene units. */
  datatype MarkerRect = MarkerRect(left: real, right: real, top: real, bottom: real)

  /** A call into the presentation engine or the marker stream. */
  datatype Event =
    | Marker(tag: string)          // an event marker sent to the marker stream
    | Rectangle(rect: MarkerRect)  // a flash drawn for the photo sensor
    | WaitForUser                  // the "press space" break
    | ShowCursor(at: Pos3)         // the gaze cursor is created (and faded in)
    | UpdateCursor(at: Pos3)       // the gaze cursor is re-created at a new position
    | RemoveCursor                 // the gaze cursor is destroyed
    | Flush                        // the gaze inlet's buffer is discarded
    | Sleep                        // the engine sleeps; durations are not modelled
    | Cross                        // a crosshair fades in, stays a random time, fades out
    | Circle                       // a circle does the same at a random position
    | Picture(file: string)        // an image file is shown
    | Message(text: string)        // a text is shown until the space bar is pressed

  /** `k` one-frame sleeps in a row, as a fade-in makes them. */
  function Sleeps(k: nat): (t: seq<Event>)
    ensures |t| == k && forall i :: 0 <= i < k ==> t[i] == Sleep
  {
    seq(k, i => Sleep)
  }

  // ---------------------------------------------------------------------
  // instruct
  // ---------------------------------------------------------------------

  /** Appended to an instruction that waits for the space bar: two line
      breaks and the engine's switch to the "small" text style. */
  const SmallPrompt: string := "\n\n\U{1}small\U{1}"

  datatype Wait = WaitForSpace | SleepFor(seconds: real)

  /** What `instruct` puts on the screen and how it waits before removing it. */
  datatype Prompt = Prompt(text: string, wait: Wait)

  /** `instruct(text, time)`: with `time == 0` the prompt line is appended
      and the module waits for the space bar; otherwise the text is shown
      unchanged for `time` seconds. */
  function Instruct(text: string, time: real, textPressSpace: string): (p: Prompt)
    ensures text <= p.text
    ensures time == 0.0 ==> p.text[|text|..] == SmallPrompt + textPressSpace
    ensures time != 0.0 ==> p.text == text
    ensures p.wait.WaitForSpace? <==> time == 0.0
    ensures p.wait.SleepFor? ==> p.wait.seconds == time
  {
    if time == 0.0 then Prompt(text + SmallPrompt + textPressSpace, WaitForSpace)
    else Prompt(text, SleepFor(time))
  }

  // ---------------------------------------------------------------------
  // alignVertical
  // ---------------------------------------------------------------------

  /** `alignVertical(object, align)`: the `z` that `setZ` receives, from
      the object's tight bounds `bottom`/`top` (its lowest and highest `z`).
      The offsets form a three-element list indexed by `align`, so Python's
      negative indices reach them too and any other index raises. */
  function AlignOffset(bottom: real, top: real, align: int): (z: Option<real>)
    ensures z.Some? <==> -3 <= align < 3
    ensures (align == 0 || align == -3) ==> top + z.value == 1.0
    ensures (align == 1 || align == -2) ==> (top + bottom) / 2.0 + z.value == 0.0
    ensures (align == 2 || align == -1) ==> bottom + z.value == -1.0
  {
    var offsets := [1.0 - top, -(top + bottom) * 0.5, -bottom - 1.0];
    if 0 <= align < 3 then Some(offsets[align])
    else if -3 <= align < 0 then Some(offsets[align + 3])
    else None
  }

  // ---------------------------------------------------------------------
  // photomarker
  // ---------------------------------------------------------------------

  /** The four corner codes: top left, lower left, top right, lower right. */
  predicate IsCorner(position: string)
  {
    position == "tl" || position == "ll" || position == "tr" || position == "lr"
  }

  /** The flash rectangle for a corner code, on a screen spanning
      `[-ar, ar]` horizontally and `[-1, 1]` vertically; `None` where the
      code matches no branch and `rect` stays unbound. */
  function PhotomarkerRect(position: string, ar: real, sc: real): (r: Option<MarkerRect>)
    ensures r.Some? <==> IsCorner(position)
    ensures r.Some? ==> r.value.right - r.value.left == sc && r.value.top - r.value.bottom == sc
    ensures position == "tl" ==> r.value.left == -ar && r.value.top == 1.0
    ensures position == "ll" ==> r.value.left == -ar && r.value.bottom == -1.0
    ensures position == "tr" ==> r.value.right == ar && r.value.top == 1.0
    ensures position == "lr" ==> r.value.right == ar && r.value.bottom == -1.0
  {
    if position == "tl" then Some(MarkerRect(-ar, sc - ar, 1.0, 1.0 - sc))
    else if position == "ll" then Some(MarkerRect(-ar, sc - ar, sc - 1.0, -1.0))
    else if position == "tr" then Some(MarkerRect(ar - sc, ar, 1.0, 1.0 - sc))
    else if position == "lr" then Some(MarkerRect(ar - sc, ar, sc - 1.0, -1.0))
    else None
  }

  /** A marker no larger than the screen lies wholly on it. */
  lemma PhotomarkerOnScreen(position: string, ar: real, sc: real)
    requires IsCorner(position)
    requires 0.0 <= sc && sc <= 2.0 * ar && sc <= 2.0
    ensures var r := PhotomarkerRect(position, ar, sc).value;
      -ar <= r.left <= r.right <= ar && -1.0 <= r.bottom <= r.top <= 1.0
  {
  }

  /** The outcome of one `photomarker` call: the engine calls made, and
      whether it then stopped with an unbound `rect`. */
  datatype Flash = Flash(events: seq<Event>, failed: bool)

  /** `photomarker(marker, position)`: the marker is always sent first; a
      missing position means `photomarkerPosition`; then the corner
      rectangle is flashed, or the call fails for an unknown code. */
  function Photomarker(marker: string, position: Option<string>, defaultPosition: string,
                       ar: real, sc: real): (f: Flash)
    ensures |f.events| >= 1 && f.events[0] == Marker(marker)
    ensures f.failed <==> !IsCorner(position.GetOr(defaultPosition))
    ensures f.failed ==> f.events == [Marker(marker)]
    ensures !f.failed ==> |f.events| == 2 && f.events[1].Rectangle?
    ensures !f.failed && position.None? ==>
      f.events[1].rect == PhotomarkerRect(defaultPosition, ar, sc).value
    ensures !f.failed && position.Some? ==>
      f.events[1].rect == PhotomarkerRect(position.value, ar, sc).value
  {
    var where := position.GetOr(defaultPosition);
    match PhotomarkerRect(where, ar, sc)
    case Some(rect) => Flash([Marker(marker), Rectangle(rect)], false)
    case None => Flash([Marker(marker)], true)
  }

  // ---------------------------------------------------------------------
  // log
  // ---------------------------------------------------------------------

  /** One record of the template's log file: subject, timestamp and the
      logged values, separated by semicolons, ended by a newline. */
  function LogLine(subject: string, timestamp: string, args: seq<string>): (line: string)
    ensures |line| >= 1 && line[|line| - 1] == '\n'
  {
    subject + ";" + timestamp + ";" + Join(args, ';') + "\n"
  }

  /** A log record splits back into its fields when none of them holds a
      semicolon; a call without values leaves one empty trailing field. */
  lemma LogLineFields(subject: string, timestamp: string, args: seq<string>)
    requires ';' !in subject && ';' !in timestamp
    requires forall k :: 0 <= k < |args| ==> ';' !in args[k]
    ensures var line := LogLine(subject, timestamp, args);
      Split(line[..|line| - 1], ';') == [subject, timestamp] + (if args == [] then [""] else args)
  {
    var line := LogLine(subject, timestamp, args);
    var tail := if args == [] then [""] else args;
    assert Join(args, ';') == Join(tail, ';');
    JoinCons(timestamp, tail, ';');
    JoinCons(subject, [timestamp] + tail, ';');
    assert [subject] + ([timestamp] + tail) == [subject, timestamp] + tail;
    assert line[..|line| - 1] == subject + ";" + (timestamp + ";" + Join(tail, ';'));
    SplitJoin([subject, timestamp] + tail, ';');
  }

  /** `os.path.join(a, b)` for two parts, with POSIX separators. */
  function PathJoin(a: string, b: string): string
  {
    if |b| > 0 && b[0] == '/' then b
    else if a == "" || a[|a| - 1] == '/' then a + b
    else a + "/" + b
  }

  /** The log file the template creates: inside `logs`, named after the
      module, the opening time in milliseconds and the subject. */
  function LogFilePath(moduleName: string, openTime: string, subject: string): (path: string)
    ensures (|moduleName| == 0 || moduleName[0] != '/') ==>
      path == "logs/" + moduleName + "-" + openTime + "-" + subject + ".csv"
    ensures |path| >= 4 && path[|path| - 4..] == ".csv"
  {
    PathJoin("logs", moduleName + "-" + openTime + "-" + subject + ".csv")
  }

  /** The template's own state: the subject set at the entry prompt, the
      log file's name, and the contents of the files it has written. */
  class Module {
    const moduleName: string
    const logHeaders: string
    var logging: bool
    var subject: Option<string>
    var logFile: Option<string>
    var files: map<string, string>

    constructor ()
      ensures moduleName == "BaseModule" && logHeaders == "\"subject\";\"time\";\"...\""
      ensures logging && subject == None && logFile == None && files == map[]
    {
      moduleName := "BaseModule";
      logHeaders := "\"subject\";\"time\";\"...\"";
      logging := true;
      subject := None;
      logFile := None;
      files := map[];
    }

    /** `setSubject`: the entry widget's callback stores the typed ID. */
    method SetSubject(s: string)
      modifies this`subject
      ensures subject == Some(s)
    {
      subject := Some(s);
    }

    /** Creating the log file at the start of `run`: with logging on, the
        file is (re)written with the header line only. */
    method OpenLog(openTime: string)
      requires logging ==> subject.Some?
      modifies this`logFile, this`files
      ensures logging ==> logFile == Some(LogFilePath(moduleName, openTime, subject.value))
      ensures logging ==> files == old(files)[logFile.value := logHeaders]
      ensures !logging ==> logFile == old(logFile) && files == old(files)
    {
      if logging {
        var path := LogFilePath(moduleName, openTime, subject.value);
        logFile := Some(path);
        files := files[path := logHeaders];
      }
    }

    /** `log(*args)`: with logging on, one record is appended to the log
        file; with logging off nothing is written. */
    method Log(timestamp: string, args: seq<string>)
      requires logging ==> subject.Some? && logFile.Some?
      modifies this`files
      ensures logging ==> files == old(files)[logFile.value :=
        (if logFile.value in old(files) then old(files)[logFile.value] else "")
        + LogLine(subject.value, timestamp, args)]
      ensures !logging ==> files == old(files)
    {
      if logging {
        var path := logFile.value;
        var before := if path in files then files[path] else "";
        files := files[path := before + LogLine(subject.value, timestamp, args)];
      }
    }
  }
}
