/** The visual-search module with gaze input: a "Where's Waldo" image is
    shown until the participant's gaze has dwelt on the target character's
    mask, or until the search time runs out. Gaze arrives as chunks of
    sensor rectangles `(x1, y1, x2, y2)` in screen pixels; the module keeps
    the most recent `fixationframes` of them in a dwell window and declares
    a fixation when more than 90% of the window's sum of mask values says
    "on target". */
module VisualSearch {
  import opened Optional
  import opened Numbers
  import opened BaseModule
  import opened DwellWindow
  import opened SearchTrials

  // ---------------------------------------------------------------------
  // Coordinate maps
  // ---------------------------------------------------------------------

  /** The window size in pixels, as floats. */
  datatype ScreenSize = ScreenSize(sx: real, sy: real)

  type Screen = s: ScreenSize | s.sx > 0.0 && s.sy > 0.0 witness ScreenSize(1.0, 1.0)

  /** `scene_ar`: width over height. */
  function AspectRatio(scr: Screen): (ar: real)
    ensures ar > 0.0
  {
    scr.sx / scr.sy
  }

  /** The scene x of screen column `x`. */
  function SceneX(scr: Screen, x: real): real
  {
    (2.0 * x / scr.sx - 1.0) * AspectRatio(scr)
  }

  /** The scene y of screen row `y`. */
  function SceneY(scr: Screen, y: real): real
  {
    -2.0 * y / scr.sy + 1.0
  }

  /** `screen2scene(x, y)`: screen pixels (origin top left, y down) to
      scene units (origin at the centre, x in `[-ar, ar]`, y up in `[-1, 1]`). */
  function Screen2Scene(scr: Screen, x: real, y: real): (real, real)
  {
    (SceneX(scr, x), SceneY(scr, y))
  }

  /** The inverse of `SceneX`, from scene x back to a screen column. */
  ghost function ScreenX(scr: Screen, u: real): real
  {
    (u / AspectRatio(scr) + 1.0) * scr.sx / 2.0
  }

  /** The inverse of `SceneY`, from scene y back to a screen row. */
  ghost function ScreenY(scr: Screen, v: real): real
  {
    (1.0 - v) * scr.sy / 2.0
  }

  lemma ColumnRoundTrip(sx: real, sy: real, x: real)
    requires sx > 0.0 && sy > 0.0
    ensures ((2.0 * x / sx - 1.0) * (sx / sy) / (sx / sy) + 1.0) * sx / 2.0 == x
  {
    var t := 2.0 * x / sx;
    DivMul(2.0 * x, sx);
    MulDiv(t - 1.0, sx / sy);
  }

  lemma RowRoundTrip(sy: real, y: real)
    requires sy > 0.0
    ensures (1.0 - (-2.0 * y / sy + 1.0)) * sy / 2.0 == y
  {
    DivMul(-2.0 * y, sy);
  }

  lemma SceneXRoundTrip(sx: real, sy: real, u: real)
    requires sx > 0.0 && sy > 0.0
    ensures (2.0 * ((u / (sx / sy) + 1.0) * sx / 2.0) / sx - 1.0) * (sx / sy) == u
  {
    var w := u / (sx / sy);
    DivMul(u, sx / sy);
    var s := (w + 1.0) * sx;
    assert 2.0 * (s / 2.0) == s;
    MulDiv(w + 1.0, sx);
  }

  lemma SceneYRoundTrip(sy: real, v: real)
    requires sy > 0.0
    ensures -2.0 * ((1.0 - v) * sy / 2.0) / sy + 1.0 == v
  {
    var m := (1.0 - v) * sy;
    assert -2.0 * (m / 2.0) == -m;
    DivUnique(-m, sy, v - 1.0);
  }

  /** Screen to scene and back is the identity on both axes. */
  lemma ScreenSceneRoundTrip(scr: Screen, x: real, y: real)
    ensures var p := Screen2Scene(scr, x, y); ScreenX(scr, p.0) == x && ScreenY(scr, p.1) == y
  {
    ColumnRoundTrip(scr.sx, scr.sy, x);
    RowRoundTrip(scr.sy, y);
  }

  /** Scene to screen and back is the identity on both axes. */
  lemma SceneScreenRoundTrip(scr: Screen, u: real, v: real)
    ensures SceneX(scr, ScreenX(scr, u)) == u && SceneY(scr, ScreenY(scr, v)) == v
  {
    SceneXRoundTrip(scr.sx, scr.sy, u);
    SceneYRoundTrip(scr.sy, v);
  }

  /** The screen's centre, top-left and bottom-right corners land on the
      scene's centre, top-left and bottom-right corners. */
  lemma SceneLandmarks(scr: Screen)
    ensures Screen2Scene(scr, scr.sx / 2.0, scr.sy / 2.0) == (0.0, 0.0)
    ensures Screen2Scene(scr, 0.0, 0.0) == (-AspectRatio(scr), 1.0)
    ensures Screen2Scene(scr, scr.sx, scr.sy) == (AspectRatio(scr), -1.0)
  {
    var sx, sy := scr.sx, scr.sy;
    assert 2.0 * (sx / 2.0) == sx && -2.0 * (sy / 2.0) == -sy;
    DivUnique(sx, sx, 1.0);
    DivUnique(-sy, sy, -1.0);
    assert SceneX(scr, sx / 2.0) == (1.0 - 1.0) * AspectRatio(scr) == 0.0;
    assert SceneY(scr, sy / 2.0) == -1.0 + 1.0;
    DivUnique(2.0 * sx, sx, 2.0);
    DivUnique(-2.0 * sy, sy, -2.0);
    assert SceneX(scr, sx) == (2.0 - 1.0) * AspectRatio(scr);
    assert SceneY(scr, sy) == -2.0 + 1.0;
    assert SceneX(scr, 0.0) == (0.0 - 1.0) * AspectRatio(scr);
  }

  /** Scene x grows strictly with screen x, whatever the row; scene y falls
      strictly as screen y grows, whatever the column. */
  lemma SceneMonotone(scr: Screen, x: real, y: real, x': real, y': real)
    ensures x < x' ==> Screen2Scene(scr, x, y).0 < Screen2Scene(scr, x', y').0
    ensures y < y' ==> Screen2Scene(scr, x, y).1 > Screen2Scene(scr, x', y').1
    ensures Screen2Scene(scr, x, y).0 == Screen2Scene(scr, x, y').0
    ensures Screen2Scene(scr, x, y).1 == Screen2Scene(scr, x', y).1
  {
    if x < x' {
      DivStrict(2.0 * x, 2.0 * x', scr.sx);
    }
    if y < y' {
      DivStrict(2.0 * y, 2.0 * y', scr.sy);
    }
  }

  /** Points on the screen map into `[-ar, ar] x [-1, 1]`. */
  lemma SceneBounds(scr: Screen, x: real, y: real)
    requires 0.0 <= x <= scr.sx && 0.0 <= y <= scr.sy
    ensures var p := Screen2Scene(scr, x, y);
      -AspectRatio(scr) <= p.0 <= AspectRatio(scr) && -1.0 <= p.1 <= 1.0
  {
    SceneLandmarks(scr);
    SceneMonotone(scr, 0.0, 0.0, x, y);
    SceneMonotone(scr, x, y, scr.sx, scr.sy);
  }

  /** `int(float(p) / size * n)`: one axis of `screen2image`. */
  function ImageCoord(p: real, size: real, n: int): int
    requires size > 0.0
  {
    Trunc(p / size * n as real)
  }

  /** `screen2image(x, y, w, h)`: screen pixels to the `(column, row)` pixel
      of a `w x h` image stretched over the whole screen. */
  function Screen2Image(scr: Screen, x: real, y: real, w: int, h: int): (int, int)
  {
    (ImageCoord(x, scr.sx, w), ImageCoord(y, scr.sy, h))
  }

  lemma CoordBounds(p: real, size: real, n: int)
    requires 0.0 <= p < size && n > 0
    ensures 0 <= ImageCoord(p, size, n) < n
  {
    var a := p / size;
    DivMonotone(0.0, p, size);
    DivStrict(p, size, size);
    assert size / size == 1.0;
    var t := a * n as real;
    MulMonotone(0.0, a, n as real);
    assert n as real - t == (1.0 - a) * n as real;
  }

  lemma CoordMonotone(p: real, p': real, size: real, n: nat)
    requires size > 0.0 && p <= p'
    ensures ImageCoord(p, size, n) <= ImageCoord(p', size, n)
  {
    DivMonotone(p, p', size);
    MulMonotone(p / size, p' / size, n as real);
    TruncMonotone(p / size * n as real, p' / size * n as real);
  }

  lemma DivCommute(t: real, size: real, nr: real)
    requires nr != 0.0
    ensures t * size / nr == t / nr * size
  {
    var q := t / nr;
    DivMul(t, nr);
    MulDiv(q * size, nr);
    assert q * size * nr == t * size;
  }

  /** A scaled position `t` within `[c, c + 1)` puts the screen position
      within the span of image pixel `c`. */
  lemma SpanContains(c: real, t: real, p: real, size: real, nr: real)
    requires size > 0.0 && nr > 0.0 && t == p / size * nr && c <= t < c + 1.0
    ensures c * size / nr <= p < (c + 1.0) * size / nr
  {
    var a := p / size;
    MulDiv(a, nr);
    DivMul(p, size);
    var lo := c * size;
    var hi := (c + 1.0) * size;
    MulMonotone(c, t, size);
    var g := c + 1.0 - t;
    assert g * size > 0.0;
    assert hi - t * size == g * size;
    DivMonotone(lo, t * size, nr);
    DivStrict(t * size, hi, nr);
    DivCommute(t, size, nr);
  }

  lemma CoordCovers(p: real, size: real, n: int)
    requires 0.0 <= p && size > 0.0 && n > 0
    ensures var c := ImageCoord(p, size, n);
      c as real * size / n as real <= p < (c as real + 1.0) * size / n as real
  {
    var a := p / size;
    DivMonotone(0.0, p, size);
    var t := a * n as real;
    MulMonotone(0.0, a, n as real);
    var c := Trunc(t);
    assert c == ImageCoord(p, size, n);
    var cr, nr := c as real, n as real;
    SpanContains(cr, t, p, size, nr);
  }

  /** A point on the screen lands on a pixel of the image. */
  lemma ImageBounds(scr: Screen, x: real, y: real, w: int, h: int)
    requires 0.0 <= x < scr.sx && 0.0 <= y < scr.sy && w > 0 && h > 0
    ensures var p := Screen2Image(scr, x, y, w, h); 0 <= p.0 < w && 0 <= p.1 < h
  {
    CoordBounds(x, scr.sx, w);
    CoordBounds(y, scr.sy, h);
  }

  /** Moving right (down) on the screen never moves left (up) in the image. */
  lemma ImageMonotone(scr: Screen, x: real, y: real, x': real, y': real, w: nat, h: nat)
    requires x <= x' && y <= y'
    ensures Screen2Image(scr, x, y, w, h).0 <= Screen2Image(scr, x', y', w, h).0
    ensures Screen2Image(scr, x, y, w, h).1 <= Screen2Image(scr, x', y', w, h).1
  {
    CoordMonotone(x, x', scr.sx, w);
    CoordMonotone(y, y', scr.sy, h);
  }

  /** The image pixel a screen point maps to covers that point: the pixel's
      span on the screen, one `size / n` wide, contains the point, on both axes. */
  lemma ImagePixelCovers(scr: Screen, x: real, y: real, w: int, h: int)
    requires 0.0 <= x && 0.0 <= y && w > 0 && h > 0
    ensures var p := Screen2Image(scr, x, y, w, h);
      p.0 as real * scr.sx / w as real <= x < (p.0 as real + 1.0) * scr.sx / w as real &&
      p.1 as real * scr.sy / h as real <= y < (p.1 as real + 1.0) * scr.sy / h as real
  {
    CoordCovers(x, scr.sx, w);
    CoordCovers(y, scr.sy, h);
  }

  // ---------------------------------------------------------------------
  // simple_almost_equal
  // ---------------------------------------------------------------------

  function Pow10(n: nat): (p: nat)
    ensures p >= 1
  {
    if n == 0 then 1 else 10 * Pow10(n - 1)
  }

  /** `10 ** dec` (a float for a negative `dec`). */
  function Scale(dec: int): (s: real)
    ensures s > 0.0
  {
    if dec >= 0 then Pow10(dec) as real else 1.0 / Pow10(-dec) as real
  }

  /** `simple_almost_equal(a, b, dec)`: equal, or equal once scaled by
      `10 ** dec` and floored. */
  predicate SimpleAlmostEqual(a: real, b: real, dec: int := 3)
  {
    a == b || FloorTimes(a, Scale(dec)) == FloorTimes(b, Scale(dec))
  }

  /** Values reported as almost equal differ by less than `10 ** -dec`. */
  lemma AlmostEqualIsClose(a: real, b: real, dec: int)
    requires SimpleAlmostEqual(a, b, dec)
    ensures -1.0 / Scale(dec) < a - b < 1.0 / Scale(dec)
  {
    if a != b {
      SameFloorClose(a, b, Scale(dec));
    }
  }

  /** Closeness alone is not enough: values either side of a multiple of
      `10 ** -dec` are not almost equal, however close they are. */
  lemma AlmostEqualNotByDistance()
    ensures !SimpleAlmostEqual(0.9995, 1.0, 3)
  {
    assert Scale(3) == 1000.0;
    assert FloorTimes(0.9995, 1000.0) == 999;
  }

  // ---------------------------------------------------------------------
  // Gaze samples and the mask test
  // ---------------------------------------------------------------------

  /** A gaze sample: the bounding rectangle of the detected eye, in screen pixels. */
  datatype Gaze = Gaze(x1: real, y1: real, x2: real, y2: real)

  /** The centre of a gaze rectangle. */
  function Mid(g: Gaze): (real, real)
  {
    ((g.x1 + g.x2) / 2.0, (g.y1 + g.y2) / 2.0)
  }

  /** numpy's rule for one index into an axis of length `n`: negative
      indices count from the end; anything else outside the axis raises. */
  function NpIndex(i: int, n: nat): (k: Option<nat>)
    ensures k.Some? <==> -(n as int) <= i < n
    ensures k.Some? ==> k.value < n && (0 <= i ==> k.value == i) && (i < 0 ==> k.value == i + n)
  {
    if 0 <= i < n then Some(i) else if -(n as int) <= i < 0 then Some(i + n) else None
  }

  /** Every row of a mask has as many values as the first. */
  ghost predicate Rectangular(m: seq<seq<int>>)
  {
    forall r :: 0 <= r < |m| ==> |m[r]| == |m[0]|
  }

  /** A mask image as the module loads it into a numpy array: rows of
      integer pixel values, all rows of one width. It is only ever read. */
  type Mask = m: seq<seq<int>> | Rectangular(m) witness []

  /** The mask's height, `mask.shape[0]`. */
  function Rows(mask: Mask): nat
  {
    |mask|
  }

  /** The mask's width, `mask.shape[1]`. */
  function Cols(mask: Mask): nat
  {
    if |mask| == 0 then 0 else |mask[0]|
  }

  /** `mask[row, col]`, or `None` where numpy raises an IndexError. */
  function MaskAt(mask: Mask, row: int, col: int): Option<int>
  {
    match (NpIndex(row, Rows(mask)), NpIndex(col, Cols(mask)))
    case (Some(r), Some(c)) => Some(mask[r][c])
    case _ => None
  }

  /** `im_coord`: the `(column, row)` image pixel of each window sample's centre. */
  function Pixels(scr: Screen, window: seq<Gaze>, w: int, h: int): seq<(int, int)>
  {
    seq(|window|, k requires 0 <= k < |window| =>
      Screen2Image(scr, Mid(window[k]).0, Mid(window[k]).1, w, h))
  }

  /** `sum(mask[rows, cols])`, or `None` if any pixel lies outside the mask. */
  function MaskSum(mask: Mask, pix: seq<(int, int)>): Option<int>
  {
    if |pix| == 0 then Some(0)
    else
      match (MaskAt(mask, pix[0].1, pix[0].0), MaskSum(mask, pix[1..]))
      case (Some(v), Some(rest)) => Some(v + rest)
      case _ => None
  }

  /** The sum exists exactly when numpy can index every pixel. */
  lemma {:induction false} MaskSumDefined(mask: Mask, pix: seq<(int, int)>)
    ensures MaskSum(mask, pix).Some? <==> forall k :: 0 <= k < |pix| ==> MaskAt(mask, pix[k].1, pix[k].0).Some?
  {
    if |pix| > 0 {
      MaskSumDefined(mask, pix[1..]);
      assert forall k :: 1 <= k < |pix| ==> pix[1..][k - 1] == pix[k];
    }
  }

  /** What the check at the end of a frame decides about the window. */
  datatype Verdict =
    | NotFull      // fewer than fixationframes samples: no check
    | OnTarget     // fixation: the loop breaks
    | OffTarget    // checked, below threshold: keep searching
    | IndexFault   // numpy raised IndexError: the run stops

  predicate Decisive(v: Verdict)
  {
    v == OnTarget || v == IndexFault
  }

  /** The check on a window whose capacity is `n`: only a full window is
      tested; then the mask values under its centres must sum to more than
      `0.9 * n`. An empty full window (`n == 0`) yields a one-dimensional
      empty `im_coord`, which numpy cannot index by column. */
  function Check(scr: Screen, mask: Mask, w: int, h: int, window: seq<Gaze>, n: nat): Verdict
  {
    if |window| != n then NotFull
    else if n == 0 then IndexFault
    else
      match MaskSum(mask, Pixels(scr, window, w, h))
      case None => IndexFault
      case Some(s) => if s as real > 0.9 * n as real then OnTarget else OffTarget
  }

  /** A mask whose every pixel is 0 or 1, as a black-and-white mask image gives. */
  ghost predicate Binary(mask: Mask)
  {
    forall r, c :: 0 <= r < Rows(mask) && 0 <= c < Cols(mask) ==> mask[r][c] == 0 || mask[r][c] == 1
  }

  /** How many of the pixels hit a nonzero mask value. */
  function Hits(mask: Mask, pix: seq<(int, int)>): nat
  {
    if |pix| == 0 then 0
    else Hits(mask, pix[1..]) + (if MaskAt(mask, pix[0].1, pix[0].0).GetOr(0) != 0 then 1 else 0)
  }

  /** On a 0/1 mask the sum is the number of pixels on target. */
  lemma {:induction false} BinarySumCountsHits(mask: Mask, pix: seq<(int, int)>)
    requires Binary(mask)
    requires MaskSum(mask, pix).Some?
    ensures MaskSum(mask, pix) == Some(Hits(mask, pix))
  {
    if |pix| > 0 {
      BinarySumCountsHits(mask, pix[1..]);
    }
  }

  /** With a 0/1 mask and every centre inside it, a full window is a
      fixation exactly when more than 90% of its samples are on target. */
  lemma BinaryMaskFixation(scr: Screen, mask: Mask, w: int, h: int, window: seq<Gaze>, n: nat)
    requires Binary(mask) && |window| == n > 0
    requires MaskSum(mask, Pixels(scr, window, w, h)).Some?
    ensures var hits := Hits(mask, Pixels(scr, window, w, h));
      Check(scr, mask, w, h, window, n) == (if 10 * hits > 9 * n then OnTarget else OffTarget)
  {
    BinarySumCountsHits(mask, Pixels(scr, window, w, h));
  }

  /** When the mask has the image's size and every centre in a full window
      lies on the screen, the check cannot fail with an IndexError. */
  lemma OnScreenNeverFaults(scr: Screen, mask: Mask, window: seq<Gaze>, n: nat)
    requires |window| == n > 0 && Rows(mask) > 0 && Cols(mask) > 0
    requires forall k :: 0 <= k < |window| ==>
      0.0 <= Mid(window[k]).0 < scr.sx && 0.0 <= Mid(window[k]).1 < scr.sy
    ensures Check(scr, mask, Cols(mask), Rows(mask), window, n) != IndexFault
  {
    var pix := Pixels(scr, window, Cols(mask), Rows(mask));
    forall k | 0 <= k < |pix|
      ensures MaskAt(mask, pix[k].1, pix[k].0).Some?
    {
      ImageBounds(scr, Mid(window[k]).0, Mid(window[k]).1, Cols(mask), Rows(mask));
    }
    MaskSumDefined(mask, pix);
  }

  // ---------------------------------------------------------------------
  // The search frame loop
  // ---------------------------------------------------------------------

  /** The samples `pull_chunk` returned at frame `f`; nothing arrives after
      the given chunks run out. */
  function ChunkAt(chunks: seq<seq<Gaze>>, f: nat): seq<Gaze>
  {
    if f < |chunks| then chunks[f] else []
  }

  /** Every sample pulled during frames `0 .. f - 1`, in arrival order. */
  function Pulled(chunks: seq<seq<Gaze>>, f: nat): seq<Gaze>
  {
    if f == 0 then [] else Pulled(chunks, f - 1) + ChunkAt(chunks, f - 1)
  }

  /** One search as the frame loop sees it: the screen, the image size
      the mask is indexed with, the dwell window's capacity `n`
      (`fixationframes`), what the window held when the image appeared,
      and the chunks the gaze stream delivers frame by frame. */
  datatype Search = Search(scr: Screen, width: int, height: int, n: nat,
                           start: seq<Gaze>, chunks: seq<seq<Gaze>>)

  /** The dwell window after `f` frames' chunks have been appended. */
  function WindowAt(s: Search, f: nat): seq<Gaze>
  {
    LastN(s.start + Pulled(s.chunks, f), s.n)
  }

  /** The check made at the end of frame `f`, on the window that includes
      that frame's chunk. */
  function VerdictAt(s: Search, mask: Mask, f: nat): Verdict
  {
    Check(s.scr, mask, s.width, s.height, WindowAt(s, f + 1), s.n)
  }

  /** `cursorPos` for a frame: the scene position of the centre of the
      chunk's last sample, on the engine's `(x, 0, z)` plane; the origin
      when the chunk is empty. */
  function CursorFor(scr: Screen, chunk: seq<Gaze>): Pos3
  {
    if |chunk| == 0 then Origin
    else
      var m := Mid(chunk[|chunk| - 1]);
      var g := Screen2Scene(scr, m.0, m.1);
      Pos3(g.0, 0.0, g.1)
  }

  function CursorAt(s: Search, f: nat): Pos3
  {
    CursorFor(s.scr, ChunkAt(s.chunks, f))
  }

  /** How a search ends: a fixation at a frame, the search time running
      out, or numpy raising an IndexError at a frame's check. */
  datatype SearchResult = Found(frame: nat) | TimedOut | Fault(frame: nat)

  /** The checks of frames `0 .. frames - 1`, each made as if no earlier
      frame had stopped the loop. */
  function Verdicts(s: Search, mask: Mask, frames: nat): (vs: seq<Verdict>)
    ensures |vs| == frames
  {
    if frames == 0 then [] else Verdicts(s, mask, frames - 1) + [VerdictAt(s, mask, frames - 1)]
  }

  /** Entry `f` of the checks is frame `f`'s check. */
  lemma {:induction false} VerdictsAt(s: Search, mask: Mask, frames: nat, f: nat)
    requires f < frames
    ensures Verdicts(s, mask, frames)[f] == VerdictAt(s, mask, f)
  {
    if f < frames - 1 {
      VerdictsAt(s, mask, frames - 1, f);
    }
  }

  /** Reference definition of the loop's outcome from frame `f` on: the
      first decisive check, if one comes before the checks run out. */
  function FirstDecisive(vs: seq<Verdict>, f: nat): SearchResult
    decreases |vs| - f
  {
    if f >= |vs| then TimedOut
    else
      match vs[f]
      case OnTarget => Found(f)
      case IndexFault => Fault(f)
      case _ => FirstDecisive(vs, f + 1)
  }

  /** What the frame loop of one search leads to. */
  function Outcome(s: Search, mask: Mask, frames: nat): SearchResult
  {
    FirstDecisive(Verdicts(s, mask, frames), 0)
  }

  /** Skipping indecisive checks does not change the outcome. */
  lemma {:induction false} FirstDecisiveSkips(vs: seq<Verdict>, f0: nat, f: nat)
    requires f0 <= f <= |vs|
    requires forall g :: f0 <= g < f ==> !Decisive(vs[g])
    ensures FirstDecisive(vs, f0) == FirstDecisive(vs, f)
    decreases f - f0
  {
    if f0 < f {
      FirstDecisiveSkips(vs, f0 + 1, f);
    }
  }

  /** Whatever `FirstDecisive` returns is justified by the checks from `f0` on. */
  lemma {:induction false} FirstDecisiveStops(vs: seq<Verdict>, f0: nat)
    ensures FirstDecisive(vs, f0).Found? ==>
      var f := FirstDecisive(vs, f0).frame;
      f0 <= f < |vs| && vs[f] == OnTarget && forall g :: f0 <= g < f ==> !Decisive(vs[g])
    ensures FirstDecisive(vs, f0).Fault? ==>
      var f := FirstDecisive(vs, f0).frame;
      f0 <= f < |vs| && vs[f] == IndexFault && forall g :: f0 <= g < f ==> !Decisive(vs[g])
    ensures FirstDecisive(vs, f0).TimedOut? ==> forall g :: f0 <= g < |vs| ==> !Decisive(vs[g])
    decreases |vs| - f0
  {
    if f0 < |vs| && !Decisive(vs[f0]) {
      FirstDecisiveStops(vs, f0 + 1);
    }
  }

  /** Regrouping a trace built piece by piece. */
  lemma Regroup(o: seq<Event>, x: seq<Event>, y: seq<Event>, z: seq<Event>, w: seq<Event>)
    ensures o + x + y + z + w == o + (x + y + z + w)
  {
  }

  /** The engine calls of a search, assembled from the cursor's
      appearance, the frame loop's calls as they depend on how the loop
      ended, and what follows the loop, are the search's events. */
  lemma SearchTraceAssembled(o: seq<Event>, s: Search, r: SearchResult, frames: nat, fadeFrames: nat,
                             at: Pos3, events: seq<Event>, t: seq<Event>)
    requires r.TimedOut? ==> events == FrameTrace(s, frames)
    requires r.Found? ==> events == FrameTrace(s, r.frame) + [UpdateCursor(CursorAt(s, r.frame)), RemoveCursor]
    requires r.Fault? ==> events == FrameTrace(s, r.frame) + [UpdateCursor(CursorAt(s, r.frame))]
    requires r.Fault? ==> t == o + [ShowCursor(at)] + Sleeps(fadeFrames) + events
    requires !r.Fault? ==> t == o + [ShowCursor(at)] + Sleeps(fadeFrames) + events + [RemoveCursor, Sleep]
    ensures t == o + SearchEvents(s, r, frames, fadeFrames, at)
  {
    var done := FrameTrace(s, Completed(r, frames));
    Regroup(o, [ShowCursor(at)], Sleeps(fadeFrames), done, Ending(s, r));
    if r.Fault? {
      assert events == done + Ending(s, r);
    } else {
      assert events + [RemoveCursor, Sleep] == done + Ending(s, r);
      assert t == o + [ShowCursor(at)] + Sleeps(fadeFrames) + (events + [RemoveCursor, Sleep]);
    }
  }

  /** The outcome is the first decisive frame: a fixation (or a fault) at
      frame `f` exactly when that frame's check says so and no earlier
      frame's check was decisive; a timeout exactly when no check before
      `frames` was decisive. */
  lemma OutcomeIsFirstDecisive(s: Search, mask: Mask, frames: nat, f: nat)
    ensures Outcome(s, mask, frames) == Found(f) <==>
      f < frames && VerdictAt(s, mask, f) == OnTarget &&
      forall g :: 0 <= g < f ==> !Decisive(VerdictAt(s, mask, g))
    ensures Outcome(s, mask, frames) == Fault(f) <==>
      f < frames && VerdictAt(s, mask, f) == IndexFault &&
      forall g :: 0 <= g < f ==> !Decisive(VerdictAt(s, mask, g))
    ensures Outcome(s, mask, frames) == TimedOut <==>
      forall g :: 0 <= g < frames ==> !Decisive(VerdictAt(s, mask, g))
  {
    var vs := Verdicts(s, mask, frames);
    forall g | 0 <= g < frames
      ensures vs[g] == VerdictAt(s, mask, g)
    {
      VerdictsAt(s, mask, frames, g);
    }
    FirstDecisiveStops(vs, 0);
    if f < frames && forall g :: 0 <= g < f ==> !Decisive(vs[g]) {
      FirstDecisiveSkips(vs, 0, f);
    }
    if forall g :: 0 <= g < frames ==> !Decisive(vs[g]) {
      FirstDecisiveSkips(vs, 0, frames);
    }
  }

  /** One frame's check decides the outcome from that frame on: a
      decisive check ends the search there, any other passes to the next
      frame. */
  lemma VerdictStep(s: Search, mask: Mask, frames: nat, f: nat)
    requires f < frames
    ensures var vs := Verdicts(s, mask, frames); var v := VerdictAt(s, mask, f);
      (v == OnTarget ==> FirstDecisive(vs, f) == Found(f)) &&
      (v == IndexFault ==> FirstDecisive(vs, f) == Fault(f)) &&
      (!Decisive(v) ==> FirstDecisive(vs, f) == FirstDecisive(vs, f + 1))
  {
    VerdictsAt(s, mask, frames, f);
  }

  /** The number of frames whose chunk was pulled and appended. */
  function Consumed(r: SearchResult, frames: nat): nat
  {
    if r.TimedOut? then frames else r.frame + 1
  }

  /** The number of frames that ran to their end (flush and sleep). */
  function Completed(r: SearchResult, frames: nat): nat
  {
    if r.TimedOut? then frames else r.frame
  }

  /** The engine calls of frames `0 .. k - 1` when none of them stops the
      loop: move the cursor, flush the inlet, sleep one frame. */
  function FrameTrace(s: Search, k: nat): (t: seq<Event>)
    ensures |t| == 3 * k
  {
    if k == 0 then []
    else FrameTrace(s, k - 1) + [UpdateCursor(CursorAt(s, k - 1)), Flush, Sleep]
  }

  /** What follows the completed frames: on a fixation the cursor moves,
      is removed inside the loop and removed again after it, and the blank
      pause follows; on a timeout the cursor is removed and the blank pause
      follows; on a fault the cursor has moved and nothing else happens. */
  function Ending(s: Search, r: SearchResult): seq<Event>
  {
    match r
    case Found(f) => [UpdateCursor(CursorAt(s, f)), RemoveCursor, RemoveCursor, Sleep]
    case TimedOut => [RemoveCursor, Sleep]
    case Fault(f) => [UpdateCursor(CursorAt(s, f))]
  }

  /** Frame `f` of the trace moves the cursor to that frame's last sample,
      flushes the inlet and sleeps. */
  lemma {:induction false} FrameTraceAt(s: Search, k: nat, f: nat)
    requires f < k
    ensures var t := FrameTrace(s, k);
      t[3 * f] == UpdateCursor(CursorAt(s, f)) && t[3 * f + 1] == Flush && t[3 * f + 2] == Sleep
  {
    if f < k - 1 {
      FrameTraceAt(s, k - 1, f);
    }
  }

  /** The whole trace of one search: the cursor appears where it was and
      fades in, then the frames run. */
  function SearchEvents(s: Search, r: SearchResult, frames: nat, fadeFrames: nat, at: Pos3): seq<Event>
  {
    [ShowCursor(at)] + Sleeps(fadeFrames) + FrameTrace(s, Completed(r, frames)) + Ending(s, r)
  }

  // ---------------------------------------------------------------------
  // Properties of the frame loop
  // ---------------------------------------------------------------------

  /** Later frames only add samples: what was pulled by frame `f` is a
      prefix of what was pulled by frame `g`. */
  lemma {:induction false} PulledGrows(chunks: seq<seq<Gaze>>, f: nat, g: nat)
    requires f <= g
    ensures Pulled(chunks, f) <= Pulled(chunks, g)
    decreases g - f
  {
    if f < g {
      PulledGrows(chunks, f, g - 1);
    }
  }

  /** The window is never cleared between images: until `n` new samples
      have arrived it still ends with the newest samples of the previous
      search, followed by everything pulled since. */
  lemma WindowCarriesOver(s: Search, f: nat)
    requires |Pulled(s.chunks, f)| < s.n
    ensures WindowAt(s, f) == LastN(s.start, s.n - |Pulled(s.chunks, f)|) + Pulled(s.chunks, f)
  {
    var p := Pulled(s.chunks, f);
    var w := WindowAt(s, f);
    var t := LastN(s.start, s.n - |p|);
    assert |w| == |t| + |p|;
    forall k | 0 <= k < |w|
      ensures w[k] == (t + p)[k]
    {
      if k < |t| {
        assert w[k] == s.start[|s.start| - |t| + k];
      } else {
        assert w[k] == p[k - |t|];
      }
    }
  }

  /** Once `n` samples have arrived during this search, the window no
      longer depends on what it held before. */
  lemma WindowForgetsStart(s: Search, f: nat)
    requires |Pulled(s.chunks, f)| >= s.n
    ensures WindowAt(s, f) == LastN(Pulled(s.chunks, f), s.n)
  {
    var p := Pulled(s.chunks, f);
    var w := WindowAt(s, f);
    forall k | 0 <= k < |w|
      ensures w[k] == LastN(p, s.n)[k]
    {
      assert w[k] == (s.start + p)[|s.start| + |p| - s.n + k];
    }
  }

  /** Appending frame `f`'s chunk to the window of frame `f` gives the
      window of frame `f + 1`. */
  lemma WindowStep(s: Search, f: nat)
    ensures LastN(WindowAt(s, f) + ChunkAt(s.chunks, f), s.n) == WindowAt(s, f + 1)
  {
    LastNAbsorbs(s.start + Pulled(s.chunks, f), ChunkAt(s.chunks, f), s.n);
    assert s.start + Pulled(s.chunks, f) + ChunkAt(s.chunks, f) == s.start + Pulled(s.chunks, f + 1);
  }

  /** A window that never fills never triggers a check: the search runs
      to its time limit. */
  lemma NeverFullTimesOut(s: Search, mask: Mask, frames: nat)
    requires |s.start| + |Pulled(s.chunks, frames)| < s.n
    ensures Outcome(s, mask, frames) == TimedOut
  {
    forall g | 0 <= g < frames
      ensures !Decisive(VerdictAt(s, mask, g))
    {
      PulledGrows(s.chunks, g + 1, frames);
    }
    OutcomeIsFirstDecisive(s, mask, frames, 0);
  }

  /** With `fixationframes == 0` the empty window counts as full at once,
      and its empty coordinate array makes the very first check fail. */
  lemma ZeroCapacityFaults(s: Search, mask: Mask, frames: nat)
    requires s.n == 0 && frames > 0
    ensures Outcome(s, mask, frames) == Fault(0)
  {
    OutcomeIsFirstDecisive(s, mask, frames, 0);
  }

  /** A fixation needs a full window: `n > 0` samples, counting those
      carried over from the previous search. */
  lemma FoundNeedsFullWindow(s: Search, mask: Mask, frames: nat, f: nat)
    requires Outcome(s, mask, frames) == Found(f)
    ensures f < frames && s.n > 0 && |s.start| + |Pulled(s.chunks, f + 1)| >= s.n
  {
    OutcomeIsFirstDecisive(s, mask, frames, f);
  }

  /** If no sample arrives in the first frame, the first check judges the
      previous search's window against the new image's mask; when that
      window was full and on target, the new search ends at frame 0. */
  lemma StaleWindowDecides(s: Search, mask: Mask, frames: nat)
    requires frames > 0 && |s.start| == s.n && ChunkAt(s.chunks, 0) == []
    ensures VerdictAt(s, mask, 0) == Check(s.scr, mask, s.width, s.height, s.start, s.n)
    ensures Check(s.scr, mask, s.width, s.height, s.start, s.n) == OnTarget ==>
      Outcome(s, mask, frames) == Found(0)
  {
    assert Pulled(s.chunks, 1) == [];
    assert s.start + [] == s.start;
    OutcomeIsFirstDecisive(s, mask, frames, 0);
  }

  /** The cursor of a frame whose last sample's centre is on the screen
      lies on the scene, at depth 0. */
  lemma CursorOnScreen(scr: Screen, chunk: seq<Gaze>)
    requires |chunk| > 0
    requires var m := Mid(chunk[|chunk| - 1]); 0.0 <= m.0 <= scr.sx && 0.0 <= m.1 <= scr.sy
    ensures var c := CursorFor(scr, chunk);
      -AspectRatio(scr) <= c.x <= AspectRatio(scr) && c.y == 0.0 && -1.0 <= c.z <= 1.0
  {
    var m := Mid(chunk[|chunk| - 1]);
    SceneBounds(scr, m.0, m.1);
  }
}
