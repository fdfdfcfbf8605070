/**
 * The black-hole render pipeline of `src/components/black-hole/index.tsx`.
 *
 * Shaders and the GL context are opaque: a draw call is recorded as the
 * pass, the textures bound to its channels, the render target it writes,
 * and the shared resolution and time cells it sees. `Pipeline.Frame` is the
 * per-frame callback; `Pipeline.CompositeToScreen` is the framework drawing
 * the final-composite mesh after the callback.
 */
module BlackHole {

  /** The five offscreen targets allocated at mount. */
  datatype Target = HistoryA | HistoryB | BloomTarget | BlurHTarget | BlurVTarget

  /** The textures a pass can sample: the two noise textures, or a target's texture. */
  datatype Texture = NoiseTexture | DustTexture | TargetTexture(target: Target)

  /** What `gl.setRenderTarget` points at: an offscreen target, or the screen (`null`). */
  datatype Destination = Offscreen(target: Target) | Screen

  datatype Pass = MainPass | BloomPass | BlurHPass | BlurVPass | FinalComposite

  datatype Resolution = Resolution(x: int, y: int, z: int)

  /**
   * One draw call: the inputs it sampled, where it wrote, and the shared
   * cells at the time of the call. Every pass binds the resolution cell;
   * only the main pass and the final composite bind the time cell.
   */
  datatype DrawCall = DrawCall(pass: Pass, inputs: seq<Texture>, output: Destination,
                               resolution: Resolution, time: real)

  datatype Size = Size(width: int, height: int)

  /** Which of the four offscreen passes has mounted its orthographic camera. */
  datatype Cameras = Cameras(main: bool, bloom: bool, blurH: bool, blurV: bool) {
    predicate AllMounted() { main && bloom && blurH && blurV }
  }

  /** A uniform value: a number, a `Vector2` or a `Vector3`. */
  datatype Param = Scalar(v: real) | Vec2(x: real, y: real) | Vec3(x: real, y: real, z: real)

  // ---------------------------------------------------------------------
  // Target sizing

  /**
   * One side of every offscreen target: the CSS size times the device
   * pixel ratio times the render scale, floored, and at least 1.
   */
  function TargetDimension(cssSize: real, devicePixelRatio: real, renderScale: real): (d: int)
    ensures d >= 1
    ensures cssSize * (devicePixelRatio * renderScale) >= 1.0 ==>
              d as real <= cssSize * (devicePixelRatio * renderScale) < d as real + 1.0
    ensures cssSize * (devicePixelRatio * renderScale) < 1.0 ==> d == 1
  {
    var scaled := cssSize * (devicePixelRatio * renderScale);
    if scaled.Floor > 1 then scaled.Floor else 1
  }

  function TargetSize(cssWidth: real, cssHeight: real, devicePixelRatio: real, renderScale: real): Size {
    Size(TargetDimension(cssWidth, devicePixelRatio, renderScale),
         TargetDimension(cssHeight, devicePixelRatio, renderScale))
  }

  /** A shader clock: elapsed seconds times a control-panel time scale. */
  function ScaledClock(elapsed: real, scale: real): real {
    elapsed * scale
  }

  // ---------------------------------------------------------------------
  // Noise textures

  newtype Byte = x: int | 0 <= x < 256

  /** The store into a `Uint8Array` element (ToUint8): truncate toward zero, then wrap modulo 256. */
  function ToUint8(x: real): Byte {
    var t := if x >= 0.0 then x.Floor else -((-x).Floor);
    (t % 256) as Byte
  }

  /**
   * Byte `j` of the noise buffer when the k-th call of `Math.random()`
   * returns `draw(k)`: the three colour bytes of pixel p take draws 3p,
   * 3p+1 and 3p+2; the alpha byte is 255.
   */
  function NoiseByte(draw: nat -> real, j: nat): Byte {
    if j % 4 == 3 then 255 else ToUint8(draw(3 * (j / 4) + j % 4) * 255.0)
  }

  /** The four bytes of pixel `p`, starting at byte `i`, take draws `k` = 3p, k+1 and k+2 and an opaque alpha. */
  lemma NoisePixel(draw: nat -> real, p: nat, i: nat, k: nat)
    requires i == 4 * p && k == 3 * p
    ensures NoiseByte(draw, i) == ToUint8(draw(k) * 255.0)
    ensures NoiseByte(draw, i + 1) == ToUint8(draw(k + 1) * 255.0)
    ensures NoiseByte(draw, i + 2) == ToUint8(draw(k + 2) * 255.0)
    ensures NoiseByte(draw, i + 3) == 255
  {
    assert i % 4 == 0 && i / 4 == p;
    assert (i + 1) % 4 == 1 && (i + 1) / 4 == p;
    assert (i + 2) % 4 == 2 && (i + 2) / 4 == p;
    assert (i + 3) % 4 == 3;
  }

  /**
   * `createNoiseTexture(size)`: the RGBA byte buffer, filled four bytes at
   * a time; `k` counts the calls of `Math.random()` made so far.
   */
  method CreateNoiseTexture(size: nat, draw: nat -> real) returns (data: array<Byte>)
    ensures fresh(data)
    ensures data.Length == size * size * 4
    ensures forall j :: 0 <= j < data.Length ==> data[j] == NoiseByte(draw, j)
  {
    var n := size * size * 4;
    data := new Byte[n];
    var i, k := 0, 0;
    ghost var pixel := 0;
    while i < n
      invariant i == 4 * pixel && k == 3 * pixel && 4 * pixel <= n
      invariant forall j :: 0 <= j < i ==> data[j] == NoiseByte(draw, j)
    {
      NoisePixel(draw, pixel, i, k);
      data[i] := ToUint8(draw(k) * 255.0);
      data[i + 1] := ToUint8(draw(k + 1) * 255.0);
      data[i + 2] := ToUint8(draw(k + 2) * 255.0);
      data[i + 3] := 255;
      i, k, pixel := i + 4, k + 3, pixel + 1;
    }
  }

  /** Every alpha byte is opaque, and with draws in [0, 1) every colour byte lies in 0..254. */
  lemma NoiseBytesInRange(draw: nat -> real, j: nat)
    requires forall k :: 0.0 <= draw(k) < 1.0
    ensures j % 4 == 3 ==> NoiseByte(draw, j) == 255
    ensures j % 4 != 3 ==> 0 <= NoiseByte(draw, j) <= 254
  {
    if j % 4 != 3 {
      var x := draw(3 * (j / 4) + j % 4) * 255.0;
      assert 0.0 <= x < 255.0;
      assert x.Floor <= 254;
    }
  }

  // ---------------------------------------------------------------------
  // Control panel values and the uniform cells they feed

  /** The values of the control panel (`useControls`). */
  datatype Controls = Controls(
    far: real, eyeDepth: real, viewOffsetX: real, viewOffsetY: real,
    warpAmount: real, discRadius: real, discWidth: real,
    timeScale: real, starTimeScale: real, temporalBlend: real, temporalJitter: real,
    exposure: real, highlightClamp: real,
    toneMapPowerR: real, toneMapPowerG: real, toneMapPowerB: real,
    finalGamma: real, saturation: real,
    colorGainR: real, colorGainG: real, colorGainB: real,
    alphaThreshold: real, alphaSoftness: real, bloomStrength: real, renderScale: real,
    starZoom: real, starSpeed: real, starBrightness: real, starDarkmatter: real,
    starDistfading: real, starSaturation: real, starFormuparam: real, starTile: real,
    starStepsize: real, starCenterX: real, starCenterY: real,
    starHoleRadius: real, starHoleSoftness: real)

  /** The main pass's tunable cells as first created. */
  const InitialMainParams: map<string, Param> := map[
    "uWarpAmount" := Scalar(5.0), "uDiscRadius" := Scalar(3.2), "uDiscWidth" := Scalar(5.3),
    "uFar" := Scalar(15.0), "uEyeDepth" := Scalar(6.0), "uViewOffset" := Vec2(0.35, -0.35),
    "uTemporalBlend" := Scalar(0.85), "uTemporalJitter" := Scalar(1.0)]

  /** The final composite's tunable cells as first created. */
  const InitialFinalParams: map<string, Param> := map[
    "uBloomStrength" := Scalar(0.08), "uExposure" := Scalar(200.0),
    "uHighlightClamp" := Scalar(1.0), "uToneMapPower" := Vec3(1.3, 1.2, 1.0),
    "uFinalGamma" := Scalar(0.7 / 2.2), "uSaturation" := Scalar(1.0),
    "uColorGain" := Vec3(1.0, 1.0, 1.0), "uAlphaThreshold" := Scalar(0.02),
    "uAlphaSoftness" := Scalar(0.15), "uStarZoom" := Scalar(1.2), "uStarSpeed" := Scalar(0.01),
    "uStarBrightness" := Scalar(0.0015), "uStarDarkmatter" := Scalar(1.0),
    "uStarDistfading" := Scalar(0.73), "uStarSaturation" := Scalar(1.0),
    "uStarFormuparam" := Scalar(0.57), "uStarTile" := Scalar(1.0), "uStarStepsize" := Scalar(0.2),
    "uStarCenter" := Vec2(0.35, 0.6), "uViewOffset" := Vec2(-0.3, 0.3),
    "uStarHoleRadius" := Scalar(0.25), "uStarHoleSoftness" := Scalar(0.08)]

  /** The cells the main-pass effect writes from the controls. */
  function MainControlCells(c: Controls): map<string, Param> {
    map[
      "uWarpAmount" := Scalar(c.warpAmount), "uDiscRadius" := Scalar(c.discRadius),
      "uDiscWidth" := Scalar(c.discWidth), "uFar" := Scalar(c.far),
      "uEyeDepth" := Scalar(c.eyeDepth), "uViewOffset" := Vec2(c.viewOffsetX, c.viewOffsetY),
      "uTemporalBlend" := Scalar(c.temporalBlend), "uTemporalJitter" := Scalar(c.temporalJitter)]
  }

  /** The cells the final-composite effect writes from the controls. */
  function FinalControlCells(c: Controls): map<string, Param> {
    map[
      "uBloomStrength" := Scalar(c.bloomStrength), "uExposure" := Scalar(c.exposure),
      "uHighlightClamp" := Scalar(c.highlightClamp),
      "uToneMapPower" := Vec3(c.toneMapPowerR, c.toneMapPowerG, c.toneMapPowerB),
      "uFinalGamma" := Scalar(c.finalGamma), "uSaturation" := Scalar(c.saturation),
      "uColorGain" := Vec3(c.colorGainR, c.colorGainG, c.colorGainB),
      "uAlphaThreshold" := Scalar(c.alphaThreshold), "uAlphaSoftness" := Scalar(c.alphaSoftness),
      "uStarZoom" := Scalar(c.starZoom), "uStarSpeed" := Scalar(c.starSpeed),
      "uStarBrightness" := Scalar(c.starBrightness), "uStarDarkmatter" := Scalar(c.starDarkmatter),
      "uStarDistfading" := Scalar(c.starDistfading), "uStarSaturation" := Scalar(c.starSaturation),
      "uStarFormuparam" := Scalar(c.starFormuparam), "uStarTile" := Scalar(c.starTile),
      "uStarStepsize" := Scalar(c.starStepsize), "uStarCenter" := Vec2(c.starCenterX, c.starCenterY),
      "uViewOffset" := Vec2(c.viewOffsetX, c.viewOffsetY),
      "uStarHoleRadius" := Scalar(c.starHoleRadius), "uStarHoleSoftness" := Scalar(c.starHoleSoftness)]
  }

  /**
   * The effects only overwrite cells that exist, so the set of cell names
   * never changes; and both passes receive the same view offset.
   */
  lemma ControlCellsCoverInitialCells(c: Controls)
    ensures MainControlCells(c).Keys == InitialMainParams.Keys
    ensures FinalControlCells(c).Keys == InitialFinalParams.Keys
    ensures MainControlCells(c)["uViewOffset"] == FinalControlCells(c)["uViewOffset"]
  {
  }

  // ---------------------------------------------------------------------
  // The draw calls of one rendered frame

  /**
   * The four offscreen draw calls of a frame whose history roles are
   * (`read`, `write`), at resolution `res` and time `time`.
   */
  function FrameDraws(read: Target, write: Target, res: Resolution, time: real): (d: seq<DrawCall>)
    ensures |d| == 4
  {
    [DrawCall(MainPass, [NoiseTexture, DustTexture, TargetTexture(read)], Offscreen(write), res, time),
     DrawCall(BloomPass, [TargetTexture(write)], Offscreen(BloomTarget), res, time),
     DrawCall(BlurHPass, [TargetTexture(BloomTarget)], Offscreen(BlurHTarget), res, time),
     DrawCall(BlurVPass, [TargetTexture(BlurHTarget)], Offscreen(BlurVTarget), res, time)]
  }

  /** Each draw call after the first samples the target the previous one wrote. */
  predicate Chained(d: seq<DrawCall>) {
    forall k :: 0 <= k < |d| - 1 ==>
      d[k].output.Offscreen? && TargetTexture(d[k].output.target) in d[k + 1].inputs
  }

  /** No draw call samples the target it is writing. */
  predicate NoFeedbackLoop(d: seq<DrawCall>) {
    forall k :: 0 <= k < |d| && d[k].output.Offscreen? ==> TargetTexture(d[k].output.target) !in d[k].inputs
  }

  /**
   * A frame is a chain main → bloom → horizontal blur → vertical blur; no
   * pass reads the target it writes; bloom reads the main pass's output,
   * not the previous frame; and all four calls are made with the same
   * resolution and time cells.
   */
  lemma FrameDrawsAreChained(read: Target, write: Target, res: Resolution, time: real)
    requires read != write && read in {HistoryA, HistoryB} && write in {HistoryA, HistoryB}
    ensures Chained(FrameDraws(read, write, res, time))
    ensures NoFeedbackLoop(FrameDraws(read, write, res, time))
    ensures FrameDraws(read, write, res, time)[1].inputs == [TargetTexture(write)]
    ensures TargetTexture(read) !in FrameDraws(read, write, res, time)[1].inputs
    ensures forall k :: 0 <= k < 4 ==> FrameDraws(read, write, res, time)[k].resolution == res &&
                                       FrameDraws(read, write, res, time)[k].time == time
  {
  }

  /**
   * The offscreen draw calls of the rendered frames whose shared time cell
   * held `times[0]`, `times[1]`, …; the first frame has history roles
   * (`read`, `write`).
   */
  function Frames(times: seq<real>, read: Target, write: Target, res: Resolution): (d: seq<DrawCall>)
    ensures |d| == 4 * |times|
    decreases |times|
  {
    if times == [] then []
    else FrameDraws(read, write, res, times[0]) + Frames(times[1..], write, read, res)
  }

  /**
   * Ping-pong: frame k's main pass reads one history target and writes the
   * other, the roles alternating with k, so frame k+1 reads what frame k
   * wrote; it sees frame k's time.
   */
  lemma {:induction false} FramesMainPass(times: seq<real>, read: Target, write: Target, res: Resolution, k: nat)
    requires k < |times|
    ensures Frames(times, read, write, res)[4 * k] ==
              DrawCall(MainPass,
                       [NoiseTexture, DustTexture, TargetTexture(if k % 2 == 0 then read else write)],
                       Offscreen(if k % 2 == 0 then write else read), res, times[k])
    decreases k
  {
    var d := Frames(times, read, write, res);
    if k > 0 {
      FramesMainPass(times[1..], write, read, res, k - 1);
      assert d[4 * k] == Frames(times[1..], write, read, res)[4 * (k - 1)];
    }
  }

  /** Every draw call of frame k sees frame k's time and the one resolution. */
  lemma {:induction false} FramesTime(times: seq<real>, read: Target, write: Target, res: Resolution, k: nat, j: nat)
    requires k < |times| && j < 4
    ensures Frames(times, read, write, res)[4 * k + j].time == times[k]
    ensures Frames(times, read, write, res)[4 * k + j].resolution == res
    decreases k
  {
    var d := Frames(times, read, write, res);
    if k > 0 {
      FramesTime(times[1..], write, read, res, k - 1, j);
      assert d[4 * k + j] == Frames(times[1..], write, read, res)[4 * (k - 1) + j];
    } else {
      assert d[j] == FrameDraws(read, write, res, times[0])[j];
    }
  }

  /** Whether `n` frames leave the history roles swapped. */
  predicate Odd(n: nat) {
    if n == 0 then false else !Odd(n - 1)
  }

  lemma {:induction false} OddMod(n: nat)
    ensures Odd(n) <==> n % 2 == 1
  {
    if n > 0 {
      OddMod(n - 1);
    }
  }

  /** Rendering one more frame appends its draw calls, with the roles the parity of the frames before it gives. */
  lemma {:induction false} FramesSnoc(times: seq<real>, t: real, read: Target, write: Target, res: Resolution,
                                      r: Target, w: Target)
    requires if Odd(|times|) then r == write && w == read else r == read && w == write
    ensures Frames(times + [t], read, write, res) == Frames(times, read, write, res) + FrameDraws(r, w, res, t)
    decreases |times|
  {
    if times == [] {
      assert (times + [t])[1..] == [];
    } else {
      assert (times + [t])[0] == times[0];
      assert (times + [t])[1..] == times[1..] + [t];
      FramesSnoc(times[1..], t, write, read, res, r, w);
    }
  }

  /** The temporal feedback: each frame's main pass samples the target the previous frame's main pass wrote. */
  lemma FramesFeedBack(times: seq<real>, read: Target, write: Target, res: Resolution, k: nat)
    requires 0 < k < |times|
    ensures var previous := Frames(times, read, write, res)[4 * (k - 1)];
            var current := Frames(times, read, write, res)[4 * k];
            previous.output.Offscreen? && |current.inputs| == 3 &&
            current.inputs[2] == TargetTexture(previous.output.target)
  {
    FramesMainPass(times, read, write, res, k);
    FramesMainPass(times, read, write, res, k - 1);
  }

  // ---------------------------------------------------------------------
  // The pipeline

  class Pipeline {
    /** Width and height shared by all five offscreen targets. */
    var size: Size
    /** The history pair: `history[readIdx]` is `historyRef.current.read`. */
    const history: array<Target>
    var readIdx: nat
    var writeIdx: nat
    /** Shared cells (`sharedUniforms`) and the final pass's star clock. */
    var resolution: Resolution
    var time: real
    var starTime: real
    /** Texture channel cells rebound every frame. */
    var mainChannel2: Texture
    var bloomChannel0: Texture
    var blurHChannel0: Texture
    var blurVChannel0: Texture
    var finalChannel0: Texture
    var finalChannel3: Texture
    /** Tunable cells of the main pass and the final composite. */
    var mainParams: map<string, Param>
    var finalParams: map<string, Param>
    /** GL state. */
    var renderTarget: Destination
    var scissorTest: bool
    /** Every draw call issued so far, in order. */
    var trace: seq<DrawCall>

    ghost predicate Valid()
      reads this, history
    {
      history.Length == 2 && history[0] == HistoryA && history[1] == HistoryB &&
      readIdx < 2 && writeIdx < 2 && readIdx != writeIdx &&
      size.width >= 1 && size.height >= 1 &&
      renderTarget == Screen
    }

    function ReadTarget(): Target
      reads this, history
      requires Valid()
    {
      history[readIdx]
    }

    function WriteTarget(): Target
      reads this, history
      requires Valid()
    {
      history[writeIdx]
    }

    /** Mount: five targets of one size, roles (historyA, historyB), every channel on the noise texture. */
    constructor (cssWidth: real, cssHeight: real, devicePixelRatio: real, renderScale: real)
      ensures Valid() && fresh(history)
      ensures size == TargetSize(cssWidth, cssHeight, devicePixelRatio, renderScale)
      ensures ReadTarget() == HistoryA && WriteTarget() == HistoryB
      ensures mainParams == InitialMainParams && finalParams == InitialFinalParams
      ensures finalChannel0 == NoiseTexture && finalChannel3 == NoiseTexture && mainChannel2 == NoiseTexture
      ensures trace == []
    {
      size := TargetSize(cssWidth, cssHeight, devicePixelRatio, renderScale);
      history := new Target[2][HistoryA, HistoryB];
      readIdx, writeIdx := 0, 1;
      resolution := Resolution(0, 0, 0);
      time, starTime := 0.0, 0.0;
      mainChannel2 := NoiseTexture;
      bloomChannel0, blurHChannel0, blurVChannel0 := NoiseTexture, NoiseTexture, NoiseTexture;
      finalChannel0, finalChannel3 := NoiseTexture, NoiseTexture;
      mainParams, finalParams := InitialMainParams, InitialFinalParams;
      renderTarget := Screen;
      scissorTest := false;
      trace := [];
    }

    /** A new drawable size or render scale: all five targets take the new size; roles are kept. */
    method Resize(cssWidth: real, cssHeight: real, devicePixelRatio: real, renderScale: real)
      requires Valid()
      modifies this
      ensures Valid()
      ensures size == TargetSize(cssWidth, cssHeight, devicePixelRatio, renderScale)
      ensures readIdx == old(readIdx) && writeIdx == old(writeIdx) && trace == old(trace)
      ensures mainParams == old(mainParams) && finalParams == old(finalParams)
    {
      size := TargetSize(cssWidth, cssHeight, devicePixelRatio, renderScale);
    }

    /** The effect run when the hook hands back new history targets: roles back to (historyA, historyB). */
    method ResetHistory()
      requires Valid()
      modifies this
      ensures Valid()
      ensures ReadTarget() == HistoryA && WriteTarget() == HistoryB
      ensures size == old(size) && trace == old(trace)
      ensures mainParams == old(mainParams) && finalParams == old(finalParams)
    {
      readIdx, writeIdx := 0, 1;
    }

    /** The effect copying the main-pass controls into their cells. */
    method ApplyMainControls(c: Controls)
      requires Valid()
      modifies this
      ensures Valid()
      ensures mainParams == old(mainParams) + MainControlCells(c)
      ensures finalParams == old(finalParams) && readIdx == old(readIdx) && writeIdx == old(writeIdx)
      ensures size == old(size) && trace == old(trace)
    {
      ControlCellsCoverInitialCells(c);
      mainParams := mainParams + MainControlCells(c);
    }

    /** The effect copying the final-composite controls into their cells. */
    method ApplyFinalControls(c: Controls)
      requires Valid()
      modifies this
      ensures Valid()
      ensures finalParams == old(finalParams) + FinalControlCells(c)
      ensures mainParams == old(mainParams) && readIdx == old(readIdx) && writeIdx == old(writeIdx)
      ensures size == old(size) && trace == old(trace)
    {
      ControlCellsCoverInitialCells(c);
      finalParams := finalParams + FinalControlCells(c);
    }

    /** The textures the given pass samples, as currently bound. */
    function Inputs(pass: Pass): seq<Texture>
      reads this
    {
      match pass
      case MainPass => [NoiseTexture, DustTexture, mainChannel2]
      case BloomPass => [bloomChannel0]
      case BlurHPass => [blurHChannel0]
      case BlurVPass => [blurVChannel0]
      case FinalComposite => [finalChannel0, finalChannel3]
    }

    /** `gl.render(scene, camera)`: one draw call into the current render target. */
    method Draw(pass: Pass)
      modifies this`trace
      ensures trace == old(trace) + [DrawCall(pass, Inputs(pass), renderTarget, resolution, time)]
    {
      trace := trace + [DrawCall(pass, Inputs(pass), renderTarget, resolution, time)];
    }

    /**
     * The four offscreen passes of a frame, each bound to its input and
     * drawn into its target in turn.
     */
    method OffscreenPasses()
      requires Valid()
      modifies this`trace, this`mainChannel2, this`bloomChannel0, this`blurHChannel0,
               this`blurVChannel0, this`renderTarget
      ensures trace == old(trace) + FrameDraws(old(ReadTarget()), old(WriteTarget()), resolution, time)
    {
      ghost var read, write := ReadTarget(), WriteTarget();
      mainChannel2 := TargetTexture(history[readIdx]);
      renderTarget := Offscreen(history[writeIdx]);
      Draw(MainPass);

      bloomChannel0 := TargetTexture(history[writeIdx]);
      renderTarget := Offscreen(BloomTarget);
      Draw(BloomPass);

      blurHChannel0 := TargetTexture(BloomTarget);
      renderTarget := Offscreen(BlurHTarget);
      Draw(BlurHPass);

      blurVChannel0 := TargetTexture(BlurHTarget);
      renderTarget := Offscreen(BlurVTarget);
      Draw(BlurVPass);
      assert trace == old(trace) + FrameDraws(read, write, resolution, time);
    }

    /**
     * The per-frame callback. The shared cells are written first, on every
     * frame. Without all four cameras nothing else happens. Otherwise the
     * four offscreen passes run in their fixed chain, the final composite's
     * inputs are bound to this frame's main output and vertical blur, the
     * render target returns to the screen, and the history roles swap.
     */
    method Frame(elapsed: real, timeScale: real, starTimeScale: real, cameras: Cameras)
      requires Valid()
      modifies this
      ensures Valid()
      ensures resolution == Resolution(size.width, size.height, 1)
      ensures time == ScaledClock(elapsed, timeScale) && starTime == ScaledClock(elapsed, starTimeScale)
      ensures size == old(size) && mainParams == old(mainParams) && finalParams == old(finalParams)
      ensures !cameras.AllMounted() ==>
                trace == old(trace) && readIdx == old(readIdx) && writeIdx == old(writeIdx) &&
                finalChannel0 == old(finalChannel0) && finalChannel3 == old(finalChannel3) &&
                mainChannel2 == old(mainChannel2)
      ensures cameras.AllMounted() ==>
                trace == old(trace) + FrameDraws(old(ReadTarget()), old(WriteTarget()), resolution, time) &&
                ReadTarget() == old(WriteTarget()) && WriteTarget() == old(ReadTarget()) &&
                finalChannel0 == TargetTexture(old(WriteTarget())) &&
                finalChannel3 == TargetTexture(BlurVTarget) &&
                !scissorTest
    {
      resolution := Resolution(size.width, size.height, 1);
      time := ScaledClock(elapsed, timeScale);
      starTime := ScaledClock(elapsed, starTimeScale);
      if cameras.AllMounted() {
        OffscreenPasses();
        BindCompositeAndSwap();
      }
    }

    /**
     * The end of a rendered frame: the final composite's inputs are bound
     * to this frame's main output and vertical blur, the render target
     * returns to the screen, and the history roles swap.
     */
    method BindCompositeAndSwap()
      requires history.Length == 2 && history[0] == HistoryA && history[1] == HistoryB
      requires readIdx < 2 && writeIdx < 2 && readIdx != writeIdx
      modifies this`finalChannel0, this`finalChannel3, this`renderTarget,
               this`readIdx, this`writeIdx, this`scissorTest
      ensures renderTarget == Screen && readIdx < 2 && writeIdx < 2
      ensures readIdx == old(writeIdx) && writeIdx == old(readIdx)
      ensures finalChannel0 == TargetTexture(history[readIdx])
      ensures finalChannel3 == TargetTexture(BlurVTarget)
      ensures !scissorTest
    {
      finalChannel0 := TargetTexture(history[writeIdx]);
      finalChannel3 := TargetTexture(BlurVTarget);
      renderTarget := Screen;
      readIdx, writeIdx := writeIdx, readIdx;
      scissorTest := false;
    }

    /**
     * The framework drawing the final-composite mesh after the callback,
     * with whatever its channels are bound to.
     */
    method CompositeToScreen()
      requires Valid()
      modifies this`trace
      ensures trace == old(trace) + [DrawCall(FinalComposite, [finalChannel0, finalChannel3], Screen, resolution, time)]
    {
      Draw(FinalComposite);
    }

    /**
     * One displayed frame with all cameras mounted: the final composite
     * samples the texture the main pass has just written, although the
     * roles were swapped before it was drawn; it never samples the new
     * write target.
     */
    method RenderedFrame(elapsed: real, timeScale: real, starTimeScale: real)
      requires Valid()
      modifies this
      ensures Valid()
      ensures trace == old(trace) + FrameDraws(old(ReadTarget()), old(WriteTarget()), resolution, time) +
                       [DrawCall(FinalComposite, [TargetTexture(old(WriteTarget())), TargetTexture(BlurVTarget)],
                                 Screen, resolution, time)]
      ensures |trace| == |old(trace)| + 5
      ensures trace[|old(trace)|].output == Offscreen(old(WriteTarget()))
      ensures trace[|old(trace)| + 4].pass == FinalComposite
      ensures trace[|old(trace)| + 4].inputs == [TargetTexture(old(WriteTarget())), TargetTexture(BlurVTarget)]
      ensures TargetTexture(WriteTarget()) !in trace[|old(trace)| + 4].inputs
      ensures ReadTarget() == old(WriteTarget()) && WriteTarget() == old(ReadTarget())
    {
      Frame(elapsed, timeScale, starTimeScale, Cameras(true, true, true, true));
      CompositeToScreen();
    }

    /** The frame callback with all four cameras mounted: the four offscreen draws, then the roles swap. */
    method MountedFrame(elapsed: real, timeScale: real, starTimeScale: real)
      requires Valid()
      modifies this
      ensures Valid() && size == old(size)
      ensures trace == old(trace) + FrameDraws(old(ReadTarget()), old(WriteTarget()), Resolution(size.width, size.height, 1),
                                               ScaledClock(elapsed, timeScale))
      ensures ReadTarget() == old(WriteTarget()) && WriteTarget() == old(ReadTarget())
    {
      Frame(elapsed, timeScale, starTimeScale, Cameras(true, true, true, true));
    }

    /**
     * The frame callback run once per displayed frame, at the elapsed times
     * `elapsed`, with all four cameras mounted: its offscreen draw calls are
     * `Frames` of the scaled times, from the current roles, and the roles
     * end swapped exactly when the number of frames is odd.
     */
    method FrameCallbacks(elapsed: seq<real>, timeScale: real, starTimeScale: real)
      requires Valid()
      modifies this
      ensures Valid() && size == old(size)
      ensures trace == old(trace) + Frames(seq(|elapsed|, k requires 0 <= k < |elapsed| => ScaledClock(elapsed[k], timeScale)),
                                           old(ReadTarget()), old(WriteTarget()), Resolution(size.width, size.height, 1))
      ensures if |elapsed| % 2 == 0
              then ReadTarget() == old(ReadTarget()) && WriteTarget() == old(WriteTarget())
              else ReadTarget() == old(WriteTarget()) && WriteTarget() == old(ReadTarget())
    {
      ghost var read, write := ReadTarget(), WriteTarget();
      ghost var times := seq(|elapsed|, k requires 0 <= k < |elapsed| => ScaledClock(elapsed[k], timeScale));
      ghost var res := Resolution(size.width, size.height, 1);
      ghost var swapped := false;
      var i := 0;
      while i < |elapsed|
        invariant 0 <= i <= |elapsed|
        invariant Valid() && size == old(size)
        invariant trace == old(trace) + Frames(times[..i], read, write, res)
        invariant swapped == Odd(i)
        invariant ReadTarget() == (if swapped then write else read) && WriteTarget() == (if swapped then read else write)
      {
        ghost var r, w, before := ReadTarget(), WriteTarget(), trace;
        FramesSnoc(times[..i], times[i], read, write, res, r, w);
        MountedFrame(elapsed[i], timeScale, starTimeScale);
        assert trace == before + FrameDraws(r, w, res, times[i]);
        assert times[..i + 1] == times[..i] + [times[i]];
        i, swapped := i + 1, !swapped;
      }
      assert times[..i] == times;
      OddMod(i);
    }

    /** Two rendered frames restore the history roles. */
    method TwoFrames(elapsed1: real, elapsed2: real, timeScale: real, starTimeScale: real)
      requires Valid()
      modifies this
      ensures Valid()
      ensures ReadTarget() == old(ReadTarget()) && WriteTarget() == old(WriteTarget())
      ensures |trace| == |old(trace)| + 10
      ensures trace[|old(trace)|].output.Offscreen? && |trace[|old(trace)| + 5].inputs| == 3 &&
              trace[|old(trace)| + 5].inputs[2] == TargetTexture(trace[|old(trace)|].output.target)
    {
      ghost var first := WriteTarget();
      RenderedFrame(elapsed1, timeScale, starTimeScale);
      ghost var middle := trace;
      assert middle[|old(trace)|].output == Offscreen(first);
      RenderedFrame(elapsed2, timeScale, starTimeScale);
      assert trace[..|middle|] == middle;
      assert trace[|middle|].inputs == [NoiseTexture, DustTexture, TargetTexture(first)];
    }
  }
}
