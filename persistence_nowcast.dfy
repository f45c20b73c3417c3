/**
 * The persistence nowcast: the last reflectivity frame, converted to rain rate with the
 * Marshall-Palmer relation, is repeated over the forecast horizon. Also the synthetic
 * demonstration input and the choice of the input variable.
 *
 * A frame is a two-dimensional array of reals (rows `y`, columns `x`); a cube is a
 * `(time, y, x)` stack of frames with its optional coordinates. Timestamps are integers
 * counting nanoseconds; the wall clock is the parameter `now`. Floating-point powers and
 * exponentials are function parameters.
 */
module PersistenceNowcast {
  import opened Outcomes
  import Xr
  import Search

  type Frame = seq<seq<real>>

  /** `pow(b, e)`: `b` raised to the power `e`, as `np.power` computes it. */
  type Power = (real, real) -> real

  const NsPerMinute: int := 60_000_000_000

  /** The Marshall-Palmer parameters of `Z = a R^b`. */
  const MpA: real := 200.0
  const MpB: real := 1.6

  /** The exponent `1/b` applied to `Z/a`. */
  const MpExponent: real := 1.0 / MpB

  /** A one-dimensional coordinate: its values and its attributes. */
  datatype Coord = Coord(values: seq<real>, attrs: map<string, Xr.Attr>)

  datatype Cube = Cube(
    name: string,
    frames: seq<Frame>,
    ny: nat,
    nx: nat,
    time: Option<seq<int>>,
    y: Option<Coord>,
    x: Option<Coord>)

  /** Every frame is `ny` by `nx` and every coordinate has the length of its dimension. */
  predicate ValidCube(c: Cube) {
    && (forall t :: 0 <= t < |c.frames| ==> Xr.IsGrid(c.frames[t], c.ny, c.nx))
    && (c.time.Some? ==> |c.time.value| == |c.frames|)
    && (c.y.Some? ==> |c.y.value.values| == c.ny)
    && (c.x.Some? ==> |c.x.value.values| == c.nx)
  }

  /** A Python size argument: a negative size gives an empty range. */
  function Clamp(n: int): (r: nat)
    ensures r >= n && (r == 0 || r == n)
  {
    if n < 0 then 0 else n
  }

  // ---------------------------------------------------------------------------
  // Rain-rate conversion

  /** `np.maximum(Z / 200.0, 0.0)`. */
  function ClampedRatio(z: real): (b: real)
    ensures b >= 0.0 && b >= z / MpA
    ensures b == 0.0 || b == z / MpA
  {
    if z / MpA > 0.0 then z / MpA else 0.0
  }

  /** `dbz_to_rainrate` at one cell. */
  function RainRate(dbz: real, pow: Power): real {
    pow(ClampedRatio(pow(10.0, dbz / 10.0)), MpExponent)
  }

  /** The power maps a non-negative base to a non-negative value. */
  ghost predicate NonNegativePower(pow: Power) {
    forall b, e :: 0.0 <= b ==> 0.0 <= pow(b, e)
  }

  /** The base of the outer power is never negative, whatever the reflectivity, so with a
      power that keeps non-negative bases non-negative the rain rate is non-negative. */
  lemma RainRateNonNegative(dbz: real, pow: Power)
    requires NonNegativePower(pow)
    ensures ClampedRatio(pow(10.0, dbz / 10.0)) >= 0.0
    ensures RainRate(dbz, pow) >= 0.0
  {
  }

  /** With powers that are non-decreasing in the exponent (base 10) and in a non-negative
      base (exponent 1/1.6), the rain rate is non-decreasing in the reflectivity. */
  lemma RainRateMonotone(d1: real, d2: real, pow: Power)
    requires forall e1, e2 :: e1 <= e2 ==> pow(10.0, e1) <= pow(10.0, e2)
    requires forall b1, b2 :: 0.0 <= b1 <= b2 ==> pow(b1, MpExponent) <= pow(b2, MpExponent)
    requires d1 <= d2
    ensures RainRate(d1, pow) <= RainRate(d2, pow)
  {
    var z1, z2 := pow(10.0, d1 / 10.0), pow(10.0, d2 / 10.0);
    assert z1 <= z2;
    var b1, b2 := ClampedRatio(z1), ClampedRatio(z2);
    assert b1 <= b2;
    assert pow(b1, MpExponent) <= pow(b2, MpExponent);
  }

  /** 0 dBZ is the reflectivity factor 1, so it converts to `(1/200)^(1/1.6)`. */
  lemma RainRateAtZero(pow: Power)
    requires pow(10.0, 0.0) == 1.0
    ensures RainRate(0.0, pow) == pow(1.0 / 200.0, 1.0 / 1.6)
  {
  }

  /** `dbz_to_rainrate` on a frame: the conversion cell by cell. */
  function ToRainRate(f: Frame, pow: Power): (r: Frame)
    ensures forall ny, nx :: Xr.IsGrid(f, ny, nx) ==> Xr.IsGrid(r, ny, nx)
    ensures NonNegativePower(pow) ==>
      forall i, j :: 0 <= i < |r| && 0 <= j < |r[i]| ==> r[i][j] >= 0.0
  {
    seq(|f|, i requires 0 <= i < |f| => seq(|f[i]|, j requires 0 <= j < |f[i]| => RainRate(f[i][j], pow)))
  }

  // ---------------------------------------------------------------------------
  // Forecast

  /** `np.arange(n)` as coordinate values. */
  function IndexRange(n: nat): (r: seq<real>)
    ensures |r| == n && (n > 0 ==> r[0] == 0.0)
    ensures forall i :: 0 <= i < n - 1 ==> r[i + 1] - r[i] == 1.0
  {
    seq(n, i => i as real)
  }

  /** The forecast's reference time: the input's last timestamp, else the clock. */
  function StartTime(c: Cube, now: int): int
    requires ValidCube(c) && |c.frames| > 0
  {
    if c.time.Some? then c.time.value[|c.time.value| - 1] else now
  }

  /** `persistence_forecast`, with `now` the value `np.datetime64("now")` would read. */
  function PersistenceForecast(c: Cube, now: int, pow: Power, steps: int := 12, stepMinutes: int := 5): (r: Result<Cube>)
    requires ValidCube(c)
    ensures r.Err? <==> |c.frames| == 0 || steps < 0
    ensures |c.frames| == 0 ==> r.error.IndexError?
    ensures |c.frames| > 0 && steps < 0 ==> r.error.ValueError?
  {
    if |c.frames| == 0 then Err(IndexError("index -1 is out of bounds for axis 0 with size 0"))
    else if steps < 0 then Err(ValueError("negative dimensions are not allowed"))
    else
      var rain := ToRainRate(c.frames[|c.frames| - 1], pow);
      var t0 := StartTime(c, now);
      var step := stepMinutes * NsPerMinute;
      Ok(Cube(
        "rainrate",
        seq(steps, _ => rain),
        c.ny,
        c.nx,
        Some(seq(steps, k => t0 + (k + 1) * step)),
        Some(c.y.GetOr(Coord(IndexRange(c.ny), map[]))),
        Some(c.x.GetOr(Coord(IndexRange(c.nx), map[])))))
  }

  /** The forecast has exactly `steps` frames, each the conversion of the input's last
      frame; its shape is `(steps, ny, nx)` with the input's `(ny, nx)`; it is named
      "rainrate" and carries all three coordinates, `y` and `x` copied from the input,
      attributes included, if it has them and `0..n-1` without attributes otherwise. */
  lemma ForecastFrames(c: Cube, now: int, pow: Power, steps: int, stepMinutes: int)
    requires ValidCube(c) && |c.frames| > 0 && steps >= 0
    ensures
      var fc := PersistenceForecast(c, now, pow, steps, stepMinutes).value;
      && ValidCube(fc)
      && fc.name == "rainrate"
      && |fc.frames| == steps && fc.ny == c.ny && fc.nx == c.nx
      && (forall k :: 0 <= k < steps ==> fc.frames[k] == ToRainRate(c.frames[|c.frames| - 1], pow))
      && fc.time.Some? && fc.y.Some? && fc.x.Some?
      && fc.y.value == (if c.y.Some? then c.y.value else Coord(IndexRange(c.ny), map[]))
      && fc.x.value == (if c.x.Some? then c.x.value else Coord(IndexRange(c.nx), map[]))
  {
    var last := c.frames[|c.frames| - 1];
    assert Xr.IsGrid(last, c.ny, c.nx);
    assert Xr.IsGrid(ToRainRate(last, pow), c.ny, c.nx);
  }

  /** The forecast times are `t0 + k * step_minutes` minutes for `k = 1..steps`, where `t0`
      is the input's last timestamp if it has a time coordinate and `now` otherwise; with
      a positive step they increase strictly and all come after `t0`. */
  lemma ForecastTimes(c: Cube, now: int, pow: Power, steps: int, stepMinutes: int)
    requires ValidCube(c) && |c.frames| > 0 && steps >= 0
    ensures
      var ts := PersistenceForecast(c, now, pow, steps, stepMinutes).value.time.value;
      var t0 := if c.time.Some? then c.time.value[|c.frames| - 1] else now;
      && |ts| == steps
      && (forall k :: 0 <= k < steps ==> ts[k] == t0 + (k + 1) * stepMinutes * NsPerMinute)
      && (stepMinutes > 0 ==>
            (forall k :: 0 <= k < steps ==> t0 < ts[k])
            && forall k1, k2 :: 0 <= k1 < k2 < steps ==> ts[k1] < ts[k2])
  {
    var ts := PersistenceForecast(c, now, pow, steps, stepMinutes).value.time.value;
    var t0 := StartTime(c, now);
    var step := stepMinutes * NsPerMinute;
    forall k | 0 <= k < steps ensures ts[k] == t0 + (k + 1) * stepMinutes * NsPerMinute {
      MulAssoc(k + 1, stepMinutes, NsPerMinute);
    }
    if stepMinutes > 0 {
      assert step > 0;
      forall k | 0 <= k < steps ensures t0 < ts[k] {
        MulStrictlyIncreasing(0, k + 1, step);
      }
      forall k1, k2 | 0 <= k1 < k2 < steps ensures ts[k1] < ts[k2] {
        MulStrictlyIncreasing(k1 + 1, k2 + 1, step);
      }
    }
  }

  lemma MulAssoc(a: int, b: int, c: int)
    ensures a * b * c == a * (b * c)
  {
  }

  lemma MulStrictlyIncreasing(a: int, b: int, s: int)
    requires a < b && s > 0
    ensures a * s < b * s
  {
    assert b * s - a * s == (b - a) * s;
  }

  /** With a power that keeps non-negative bases non-negative, every forecast value is
      non-negative. */
  lemma ForecastNonNegative(c: Cube, now: int, pow: Power, steps: int, stepMinutes: int)
    requires ValidCube(c) && |c.frames| > 0 && steps >= 0 && NonNegativePower(pow)
    ensures
      var fc := PersistenceForecast(c, now, pow, steps, stepMinutes).value;
      forall k, i, j :: 0 <= k < |fc.frames| && 0 <= i < |fc.frames[k]| && 0 <= j < |fc.frames[k][i]| ==>
        fc.frames[k][i][j] >= 0.0
  {
    var last := c.frames[|c.frames| - 1];
    forall i, j | 0 <= i < |last| && 0 <= j < |last[i]| ensures ToRainRate(last, pow)[i][j] >= 0.0 {
      RainRateNonNegative(last[i][j], pow);
    }
  }

  /** All frames as one row-major list. */
  function FlattenFrames(frames: seq<Frame>): seq<real> {
    if frames == [] then [] else Xr.Flatten(frames[0]) + FlattenFrames(frames[1..])
  }

  /** `da.to_dataset()`: a dataset holding the cube as the variable of its name over
      `(time, y, x)`, with its three coordinates. */
  function ToDataset(fc: Cube): (ds: Xr.Dataset)
    requires ValidCube(fc) && fc.time.Some? && fc.y.Some? && fc.x.Some?
    requires fc.name !in {"time", "y", "x"}
    ensures Xr.WellFormed(ds)
    ensures ds.variables.Keys == {fc.name, "time", "y", "x"} && ds.coordNames == {"time", "y", "x"}
    ensures Xr.DataVars(ds) == {fc.name}
    ensures ds.variables[fc.name].dims == ["time", "y", "x"]
    ensures ds.sizes == map["time" := |fc.frames|, "y" := fc.ny, "x" := fc.nx]
    ensures ds.variables[fc.name].data == Xr.Reals(FlattenFrames(fc.frames))
    ensures ds.variables["time"] == Xr.Variable(["time"], Xr.Stamps(fc.time.value), map[])
    ensures ds.variables["y"] == Xr.Variable(["y"], Xr.Reals(fc.y.value.values), fc.y.value.attrs)
    ensures ds.variables["x"] == Xr.Variable(["x"], Xr.Reals(fc.x.value.values), fc.x.value.attrs)
  {
    var vars := map[
      fc.name := Xr.Variable(["time", "y", "x"], Xr.Reals(FlattenFrames(fc.frames)), map[]),
      "time" := Xr.Variable(["time"], Xr.Stamps(fc.time.value), map[]),
      "y" := Xr.Variable(["y"], Xr.Reals(fc.y.value.values), fc.y.value.attrs),
      "x" := Xr.Variable(["x"], Xr.Reals(fc.x.value.values), fc.x.value.attrs)];
    var sizes := map["time" := |fc.frames|, "y" := fc.ny, "x" := fc.nx];
    assert vars.Keys == {fc.name, "time", "y", "x"};
    var ds := Xr.Dataset(vars, {"time", "y", "x"}, sizes, map[]);
    assert Xr.WellFormed(ds) by {
      assert Xr.Distinct(["time", "y", "x"]);
      assert forall v :: v in vars ==> vars[v].dims in {["time", "y", "x"], ["time"], ["y"], ["x"]};
    }
    ds
  }

  // ---------------------------------------------------------------------------
  // Synthetic input

  const DemoPeak: real := 45.0
  const DemoSigma: real := 12.0
  const DemoStartX: int := 30
  const DemoSpeed: int := 3
  const DemoCentreY: int := 60
  const DemoStepMinutes: int := 5

  /** The cell centre's column in frame `t`. */
  function CellX(t: int): int {
    DemoStartX + DemoSpeed * t
  }

  /** The reflectivity at row `i`, column `j` of frame `t`: a Gaussian of the squared
      distance to the cell centre, with `exp` standing for `np.exp`. */
  function DemoValue(i: int, j: int, t: int, exp: real -> real): real {
    var dx, dy := j - CellX(t), i - DemoCentreY;
    DemoPeak * exp(-((dx * dx + dy * dy) as real / (2.0 * DemoSigma * DemoSigma)))
  }

  /** Frame `t` of the demonstration cube. */
  function DemoFrame(ny: nat, nx: nat, t: int, exp: real -> real): (f: Frame)
    ensures Xr.IsGrid(f, ny, nx)
  {
    seq(ny, i => seq(nx, j => DemoValue(i, j, t, exp)))
  }

  /** `frames` timestamps five minutes apart, the last one `now`. */
  function DemoTimes(frames: nat, now: int): seq<int> {
    seq(frames, k => now - (frames - 1 - k) * (DemoStepMinutes * NsPerMinute))
  }

  /** What `make_demo_cube(ny, nx, frames)` returns when the clock reads `now`. */
  function DemoCube(now: int, exp: real -> real, ny: int := 120, nx: int := 160, frames: int := 12): Result<Cube> {
    if frames <= 0 then Err(ValueError("need at least one array to stack"))
    else Ok(Cube(
      "reflectivity",
      seq(frames, t => DemoFrame(Clamp(ny), Clamp(nx), t, exp)),
      Clamp(ny),
      Clamp(nx),
      Some(DemoTimes(frames, now)),
      None,
      None))
  }

  /** `make_demo_cube`. */
  method MakeDemoCube(now: int, exp: real -> real, ny: int := 120, nx: int := 160, frames: int := 12)
    returns (r: Result<Cube>)
    ensures r == DemoCube(now, exp, ny, nx, frames)
  {
    var rows, cols := Clamp(ny), Clamp(nx);
    var cube: seq<Frame> := [];
    for t := 0 to Clamp(frames)
      invariant |cube| == t
      invariant forall k :: 0 <= k < t ==> cube[k] == DemoFrame(rows, cols, k, exp)
    {
      cube := cube + [DemoFrame(rows, cols, t, exp)];
    }
    if frames <= 0 {
      return Err(ValueError("need at least one array to stack"));
    }
    assert cube == seq(frames, t => DemoFrame(rows, cols, t, exp));
    r := Ok(Cube("reflectivity", cube, rows, cols, Some(DemoTimes(frames, now)), None, None));
  }

  /** The demonstration cube has `frames` frames of `ny` by `nx`, a time coordinate and no
      spatial coordinates; it cannot be made without frames. */
  lemma DemoCubeShape(now: int, exp: real -> real, ny: int, nx: int, frames: int)
    ensures DemoCube(now, exp, ny, nx, frames).Ok? <==> frames > 0
    ensures frames > 0 ==>
      var c := DemoCube(now, exp, ny, nx, frames).value;
      && ValidCube(c) && c.name == "reflectivity"
      && |c.frames| == frames && c.ny == Clamp(ny) && c.nx == Clamp(nx)
      && c.time.Some? && c.y.None? && c.x.None?
  {
  }

  /** The demonstration timestamps ascend in five-minute steps and the last one is `now`. */
  lemma DemoTimesSpacing(frames: nat, now: int)
    requires frames > 0
    ensures |DemoTimes(frames, now)| == frames
    ensures DemoTimes(frames, now)[frames - 1] == now
    ensures forall k :: 0 <= k < frames - 1 ==>
      DemoTimes(frames, now)[k + 1] - DemoTimes(frames, now)[k] == DemoStepMinutes * NsPerMinute
    ensures forall k1, k2 :: 0 <= k1 < k2 < frames ==> DemoTimes(frames, now)[k1] < DemoTimes(frames, now)[k2]
  {
    var ts := DemoTimes(frames, now);
    forall k1, k2 | 0 <= k1 < k2 < frames ensures ts[k1] < ts[k2] {
      MulStrictlyIncreasing(frames - 1 - k2, frames - 1 - k1, DemoStepMinutes * NsPerMinute);
    }
  }

  /** In frame `t` the cell centre is column `30 + 3t` of row 60, where the value is the
      peak `45 * exp(0)`; when `exp` is non-decreasing no cell of the frame exceeds it. */
  lemma DemoCellCentre(ny: nat, nx: nat, t: nat, exp: real -> real)
    requires DemoCentreY < ny && 0 <= CellX(t) < nx
    ensures DemoFrame(ny, nx, t, exp)[DemoCentreY][CellX(t)] == DemoPeak * exp(0.0)
    ensures (forall a, b :: a <= b ==> exp(a) <= exp(b)) ==>
      forall i, j :: 0 <= i < ny && 0 <= j < nx ==>
        DemoFrame(ny, nx, t, exp)[i][j] <= DemoFrame(ny, nx, t, exp)[DemoCentreY][CellX(t)]
  {
    if forall a, b :: a <= b ==> exp(a) <= exp(b) {
      forall i, j | 0 <= i < ny && 0 <= j < nx
        ensures DemoFrame(ny, nx, t, exp)[i][j] <= DemoPeak * exp(0.0)
      {
        var dx, dy := j - CellX(t), i - DemoCentreY;
        assert dx * dx >= 0 && dy * dy >= 0;
        var e := -((dx * dx + dy * dy) as real / (2.0 * DemoSigma * DemoSigma));
        assert e <= 0.0;
        assert exp(e) <= exp(0.0);
      }
    }
  }

  /** From one frame to the next the cell moves three columns east and nothing else
      changes. */
  lemma DemoCellMovesEast(ny: nat, nx: nat, t: nat, exp: real -> real, i: nat, j: nat)
    requires i < ny && j + DemoSpeed < nx
    ensures DemoFrame(ny, nx, t + 1, exp)[i][j + DemoSpeed] == DemoFrame(ny, nx, t, exp)[i][j]
  {
    assert j + DemoSpeed - CellX(t + 1) == j - CellX(t);
  }

  // ---------------------------------------------------------------------------
  // Input selection

  /** The variable names `load_input` accepts, in priority order. */
  const InputCandidates: seq<string> := ["reflectivity", "dbz", "dBZ"]

  const NoInputMsg := "Input must contain 'reflectivity' or 'dbz'"

  /** An input path and what opening it gives: its variables, or nothing when the path
      does not exist. */
  datatype Source = Source(path: string, contents: Option<map<string, Cube>>)

  /** `load_input(inp, demo)`, with `now` the clock reading the demonstration cube uses. */
  method LoadInput(inp: Option<Source>, demo: bool, now: int, exp: real -> real) returns (r: Result<Cube>)
    ensures demo || inp.None? ==> r == DemoCube(now, exp)
    ensures !demo && inp.Some? && inp.value.contents.None? ==>
      r == Err(FileNotFoundError("Input not found: " + inp.value.path))
    ensures !demo && inp.Some? && inp.value.contents.Some? ==>
      var vars := inp.value.contents.value;
      match Search.FirstPresent(InputCandidates, vars.Keys)
      case Some(k) => k in vars && r == Ok(vars[k].(name := k))
      case None => r == Err(KeyError(NoInputMsg))
    ensures !demo && inp.Some? && r.Ok? ==> r.value.name in InputCandidates
  {
    if demo || inp.None? {
      r := MakeDemoCube(now, exp);
      return;
    }
    var src := inp.value;
    if src.contents.None? {
      return Err(FileNotFoundError("Input not found: " + src.path));
    }
    var vars := src.contents.value;
    for i := 0 to |InputCandidates|
      invariant Search.FirstPresent(InputCandidates, vars.Keys) == Search.FirstPresent(InputCandidates[i..], vars.Keys)
    {
      var k := InputCandidates[i];
      if k in vars {
        return Ok(vars[k].(name := k));
      }
      Search.SkipAbsent(InputCandidates, vars.Keys, i);
    }
    r := Err(KeyError(NoInputMsg));
  }
}
