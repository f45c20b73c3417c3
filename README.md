# Weather Wizard nowcast pipeline, modelled in Dafny

This project models the small data pipeline in Weather Wizard that turns radar
reflectivity into a persistence rain-rate nowcast, and proves properties of the model.

- **Schema normalisation** (`RadarSchema`). This models `radar_schema.py`. It picks the
  reflectivity variable of a dataset or takes a labelled array, and renames it
  `reflectivity`. It then coerces the dimension list: a length-1 `time` dimension goes
  in front when missing, and the dimensions are reordered to `time, y, x` followed by the
  rest. Finally it checks that `time`, `y` and `x` are all present.
- **Persistence nowcast** (`PersistenceNowcast`). This models `persistence_nowcast.py`.
  It converts dBZ to rain rate with the Marshall–Palmer relation, builds the synthetic
  demonstration cube of a Gaussian cell moving east, and selects the input variable. It
  also makes the forecast: the last frame is converted and repeated `steps` times at
  `step_minutes` spacing, and the forecast becomes a dataset.
- **Georeferencing** (`Geo`). This models `geo.py`. It builds a regular lat/lon grid
  centred on a point, and attaches that grid, a `crs` grid-mapping variable and CF-lite
  attributes to a forecast dataset.
- **Compression** (`CfUtils`). This models `cf_utils.py`. It builds the zlib encoding map
  for the requested variables that the dataset has.

Shared pieces:

- `Xr` is a value model of xarray's containers. A dataset is a map from names to
  variables (dimension names, values, attributes), plus its coordinate names, dimension
  sizes and global attributes.
- `Outcomes` holds `Option` and `Result`. A `Result` error carries the Python exception
  class.
- `Search` is the first-present-candidate search. Both name searches use it.

Library calls with floating-point results are parameters of the model: `np.power` and
`np.exp` become `Power`/`exp`, and the cosine of an angle in degrees becomes `cosDeg`.
The wall clock is the parameter `now`, in nanoseconds since the epoch. Opening an input
file is the parameter `Source`: the variables found there, or nothing when the path does
not exist.

Where the source follows a loop, the model follows it too:

- `_ensure_dims` (`BuildOrder` and `EnsureDims`), `make_demo_cube`, the candidate loops of
  `normalize` and `load_input`, and `set_compression` are methods with loops.
- Each of these methods is proved equal to a specification function (`Coerced`,
  `DemoCube`, `FirstPresent`, `Encoding`). Lemmas then state the properties of that function.
- `attach_cf` is a method that performs the source's updates to a copy, in source order.
  It is proved equal to `Attached`, which describes the result one variable at a time.

## Model

| member | source | states |
|---|---|---|
| RadarSchema.Normalize | pipelines/ingest/radar_schema.py:13-33 | An array input is renamed and coerced. For a dataset: the first candidate that is present is selected, renamed and coerced. With none present, a lone data variable is used. Otherwise `KeyError` with the source's message. Every success is named `reflectivity`. |
| RadarSchema.Select | pipelines/ingest/radar_schema.py:25-26 | `ds[k]` is a well-formed array named `k`, with the variable's dimensions and the dataset's sizes for them. |
| RadarSchema.Renamed | pipelines/ingest/radar_schema.py:19-21 | Renaming names the array `reflectivity` and keeps it well formed exactly when it was. |
| RadarSchema.RenameCommutesWithCoerce | pipelines/ingest/radar_schema.py:19-26 | Renaming before coercion is the same as renaming after it: the same success or the same error, and on success the renamed coerced array. |
| Search.FirstPresentSpec | pipelines/ingest/radar_schema.py:24-26 | Nothing is found iff no candidate is present. Otherwise the result is present and every earlier candidate is absent, so earlier candidates win. |
| Search.SkipAbsent | pipelines/ingest/radar_schema.py:24-26 | Passing over an absent candidate does not change what the search finds. |
| RadarSchema.WithTime | pipelines/ingest/radar_schema.py:40-41 | On a well-formed array without a `time` dimension, `expand_dims` keeps the name and the array well formed, adds `time` once to the dimension multiset with size 1, and makes `time` a coordinate over itself. |
| RadarSchema.Augmented | pipelines/ingest/radar_schema.py:40-42 | After the time step the array is well formed. Its dimensions are the input's plus `time` exactly when it was missing. Sizes and coordinates change only to add `time`, and the non-core dimensions are unchanged. |
| RadarSchema.KeepPresentMembers | pipelines/ingest/radar_schema.py:46-48 | The first loop keeps exactly the core names that are dimensions. |
| RadarSchema.DropCoreMembers | pipelines/ingest/radar_schema.py:49-51 | The second loop adds exactly the dimensions that are not core names. |
| RadarSchema.KeepPresentDistinct | pipelines/ingest/radar_schema.py:46-48 | The first loop adds no name twice. |
| RadarSchema.DropCoreDistinct | pipelines/ingest/radar_schema.py:49-51 | The second loop adds no name twice when the dimensions are distinct. |
| RadarSchema.TransposeOrderMembers | pipelines/ingest/radar_schema.py:45-51 | The order has exactly the dimensions as members. |
| RadarSchema.TransposeOrderIsPermutation | pipelines/ingest/radar_schema.py:45-52 | The transpose order is a permutation of the dimensions (same multiset, same length) without repetitions. |
| RadarSchema.DropCoreAppend | pipelines/ingest/radar_schema.py:49-51 | Dropping core names distributes over concatenation. |
| RadarSchema.KeepAllCore | pipelines/ingest/radar_schema.py:46-48 | With `time`, `y` and `x` all present, the first loop yields `time, y, x`. |
| RadarSchema.TransposeOrderIdempotent | pipelines/ingest/radar_schema.py:45-52 | Reordering an order that was already reordered changes nothing. |
| RadarSchema.CanonicalOrderKept | pipelines/ingest/radar_schema.py:45-52 | Distinct dimensions that already start `time, y, x` keep their order. |
| RadarSchema.BuildOrder | pipelines/ingest/radar_schema.py:45-51 | The two append loops build exactly `TransposeOrder(dims)`: the present core names in order, then the other dimensions in their original order. |
| RadarSchema.EnsureDims | pipelines/ingest/radar_schema.py:35-57 | The method (time insertion, order loops, transpose, presence check) returns exactly `Coerced(da)`, and on success keeps the array's name. Its transpose reorders the array's dimensions and each coordinate's, as `transpose` does by default. |
| RadarSchema.CoercedFailsExactly | pipelines/ingest/radar_schema.py:40-56 | Coercion succeeds iff `y` and `x` are dimensions and `time` is not a non-scalar coordinate that is not a dimension. That clash gives `expand_dims`' `ValueError`. Otherwise, when both are missing the error names `y`, since `y` is checked first, and when only `x` is missing it names `x`. The presence check in the final loop never fails on `time`. |
| RadarSchema.CoercedLayout | pipelines/ingest/radar_schema.py:40-52 | On success the dimensions are `time, y, x` and then the other input dimensions in their order. They are a permutation of the input's plus `time` when it was added. `time` has size 1 when it was added, and other sizes and the name are kept. The coordinates are the input's plus an added `time`. Each keeps its own dimensions, listed in the new order of the array. |
| RadarSchema.Transposed | pipelines/ingest/radar_schema.py:52 | `transpose(*order)` gives the array the dimensions `order` and keeps its name, sizes and coordinate names. Each coordinate keeps exactly those of its dimensions that are in `order`. |
| RadarSchema.ReorderedWellFormed | pipelines/ingest/radar_schema.py:52 | Transposing, coordinates included, keeps the array well formed and its dimension multiset unchanged. |
| RadarSchema.CoercedIdempotent | pipelines/ingest/radar_schema.py:35-57 | Coercing a coerced array gives it back unchanged. |
| RadarSchema.CoercedCanonicalUnchanged | pipelines/ingest/radar_schema.py:35-57 | An array already laid out `time, y, x, …` keeps its dimensions, name, sizes and coordinate names. It is returned unchanged exactly when each coordinate already lists its dimensions in the array's order. |
| PersistenceNowcast.Clamp | pipelines/nowcast/persistence_nowcast.py:14-16 | The size used is the least non-negative number that is at least the requested one, so a negative size gives an empty range. |
| PersistenceNowcast.ClampedRatio | pipelines/nowcast/persistence_nowcast.py:9 | `max(Z/200, 0)` is non-negative, at least `Z/200`, and equal to one of the two. |
| PersistenceNowcast.RainRateNonNegative | pipelines/nowcast/persistence_nowcast.py:6-10 | The base of the outer power is never negative. When the power maps non-negative bases to non-negative values, the rain rate is non-negative. |
| PersistenceNowcast.RainRateMonotone | pipelines/nowcast/persistence_nowcast.py:6-10 | With powers that are monotone in the relevant arguments, a higher reflectivity never gives a lower rain rate. |
| PersistenceNowcast.RainRateAtZero | pipelines/nowcast/persistence_nowcast.py:8-9 | 0 dBZ converts to `(1/200)^(1/1.6)`. |
| PersistenceNowcast.ToRainRate | pipelines/nowcast/persistence_nowcast.py:6-10 | The conversion keeps any `(ny, nx)` grid shape. With a power that keeps non-negative bases non-negative, every converted cell is non-negative. |
| PersistenceNowcast.IndexRange | pipelines/nowcast/persistence_nowcast.py:56-57 | `np.arange(n)` has length `n`, starts at 0 and goes up in steps of 1. |
| PersistenceNowcast.PersistenceForecast | pipelines/nowcast/persistence_nowcast.py:47-59 | The forecast fails exactly on an empty stack (`IndexError`) or negative steps (`ValueError`). |
| PersistenceNowcast.ForecastFrames | pipelines/nowcast/persistence_nowcast.py:49-58 | There are exactly `steps` frames, each the conversion of the last input frame. The shape is `(steps, ny, nx)`, the name is `rainrate`, and `y`/`x` are copied from the input with their attributes, or else are `0..n-1` without attributes. |
| PersistenceNowcast.ForecastTimes | pipelines/nowcast/persistence_nowcast.py:52-53 | The times are `t0 + k*step_minutes` minutes for `k = 1..steps`. `t0` is the last input time, or `now` without a time coordinate. With a positive step the times strictly increase and all lie after `t0`. |
| PersistenceNowcast.ForecastNonNegative | pipelines/nowcast/persistence_nowcast.py:49-51 | With a power that keeps non-negative bases non-negative, every forecast value is non-negative. |
| PersistenceNowcast.ToDataset | pipelines/nowcast/persistence_nowcast.py:54-59 | `to_dataset` gives a well-formed dataset. Its variables are the forecast and `time`, `y`, `x`, the single data variable is the forecast over `(time, y, x)` holding its frames in row-major order, and the sizes are the forecast's. `time`, `y` and `x` are one-dimensional over themselves and hold the forecast's coordinate values. `y` and `x` keep their attributes and `time` has none. |
| PersistenceNowcast.DemoFrame | pipelines/nowcast/persistence_nowcast.py:14-20 | Each demonstration frame is an `ny` by `nx` grid. |
| PersistenceNowcast.MakeDemoCube | pipelines/nowcast/persistence_nowcast.py:12-29 | The frame loop and stacking return exactly `DemoCube`, failing without frames. |
| PersistenceNowcast.DemoCubeShape | pipelines/nowcast/persistence_nowcast.py:12-29 | The cube exists iff `frames > 0`. It then has `frames` frames of `ny` by `nx`, is named `reflectivity`, and has a time coordinate and no spatial ones. |
| PersistenceNowcast.DemoTimesSpacing | pipelines/nowcast/persistence_nowcast.py:23-26 | The timestamps are five minutes apart, strictly ascending, and the last one is `now`. |
| PersistenceNowcast.DemoCellCentre | pipelines/nowcast/persistence_nowcast.py:16-20 | In frame `t` the cell centre `(30 + 3t, 60)` holds `45 * exp(0)`. When `exp` is non-decreasing, no cell exceeds it. |
| PersistenceNowcast.DemoCellMovesEast | pipelines/nowcast/persistence_nowcast.py:16-20 | Each frame is the previous one shifted three columns east. |
| PersistenceNowcast.LoadInput | pipelines/nowcast/persistence_nowcast.py:31-45 | With `demo` set or no input, the result is the demonstration cube. A missing path gives `FileNotFoundError`. Otherwise the first of `reflectivity`, `dbz`, `dBZ` present is returned, else `KeyError`, with no single-variable fallback. |
| Geo.LonDivisor | pipelines/preprocess/geo.py:11-21 | The longitude divisor is at least `111 * 1e-6`, so it is positive, and at least `111 * cos(lat)`. |
| Geo.MakeLatLon | pipelines/preprocess/geo.py:13-28 | Both arrays have shape `(ny, nx)`, and a negative size gives no cells. |
| Geo.LatLonCells | pipelines/preprocess/geo.py:20-27 | Cell `(i, j)` holds `center_lat + (i-(ny-1)/2)*dy_km/111` and `center_lon + (j-(nx-1)/2)*dlon`. Latitude depends on the row only and longitude on the column only. |
| Geo.OffsetMiddle | pipelines/preprocess/geo.py:23-24 | On an odd axis the middle index has offset 0. |
| Geo.LatLonCentre | pipelines/preprocess/geo.py:23-27 | For odd `ny` and `nx` the centre cell is exactly the centre point. |
| Geo.LatLonSymmetric | pipelines/preprocess/geo.py:23-27 | The grid is mirror-symmetric about the centre point for every size. |
| Geo.LatLonSpacing | pipelines/preprocess/geo.py:20-27 | Neighbouring rows are `dy_km/111` degrees apart and neighbouring columns `dx_km/divisor` degrees apart. |
| Geo.AttachCf | pipelines/preprocess/geo.py:30-65 | The method succeeds iff the target exists, has `time`, `y` and `x` in any order, and both arrays have the dataset's `(y, x)` shape. A target that is neither a variable nor a dimension gives `KeyError`. A missing dimension gives `ValueError` with the source's message, checked before any change. So does a target that names a dimension without a variable, whose default index has only that dimension. A shape mismatch gives `ValueError`. On success it returns exactly `Attached`. |
| Geo.SourceOrderAt | pipelines/preprocess/geo.py:38-54 | After the updates in source order, each variable is as `AttachedVariable` describes. A target called `lat` or `lon` gets its attributes before the coordinate's own. |
| Geo.SourceOrderMatches | pipelines/preprocess/geo.py:37-54 | The in-order updates build exactly the variables of `AttachedWith`. |
| Geo.AttachedWithWellFormed | pipelines/preprocess/geo.py:38-51 | The added variables have distinct, sized dimensions, so the result is well formed. |
| Geo.AttachedWithSpec | pipelines/preprocess/geo.py:37-64 | Whatever metadata is written, the result only adds. Variables, coordinate names and attribute keys are kept and sizes are unchanged. Every other variable is untouched, `lat`/`lon` lie over `(y, x)` and hold the arrays, and the target keeps its dimensions and values and gains the metadata. |
| Geo.AttachedSpec | pipelines/preprocess/geo.py:37-64 | The variables become the old ones plus `lat`, `lon` and `crs`, and `lat`, `lon` are coordinates. `crs` is the scalar with the WGS 84 ellipsoid attributes. The target gains the CF attributes with `grid_mapping = "crs"`, and the global attributes gain `Conventions = "CF-1.8 (lite)"`. Nothing that was there goes away. |
| Geo.ForecastAttachable | pipelines/preprocess/geo.py:30-38 | Every forecast, with the grid made for its `(ny, nx)`, passes the precondition of `attach_cf` for `rainrate`. |
| CfUtils.EncodingSpec | pipelines/preprocess/cf_utils.py:5-11 | The keys are exactly the requested names that are present (so an empty request gives an empty map and absent names are skipped). Every entry is zlib at `complevel`. |
| CfUtils.SameNamesSameEncoding | pipelines/preprocess/cf_utils.py:7-10 | The encoding depends only on the set of requested names, not on order or repetition. |
| CfUtils.DuplicateNameIgnored | pipelines/preprocess/cf_utils.py:7-10 | Requesting a name again adds no entry. |
| CfUtils.SetCompression | pipelines/preprocess/cf_utils.py:5-11 | The loop returns `Encoding(...)`. Its keys are exactly the requested names the dataset has, each mapped to zlib at `complevel`, which defaults to 4. |

## Left out

- File and process I/O are outside the model:
  - `Path.exists`, `open_zarr`/`open_dataset` and the `.zarr` suffix test in `load_input`. Opening is the `Source` parameter.
  - All of `main`: argument parsing, `mkdir`, writing NetCDF or Zarr, printing.
- Floating point:
  - `np.power`, `np.exp` and `np.cos(np.deg2rad(...))` are parameters, and the lemmas assume only what they state (non-negativity, monotonicity).
  - Values are reals. The `float32` casts in `dbz_to_rainrate`, `make_demo_cube` and `make_latlon`, and their rounding, are not modelled.
- The wall clock is the parameter `now`.
  - Times are unbounded integers of nanoseconds, so the 64-bit overflow of `datetime64[ns]` is not modelled.
  - `make_demo_cube` applies `datetime64("now")` at second resolution before converting. That rounding is part of `now`.
- xarray internals are a value model:
  - A `RadarSchema.DataArray` records its name, dimensions, sizes and the dimensions of each coordinate, but not its values, because `normalize` never inspects values.
  - `transpose` is modelled as the reordering of dimension names: the array's, and each coordinate's to follow the array's, as with the default `transpose_coords=True`.
  - `Select` keeps a coordinate when its dimensions are among the variable's.
  - The model assumes that a variable's dimension names are distinct. It states this as the precondition `WellFormed` and does not derive it from xarray.
- PersistenceNowcast.PersistenceForecast: the input cube's values are taken in `(time, y, x)` order, so `isel(time=-1)` is its last frame. Other layouts are out of scope.
- PersistenceNowcast.LoadInput: the selected variable is returned as a `Cube`, which is the shape the forecast consumes.
- Library error messages are paraphrased: NumPy's messages for an empty stack and negative steps, and xarray's conflicting-sizes message in `AttachCf`. The `KeyError` for a missing target in `AttachCf` carries the name alone, where recent xarray adds "No variable named …" and the list of variables. The exception classes are those in the source.
- Geo.MakeLatLon: an array with zero rows does not record its column count, so for `ny <= 0` the shape check cannot tell the `(0, nx)` array from any other empty one.
- RadarSchema.Coerced: a scalar `time` coordinate on an array without a `time` dimension is replaced by the new length-1 `time` coordinate. This follows `expand_dims`, which raises only for a non-scalar one. The coordinate's values are not modelled.
- Geo.AttachCf: xarray's virtual variable names, such as `time.year`, are not modelled. The model reads such a target as missing and gives `KeyError`.
- Geo.AttachCf: an existing variable called `lat`, `lon` or `crs` is replaced, as by `assign_coords` and item assignment. The model does not reproduce xarray's refusal of some such replacements, such as replacing a dimension coordinate.
- `normalize`'s two branches on the array's name do the same thing. The model has one branch.
- `main` does not call `normalize`, and the composition of the pipeline in `main` (load, then forecast, then write) is not modelled. `ForecastAttachable` connects the forecast to `attach_cf`.
- `pipelines/nowcast/pysteps_nowcast.py` (a stub that only prints) and `serve/api_fastapi.py` (endpoints returning constants) have no logic to model.
