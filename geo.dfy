/**
 * Georeferencing: a regular latitude/longitude grid centred on a point, and the
 * attachment of that grid and of CF-lite metadata to a forecast dataset.
 *
 * Coordinates are reals; the cosine of the centre latitude is the parameter `cosDeg`
 * (cosine of an angle given in degrees).
 */
module Geo {
  import opened Outcomes
  import Xr
  import PersistenceNowcast

  const EarthKmPerDegLat: real := 111.0

  /** The floor on the cosine, which keeps the longitude step finite near the poles. */
  const MinCos: real := 0.000001

  /** Degrees of latitude per grid row. */
  function LatStep(dyKm: real): real {
    dyKm / EarthKmPerDegLat
  }

  /** Kilometres per degree of longitude at the centre latitude, with the cosine clamped. */
  function LonDivisor(centerLat: real, cosDeg: real -> real): (d: real)
    ensures d >= EarthKmPerDegLat * MinCos > 0.0
    ensures d >= EarthKmPerDegLat * cosDeg(centerLat)
  {
    EarthKmPerDegLat * (if cosDeg(centerLat) > MinCos then cosDeg(centerLat) else MinCos)
  }

  /** Degrees of longitude per grid column. */
  function LonStep(centerLat: real, dxKm: real, cosDeg: real -> real): real {
    dxKm / LonDivisor(centerLat, cosDeg)
  }

  /** The offset of index `i` from the middle of an axis of `n` cells. */
  function Offset(n: int, i: int): real {
    i as real - (n - 1) as real / 2.0
  }

  /** `make_latlon`: the latitude and longitude arrays. */
  function MakeLatLon(ny: int, nx: int, centerLat: real, centerLon: real, dxKm: real, dyKm: real,
                      cosDeg: real -> real): (g: (seq<seq<real>>, seq<seq<real>>))
    ensures Xr.IsGrid(g.0, PersistenceNowcast.Clamp(ny), PersistenceNowcast.Clamp(nx))
    ensures Xr.IsGrid(g.1, PersistenceNowcast.Clamp(ny), PersistenceNowcast.Clamp(nx))
  {
    var rows, cols := PersistenceNowcast.Clamp(ny), PersistenceNowcast.Clamp(nx);
    var dlat, dlon := LatStep(dyKm), LonStep(centerLat, dxKm, cosDeg);
    (seq(rows, i => seq(cols, j => centerLat + Offset(ny, i) * dlat)),
     seq(rows, i => seq(cols, j => centerLon + Offset(nx, j) * dlon)))
  }

  /** Row `i` is `i - (ny-1)/2` latitude steps from the centre and column `j` is
      `j - (nx-1)/2` longitude steps from it; latitude depends on the row only and
      longitude on the column only. */
  lemma LatLonCells(ny: nat, nx: nat, centerLat: real, centerLon: real, dxKm: real, dyKm: real,
                    cosDeg: real -> real)
    ensures
      var (lats, lons) := MakeLatLon(ny, nx, centerLat, centerLon, dxKm, dyKm, cosDeg);
      && (forall i, j :: 0 <= i < ny && 0 <= j < nx ==>
            lats[i][j] == centerLat + (i as real - (ny - 1) as real / 2.0) * (dyKm / EarthKmPerDegLat)
            && lons[i][j] == centerLon + (j as real - (nx - 1) as real / 2.0) * LonStep(centerLat, dxKm, cosDeg))
      && (forall i, j1, j2 :: 0 <= i < ny && 0 <= j1 < nx && 0 <= j2 < nx ==> lats[i][j1] == lats[i][j2])
      && (forall i1, i2, j :: 0 <= i1 < ny && 0 <= i2 < ny && 0 <= j < nx ==> lons[i1][j] == lons[i2][j])
  {
  }

  /** On an odd axis the middle index has offset zero. */
  lemma OffsetMiddle(n: nat)
    requires n % 2 == 1
    ensures Offset(n, (n - 1) / 2) == 0.0
  {
    var h := (n - 1) / 2;
    assert n - 1 == 2 * h;
    assert (n - 1) as real == 2.0 * h as real;
  }

  /** For odd `ny` and `nx` the centre cell is exactly the centre point. */
  lemma LatLonCentre(ny: nat, nx: nat, centerLat: real, centerLon: real, dxKm: real, dyKm: real,
                     cosDeg: real -> real)
    requires ny % 2 == 1 && nx % 2 == 1
    ensures
      var (lats, lons) := MakeLatLon(ny, nx, centerLat, centerLon, dxKm, dyKm, cosDeg);
      lats[(ny - 1) / 2][(nx - 1) / 2] == centerLat && lons[(ny - 1) / 2][(nx - 1) / 2] == centerLon
  {
    OffsetMiddle(ny);
    OffsetMiddle(nx);
  }

  /** For any size the grid is mirror-symmetric about the centre point: rows `i` and
      `ny-1-i` average to the centre latitude, columns `j` and `nx-1-j` to the centre
      longitude. */
  lemma LatLonSymmetric(ny: nat, nx: nat, centerLat: real, centerLon: real, dxKm: real, dyKm: real,
                        cosDeg: real -> real, i: nat, j: nat)
    requires i < ny && j < nx
    ensures
      var (lats, lons) := MakeLatLon(ny, nx, centerLat, centerLon, dxKm, dyKm, cosDeg);
      && lats[i][j] + lats[ny - 1 - i][j] == 2.0 * centerLat
      && lons[i][j] + lons[i][nx - 1 - j] == 2.0 * centerLon
  {
    var dlat, dlon := LatStep(dyKm), LonStep(centerLat, dxKm, cosDeg);
    assert Offset(ny, ny - 1 - i) == -Offset(ny, i);
    assert Offset(nx, nx - 1 - j) == -Offset(nx, j);
    assert Offset(ny, ny - 1 - i) * dlat == -(Offset(ny, i) * dlat);
    assert Offset(nx, nx - 1 - j) * dlon == -(Offset(nx, j) * dlon);
  }

  /** Neighbouring rows are one latitude step `dy_km / 111` apart and neighbouring
      columns one longitude step apart. */
  lemma LatLonSpacing(ny: nat, nx: nat, centerLat: real, centerLon: real, dxKm: real, dyKm: real,
                      cosDeg: real -> real, i: nat, j: nat)
    requires i + 1 < ny && j + 1 < nx
    ensures
      var (lats, lons) := MakeLatLon(ny, nx, centerLat, centerLon, dxKm, dyKm, cosDeg);
      && lats[i + 1][j] - lats[i][j] == dyKm / EarthKmPerDegLat
      && lons[i][j + 1] - lons[i][j] == dxKm / LonDivisor(centerLat, cosDeg)
  {
    var dlat, dlon := LatStep(dyKm), LonStep(centerLat, dxKm, cosDeg);
    assert Offset(ny, i + 1) == Offset(ny, i) + 1.0;
    assert Offset(nx, j + 1) == Offset(nx, j) + 1.0;
    assert Offset(ny, i + 1) * dlat == Offset(ny, i) * dlat + dlat;
    assert Offset(nx, j + 1) * dlon == Offset(nx, j) * dlon + dlon;
  }

  // ---------------------------------------------------------------------------
  // CF metadata

  const ExpectedDimsMsg := "Expected dims (time,y,x) on target variable"
  const ConflictingSizesMsg := "conflicting sizes for dimension"

  const TargetAttrs: map<string, Xr.Attr> := map[
    "standard_name" := Xr.Text("rainfall_rate"),
    "long_name" := Xr.Text("Rain rate"),
    "units" := Xr.Text("mm hr-1"),
    "grid_mapping" := Xr.Text("crs")]

  const CrsAttrs: map<string, Xr.Attr> := map[
    "grid_mapping_name" := Xr.Text("latitude_longitude"),
    "longitude_of_prime_meridian" := Xr.Number(0.0),
    "semi_major_axis" := Xr.Number(6378137.0),
    "inverse_flattening" := Xr.Number(298.257223563)]

  const LatAttrs: map<string, Xr.Attr> := map[
    "standard_name" := Xr.Text("latitude"),
    "units" := Xr.Text("degrees_north")]

  const LonAttrs: map<string, Xr.Attr> := map[
    "standard_name" := Xr.Text("longitude"),
    "units" := Xr.Text("degrees_east")]

  const GlobalAttrs: map<string, Xr.Attr> := map[
    "title" := Xr.Text("Weather Wizard Nowcast (Persistence)"),
    "institution" := Xr.Text("Crop Crusaders / Weather Wizard"),
    "source" := Xr.Text("Persistence nowcast demo"),
    "history" := Xr.Text("Created by weather-wizard pipelines/preprocess/geo.py"),
    "reference" := Xr.Text("https://github.com/<your-org>/weather-wizard"),
    "Conventions" := Xr.Text("CF-1.8 (lite)")]

  /** The scalar grid-mapping variable. */
  const CrsVariable: Xr.Variable := Xr.Variable([], Xr.Reals([0.0]), CrsAttrs)

  /** A coordinate over `(y, x)` holding `g`, before its attributes are set. */
  function GridCoord(g: seq<seq<real>>): Xr.Variable {
    Xr.Variable(["y", "x"], Xr.Reals(Xr.Flatten(g)), map[])
  }

  /** The target has all of `time`, `y` and `x` among its dimensions, in any order. */
  predicate HasCoreDims(v: Xr.Variable) {
    "time" in v.dims && "y" in v.dims && "x" in v.dims
  }

  /** `g` has the dataset's `(y, x)` shape. */
  predicate FitsGrid(ds: Xr.Dataset, g: seq<seq<real>>)
    requires "y" in ds.sizes && "x" in ds.sizes
  {
    Xr.IsGrid(g, ds.sizes["y"], ds.sizes["x"])
  }

  /** When `attach_cf` succeeds: the target exists, has the three core dimensions, and both
      arrays have the dataset's `(y, x)` shape. */
  predicate Attachable(ds: Xr.Dataset, lats: seq<seq<real>>, lons: seq<seq<real>>, varName: string)
    requires Xr.WellFormed(ds)
  {
    && varName in ds.variables
    && HasCoreDims(ds.variables[varName])
    && FitsGrid(ds, lats) && FitsGrid(ds, lons)
  }

  /** The result only adds: every variable, coordinate name, dimension size and attribute
      key of `ds` is still there, and every variable other than the target and the three
      names attached keeps its dimensions, values and attributes. */
  predicate Extends(ds: Xr.Dataset, out: Xr.Dataset, varName: string) {
    && ds.variables.Keys <= out.variables.Keys
    && ds.coordNames <= out.coordNames
    && out.sizes == ds.sizes
    && ds.attrs.Keys <= out.attrs.Keys
    && forall v :: v in ds.variables && v != varName && v != "lat" && v != "lon" && v != "crs" ==>
         out.variables[v] == ds.variables[v]
  }

  /** The four pieces of metadata `attach_cf` writes. */
  datatype CfMetadata = CfMetadata(target: map<string, Xr.Attr>, crs: Xr.Variable,
                                   lat: map<string, Xr.Attr>, lon: map<string, Xr.Attr>)

  const Cf: CfMetadata := CfMetadata(TargetAttrs, CrsVariable, LatAttrs, LonAttrs)

  /** The variable called `v` after `attach_cf` writes `m`: the grid mapping, a coordinate
      with its attributes (and the target's, when the target is that coordinate), the
      annotated target, or the input variable untouched. */
  function AttachedVariable(ds: Xr.Dataset, lats: seq<seq<real>>, lons: seq<seq<real>>, varName: string,
                            m: CfMetadata, v: string): Xr.Variable
    requires varName in ds.variables && v in ds.variables.Keys + {"lat", "lon", "crs"}
  {
    if v == "crs" then m.crs
    else if v == "lat" then GridCoord(lats).(attrs := (if varName == "lat" then map[] + m.target else map[]) + m.lat)
    else if v == "lon" then GridCoord(lons).(attrs := (if varName == "lon" then map[] + m.target else map[]) + m.lon)
    else if v == varName then ds.variables[v].(attrs := ds.variables[v].attrs + m.target)
    else ds.variables[v]
  }

  /** The dataset `attach_cf` returns when it writes `m`, described variable by variable. */
  function AttachedWith(ds: Xr.Dataset, lats: seq<seq<real>>, lons: seq<seq<real>>, varName: string,
                        m: CfMetadata): Xr.Dataset
    requires varName in ds.variables
  {
    Xr.Dataset(
      map v | v in ds.variables.Keys + {"lat", "lon", "crs"} :: AttachedVariable(ds, lats, lons, varName, m, v),
      ds.coordNames + {"lat", "lon"},
      ds.sizes,
      ds.attrs + GlobalAttrs)
  }

  /** The dataset `attach_cf` returns. */
  function Attached(ds: Xr.Dataset, lats: seq<seq<real>>, lons: seq<seq<real>>, varName: string): Xr.Dataset
    requires varName in ds.variables
  {
    AttachedWith(ds, lats, lons, varName, Cf)
  }

  /** Whatever metadata is written, the result is well formed and only adds to the input,
      holds the two arrays as `lat` and `lon` over `(y, x)`, and has the metadata's
      attributes on the coordinates and the target. */
  lemma AttachedWithSpec(ds: Xr.Dataset, lats: seq<seq<real>>, lons: seq<seq<real>>,
                          varName: string, m: CfMetadata)
    requires Xr.WellFormed(ds) && varName in ds.variables && "y" in ds.sizes && "x" in ds.sizes
    requires m.crs.dims == []
    ensures
      var out := AttachedWith(ds, lats, lons, varName, m);
      && Xr.WellFormed(out)
      && Extends(ds, out, varName)
      && out.variables.Keys == ds.variables.Keys + {"lat", "lon", "crs"}
      && out.coordNames == ds.coordNames + {"lat", "lon"}
      && out.variables["lat"].dims == ["y", "x"] && out.variables["lat"].data == Xr.Reals(Xr.Flatten(lats))
      && out.variables["lon"].dims == ["y", "x"] && out.variables["lon"].data == Xr.Reals(Xr.Flatten(lons))
      && m.lat.Items <= out.variables["lat"].attrs.Items
      && m.lon.Items <= out.variables["lon"].attrs.Items
      && out.variables["crs"] == m.crs
      && (varName != "lat" && varName != "lon" && varName != "crs" ==>
            && out.variables[varName].dims == ds.variables[varName].dims
            && out.variables[varName].data == ds.variables[varName].data
            && ds.variables[varName].attrs.Keys <= out.variables[varName].attrs.Keys
            && m.target.Items <= out.variables[varName].attrs.Items)
      && out.attrs == ds.attrs + GlobalAttrs
  {
    AttachedWithWellFormed(ds, lats, lons, varName, m);
  }

  /** The variables written have distinct, sized dimensions, so the result is well formed. */
  lemma AttachedWithWellFormed(ds: Xr.Dataset, lats: seq<seq<real>>, lons: seq<seq<real>>,
                               varName: string, m: CfMetadata)
    requires Xr.WellFormed(ds) && varName in ds.variables && "y" in ds.sizes && "x" in ds.sizes
    requires m.crs.dims == []
    ensures Xr.WellFormed(AttachedWith(ds, lats, lons, varName, m))
  {
    var out := AttachedWith(ds, lats, lons, varName, m);
    forall v | v in out.variables
      ensures Xr.Distinct(out.variables[v].dims) && forall d :: d in out.variables[v].dims ==> d in ds.sizes
    {
      assert out.variables[v] == AttachedVariable(ds, lats, lons, varName, m, v);
      if v == "lat" || v == "lon" {
        assert Xr.Distinct(["y", "x"]);
      } else if v == "crs" {
      } else {
        assert out.variables[v].dims == ds.variables[v].dims;
      }
    }
  }

  /** What attaching promises: the result is well formed and only adds to the input; it
      has `lat` and `lon` coordinates over `(y, x)` holding the two arrays, a scalar `crs`
      variable with the ellipsoid attributes, `grid_mapping = "crs"` and the rest of the
      CF attributes on the target, and `Conventions = "CF-1.8 (lite)"` among the global
      attributes. */
  lemma AttachedSpec(ds: Xr.Dataset, lats: seq<seq<real>>, lons: seq<seq<real>>, varName: string)
    requires Xr.WellFormed(ds) && Attachable(ds, lats, lons, varName)
    ensures
      var out := Attached(ds, lats, lons, varName);
      && Xr.WellFormed(out)
      && Extends(ds, out, varName)
      && out.variables.Keys == ds.variables.Keys + {"lat", "lon", "crs"}
      && out.coordNames == ds.coordNames + {"lat", "lon"}
      && out.variables["lat"].dims == ["y", "x"] && out.variables["lat"].data == Xr.Reals(Xr.Flatten(lats))
      && out.variables["lon"].dims == ["y", "x"] && out.variables["lon"].data == Xr.Reals(Xr.Flatten(lons))
      && LatAttrs.Items <= out.variables["lat"].attrs.Items
      && LonAttrs.Items <= out.variables["lon"].attrs.Items
      && out.variables["crs"] == Xr.Variable([], Xr.Reals([0.0]), CrsAttrs)
      && (varName != "lat" && varName != "lon" && varName != "crs" ==>
            && out.variables[varName].dims == ds.variables[varName].dims
            && out.variables[varName].data == ds.variables[varName].data
            && ds.variables[varName].attrs.Keys <= out.variables[varName].attrs.Keys
            && TargetAttrs.Items <= out.variables[varName].attrs.Items
            && out.variables[varName].attrs["grid_mapping"] == Xr.Text("crs"))
      && ds.attrs.Keys <= out.attrs.Keys
      && out.attrs["Conventions"] == Xr.Text("CF-1.8 (lite)")
  {
    AttachedWithSpec(ds, lats, lons, varName, Cf);
    assert ("grid_mapping", Xr.Text("crs")) in TargetAttrs.Items;
    assert GlobalAttrs["Conventions"] == Xr.Text("CF-1.8 (lite)");
  }

  /** The variables after the updates of `attach_cf`, applied one after another in source
      order; later updates see the earlier ones. */
  function SourceOrder(ds: Xr.Dataset, lats: seq<seq<real>>, lons: seq<seq<real>>, varName: string,
                       m: CfMetadata): map<string, Xr.Variable>
    requires varName in ds.variables
  {
    var withCoords := ds.variables["lat" := GridCoord(lats)]["lon" := GridCoord(lons)];
    var target := withCoords[varName];
    var withTarget := withCoords[varName := target.(attrs := target.attrs + m.target)];
    var withCrs := withTarget["crs" := m.crs];
    var lat := withCrs["lat"];
    var withLat := withCrs["lat" := lat.(attrs := lat.attrs + m.lat)];
    var lon := withLat["lon"];
    withLat["lon" := lon.(attrs := lon.attrs + m.lon)]
  }

  /** One variable of the source-order result, as `AttachedVariable` describes it: a
      target called `lat` or `lon` gets its attributes before the coordinate's own. */
  lemma SourceOrderAt(ds: Xr.Dataset, lats: seq<seq<real>>, lons: seq<seq<real>>, varName: string,
                      m: CfMetadata, v: string)
    requires varName in ds.variables && v in SourceOrder(ds, lats, lons, varName, m)
    ensures v in ds.variables.Keys + {"lat", "lon", "crs"}
    ensures SourceOrder(ds, lats, lons, varName, m)[v] == AttachedVariable(ds, lats, lons, varName, m, v)
  {
    var withCoords := ds.variables["lat" := GridCoord(lats)]["lon" := GridCoord(lons)];
    var target := withCoords[varName];
    var withTarget := withCoords[varName := target.(attrs := target.attrs + m.target)];
    var withCrs := withTarget["crs" := m.crs];
    var lat := withCrs["lat"];
    var withLat := withCrs["lat" := lat.(attrs := lat.attrs + m.lat)];
    var lon := withLat["lon"];
    var vars := withLat["lon" := lon.(attrs := lon.attrs + m.lon)];
    assert vars == SourceOrder(ds, lats, lons, varName, m);
    if v == "crs" {
      assert vars[v] == withCrs[v];
    } else if v == "lat" {
      assert lat == withCrs[v] == withTarget[v];
    } else if v == "lon" {
      assert lon == withLat[v] == withCrs[v] == withTarget[v];
    } else if v == varName {
      assert vars[v] == withLat[v] == withCrs[v] == withTarget[v];
    } else {
      assert vars[v] == withLat[v] == withCrs[v] == withTarget[v] == withCoords[v] == ds.variables[v];
    }
  }

  /** Applied in source order, the updates of `attach_cf` build exactly the variables
      `AttachedWith` describes. */
  lemma SourceOrderMatches(ds: Xr.Dataset, lats: seq<seq<real>>, lons: seq<seq<real>>,
                            varName: string, m: CfMetadata)
    requires varName in ds.variables
    ensures SourceOrder(ds, lats, lons, varName, m) == AttachedWith(ds, lats, lons, varName, m).variables
  {
    var vars := SourceOrder(ds, lats, lons, varName, m);
    var spec := AttachedWith(ds, lats, lons, varName, m).variables;
    forall v | v in vars
      ensures v in spec && vars[v] == spec[v]
    {
      SourceOrderAt(ds, lats, lons, varName, m, v);
    }
    assert vars.Keys == spec.Keys;
  }

  /** `attach_cf`: the dimension check, then the updates in source order on a copy. */
  method AttachCf(ds: Xr.Dataset, lats: seq<seq<real>>, lons: seq<seq<real>>, varName: string := "rainrate")
    returns (r: Result<Xr.Dataset>)
    requires Xr.WellFormed(ds)
    ensures r.Ok? <==> Attachable(ds, lats, lons, varName)
    ensures varName !in ds.variables && varName !in ds.sizes ==> r == Err(KeyError(varName))
    ensures varName !in ds.variables && varName in ds.sizes ==> r == Err(ValueError(ExpectedDimsMsg))
    ensures varName in ds.variables && !HasCoreDims(ds.variables[varName]) ==> r == Err(ValueError(ExpectedDimsMsg))
    ensures varName in ds.variables && HasCoreDims(ds.variables[varName]) && !Attachable(ds, lats, lons, varName) ==>
      r == Err(ValueError(ConflictingSizesMsg))
    ensures r.Ok? ==> r.value == Attached(ds, lats, lons, varName)
  {
    if varName !in ds.variables {
      // a dimension without a variable reads as its default index, over that one dimension
      if varName in ds.sizes {
        return Err(ValueError(ExpectedDimsMsg));
      }
      return Err(KeyError(varName));
    }
    var dims := ds.variables[varName].dims;
    if "time" !in dims || "y" !in dims || "x" !in dims {
      return Err(ValueError(ExpectedDimsMsg));
    }
    var out := ds;
    if !FitsGrid(out, lats) || !FitsGrid(out, lons) {
      return Err(ValueError(ConflictingSizesMsg));
    }
    // assign_coords: lat and lon over (y, x)
    var vars := out.variables["lat" := GridCoord(lats)]["lon" := GridCoord(lons)];
    // attributes of the target
    var target := vars[varName];
    vars := vars[varName := target.(attrs := target.attrs + TargetAttrs)];
    // the grid mapping variable
    vars := vars["crs" := CrsVariable];
    // attributes of the coordinates
    var lat := vars["lat"];
    vars := vars["lat" := lat.(attrs := lat.attrs + LatAttrs)];
    var lon := vars["lon"];
    vars := vars["lon" := lon.(attrs := lon.attrs + LonAttrs)];
    out := out.(variables := vars, coordNames := out.coordNames + {"lat", "lon"});
    // global attributes
    out := out.(attrs := out.attrs + GlobalAttrs);
    SourceOrderMatches(ds, lats, lons, varName, Cf);
    r := Ok(out);
  }

  /** A persistence forecast can always be georeferenced with the grid built for its own
      shape: its "rainrate" variable has the three core dimensions and both arrays have
      its `(y, x)` shape. */
  lemma ForecastAttachable(c: PersistenceNowcast.Cube, now: int, pow: PersistenceNowcast.Power,
                           steps: nat, stepMinutes: int,
                           centerLat: real, centerLon: real, dxKm: real, dyKm: real, cosDeg: real -> real)
    returns (fc: PersistenceNowcast.Cube)
    requires PersistenceNowcast.ValidCube(c) && |c.frames| > 0
    ensures PersistenceNowcast.PersistenceForecast(c, now, pow, steps, stepMinutes) == Ok(fc)
    ensures PersistenceNowcast.ValidCube(fc) && fc.time.Some? && fc.y.Some? && fc.x.Some? && fc.name == "rainrate"
    ensures
      var (lats, lons) := MakeLatLon(fc.ny, fc.nx, centerLat, centerLon, dxKm, dyKm, cosDeg);
      Attachable(PersistenceNowcast.ToDataset(fc), lats, lons, "rainrate")
  {
    PersistenceNowcast.ForecastFrames(c, now, pow, steps, stepMinutes);
    fc := PersistenceNowcast.PersistenceForecast(c, now, pow, steps, stepMinutes).value;
  }
}
