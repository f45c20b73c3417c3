/**
 * Schema normalisation of radar input: pick the reflectivity variable, name it
 * "reflectivity", give it a `time` dimension if it has none, and order its dimensions
 * `time, y, x` followed by the others in their original order.
 *
 * A labelled array is modelled by its name, its dimension names in order, the size of
 * each dimension and, for each coordinate, the dimensions it lies along; its values are
 * not modelled, so a transpose is a reordering of the dimension list.
 */
module RadarSchema {
  import opened Outcomes
  import Xr
  import Search

  /** The reflectivity names recognised in a dataset, in priority order. */
  const ReflCandidates: seq<string> := ["reflectivity", "dbz", "dBZ", "DBZ", "Z"]

  /** The canonical leading dimensions, in order. */
  const CoreDims: seq<string> := ["time", "y", "x"]

  const NoReflMsg := "Could not find a reflectivity-like variable to normalize"

  /** What `expand_dims` raises when a non-scalar `time` coordinate is already there. */
  const TimeExistsMsg := "time already exists as coordinate or variable name."

  datatype DataArray = DataArray(
    name: Option<string>,
    dims: seq<string>,
    sizes: map<string, nat>,
    coords: map<string, seq<string>>)

  /** What `normalize` accepts: a single labelled array or a dataset. */
  datatype Input = FromArray(da: DataArray) | FromDataset(ds: Xr.Dataset)

  /** Dimension names are distinct, exactly the dimensions are sized, and every coordinate
      lies along dimensions of the array. */
  predicate WellFormed(da: DataArray) {
    && Xr.Distinct(da.dims)
    && da.sizes.Keys == (set d | d in da.dims)
    && forall c :: c in da.coords ==> forall d :: d in da.coords[c] ==> d in da.dims
  }

  predicate WellFormedInput(input: Input) {
    match input
    case FromArray(da) => WellFormed(da)
    case FromDataset(ds) => Xr.WellFormed(ds)
  }

  /** `ds[k]`: the variable `k` as an array named `k`, with the dataset's sizes of its
      dimensions and the coordinates whose dimensions are among its own. */
  function Select(ds: Xr.Dataset, k: string): (da: DataArray)
    requires Xr.WellFormed(ds) && k in ds.variables
    ensures WellFormed(da) && da.name == Some(k) && da.dims == ds.variables[k].dims
    ensures forall d :: d in da.dims ==> da.sizes[d] == ds.sizes[d]
  {
    var dims := ds.variables[k].dims;
    DataArray(
      Some(k),
      dims,
      map d | d in ds.sizes && d in dims :: ds.sizes[d],
      map c | c in ds.coordNames && c in ds.variables
                && (forall d :: d in ds.variables[c].dims ==> d in dims) :: ds.variables[c].dims)
  }

  /** `da.rename("reflectivity")`. */
  function Renamed(da: DataArray): (r: DataArray)
    ensures r.name == Some("reflectivity")
    ensures WellFormed(r) <==> WellFormed(da)
  {
    da.(name := Some("reflectivity"))
  }

  // ---------------------------------------------------------------------------
  // Dimension order

  /** The names of `keys`, in their order, that occur in `dims`. */
  function KeepPresent(keys: seq<string>, dims: seq<string>): seq<string> {
    if keys == [] then []
    else KeepPresent(keys[..|keys| - 1], dims)
         + (if keys[|keys| - 1] in dims then [keys[|keys| - 1]] else [])
  }

  /** The names of `dims`, in their order, that are not core dimensions. */
  function DropCore(dims: seq<string>): seq<string> {
    if dims == [] then []
    else DropCore(dims[..|dims| - 1])
         + (if dims[|dims| - 1] in CoreDims then [] else [dims[|dims| - 1]])
  }

  /** The order that `_ensure_dims` transposes to. */
  function TransposeOrder(dims: seq<string>): seq<string> {
    KeepPresent(CoreDims, dims) + DropCore(dims)
  }

  /** `da.transpose(*order)`: the array takes the dimensions `order`, and each coordinate
      takes its own dimensions in the order they have in `order`. */
  function Transposed(da: DataArray, order: seq<string>): (r: DataArray)
    ensures r.name == da.name && r.dims == order && r.sizes == da.sizes && r.coords.Keys == da.coords.Keys
    ensures forall c :: c in r.coords ==> forall x :: x in r.coords[c] <==> x in order && x in da.coords[c]
  {
    var r := da.(dims := order, coords := map c | c in da.coords :: KeepPresent(order, da.coords[c]));
    assert forall c :: c in r.coords ==> forall x :: x in r.coords[c] <==> x in order && x in da.coords[c] by {
      forall c | c in r.coords {
        KeepPresentMembers(order, da.coords[c]);
      }
    }
    r
  }

  /** Every coordinate lists its dimensions in the order the array has them. */
  predicate CoordsFollowDims(da: DataArray) {
    forall c :: c in da.coords ==> da.coords[c] == KeepPresent(da.dims, da.coords[c])
  }

  lemma {:induction false} KeepPresentMembers(keys: seq<string>, dims: seq<string>)
    ensures forall x :: x in KeepPresent(keys, dims) <==> x in keys && x in dims
  {
    if keys != [] {
      var init := keys[..|keys| - 1];
      KeepPresentMembers(init, dims);
      assert keys == init + [keys[|keys| - 1]];
    }
  }

  lemma {:induction false} DropCoreMembers(dims: seq<string>)
    ensures forall x :: x in DropCore(dims) <==> x in dims && x !in CoreDims
  {
    if dims != [] {
      var init := dims[..|dims| - 1];
      DropCoreMembers(init);
      assert dims == init + [dims[|dims| - 1]];
    }
  }

  lemma {:induction false} KeepPresentDistinct(keys: seq<string>, dims: seq<string>)
    requires Xr.Distinct(keys)
    ensures Xr.Distinct(KeepPresent(keys, dims))
  {
    if keys != [] {
      var init := keys[..|keys| - 1];
      var last := keys[|keys| - 1];
      KeepPresentDistinct(init, dims);
      KeepPresentMembers(init, dims);
      assert last !in init;
      AppendDistinct(KeepPresent(init, dims), if last in dims then [last] else []);
    }
  }

  lemma {:induction false} DropCoreDistinct(dims: seq<string>)
    requires Xr.Distinct(dims)
    ensures Xr.Distinct(DropCore(dims))
  {
    if dims != [] {
      var init := dims[..|dims| - 1];
      var last := dims[|dims| - 1];
      DropCoreDistinct(init);
      DropCoreMembers(init);
      assert last !in init by {
        forall i | 0 <= i < |init| ensures init[i] != last { assert init[i] == dims[i]; }
      }
      AppendDistinct(DropCore(init), if last in CoreDims then [] else [last]);
    }
  }

  lemma AppendDistinct(a: seq<string>, b: seq<string>)
    requires Xr.Distinct(a) && Xr.Distinct(b)
    requires forall x :: x in a ==> x !in b
    ensures Xr.Distinct(a + b)
  {
    forall i, j | 0 <= i < j < |a + b| ensures (a + b)[i] != (a + b)[j] {
      if j < |a| {
      } else if i < |a| {
        assert (a + b)[i] in a && (a + b)[j] in b;
      } else {
        assert (a + b)[i] == b[i - |a|] && (a + b)[j] == b[j - |a|];
      }
    }
  }

  /** In a sequence without repetitions every member occurs exactly once. */
  lemma {:induction false} DistinctMultiplicity(s: seq<string>, x: string)
    requires Xr.Distinct(s)
    ensures multiset(s)[x] == if x in s then 1 else 0
  {
    if s != [] {
      var init := s[..|s| - 1];
      assert s == init + [s[|s| - 1]];
      assert Xr.Distinct(init);
      DistinctMultiplicity(init, x);
      assert s[|s| - 1] !in init by {
        forall i | 0 <= i < |init| ensures init[i] != s[|s| - 1] { assert init[i] == s[i]; }
      }
    }
  }

  lemma SameMembersSameMultiset(a: seq<string>, b: seq<string>)
    requires Xr.Distinct(a) && Xr.Distinct(b)
    requires forall x :: x in a <==> x in b
    ensures multiset(a) == multiset(b)
  {
    forall x ensures multiset(a)[x] == multiset(b)[x] {
      DistinctMultiplicity(a, x);
      DistinctMultiplicity(b, x);
    }
  }

  /** The transpose order is a permutation of the dimensions, without repetitions:
      the present core dimensions and then the others. */
  lemma {:induction false} TransposeOrderIsPermutation(dims: seq<string>)
    requires Xr.Distinct(dims)
    ensures Xr.Distinct(TransposeOrder(dims))
    ensures multiset(TransposeOrder(dims)) == multiset(dims)
    ensures |TransposeOrder(dims)| == |dims|
  {
    KeepPresentMembers(CoreDims, dims);
    DropCoreMembers(dims);
    KeepPresentDistinct(CoreDims, dims);
    DropCoreDistinct(dims);
    AppendDistinct(KeepPresent(CoreDims, dims), DropCore(dims));
    SameMembersSameMultiset(TransposeOrder(dims), dims);
    assert |multiset(TransposeOrder(dims))| == |multiset(dims)|;
  }

  lemma {:induction false} DropCoreAppend(a: seq<string>, b: seq<string>)
    ensures DropCore(a + b) == DropCore(a) + DropCore(b)
  {
    if b != [] {
      var init := b[..|b| - 1];
      assert (a + b)[..|a + b| - 1] == a + init;
      assert (a + b)[|a + b| - 1] == b[|b| - 1];
      DropCoreAppend(a, init);
    } else {
      assert a + b == a;
    }
  }

  lemma {:induction false} DropCoreOfCore(s: seq<string>)
    requires forall x :: x in s ==> x in CoreDims
    ensures DropCore(s) == []
  {
    if s != [] {
      DropCoreOfCore(s[..|s| - 1]);
      assert s[|s| - 1] in s;
    }
  }

  lemma {:induction false} DropCoreOfNonCore(s: seq<string>)
    requires forall x :: x in s ==> x !in CoreDims
    ensures DropCore(s) == s
  {
    if s != [] {
      var init := s[..|s| - 1];
      assert forall x :: x in init ==> x in s;
      DropCoreOfNonCore(init);
      assert s[|s| - 1] in s;
      assert s == init + [s[|s| - 1]];
    }
  }

  lemma {:induction false} KeepPresentSameMembers(keys: seq<string>, a: seq<string>, b: seq<string>)
    requires forall x :: x in keys ==> (x in a <==> x in b)
    ensures KeepPresent(keys, a) == KeepPresent(keys, b)
  {
    if keys != [] {
      var init := keys[..|keys| - 1];
      assert forall x :: x in init ==> x in keys;
      KeepPresentSameMembers(init, a, b);
      assert keys[|keys| - 1] in keys;
    }
  }

  /** Reordering twice is reordering once. */
  lemma TransposeOrderIdempotent(dims: seq<string>)
    ensures TransposeOrder(TransposeOrder(dims)) == TransposeOrder(dims)
  {
    var lead, rest := KeepPresent(CoreDims, dims), DropCore(dims);
    assert KeepPresent(CoreDims, lead + rest) == lead by {
      KeepPresentMembers(CoreDims, dims);
      DropCoreMembers(dims);
      KeepPresentSameMembers(CoreDims, lead + rest, dims);
    }
    assert DropCore(lead + rest) == rest by {
      DropCoreAppend(lead, rest);
      assert DropCore(lead) == [] by {
        KeepPresentMembers(CoreDims, dims);
        DropCoreOfCore(lead);
      }
      assert DropCore(rest) == rest by {
        DropCoreMembers(dims);
        DropCoreOfNonCore(rest);
      }
    }
  }

  /** With all three core dimensions present, the leading part is `time, y, x`. */
  lemma KeepAllCore(dims: seq<string>)
    requires "time" in dims && "y" in dims && "x" in dims
    ensures KeepPresent(CoreDims, dims) == CoreDims
  {
    assert ["time"][..0] == [];
    assert KeepPresent(["time"], dims) == ["time"];
    assert ["time", "y"][..1] == ["time"];
    assert KeepPresent(["time", "y"], dims) == ["time", "y"];
    assert CoreDims[..2] == ["time", "y"];
  }

  /** Dimensions that already start `time, y, x` keep their order. */
  lemma CanonicalOrderKept(dims: seq<string>)
    requires Xr.Distinct(dims) && |dims| >= 3 && dims[..3] == CoreDims
    ensures TransposeOrder(dims) == dims
  {
    var rest := dims[3..];
    assert dims == CoreDims + rest;
    assert DropCore(rest) == rest by {
      forall x | x in rest ensures x !in CoreDims {
        var i :| 0 <= i < |rest| && rest[i] == x;
        assert dims[i + 3] == x;
        assert dims[0] != x && dims[1] != x && dims[2] != x;
      }
      DropCoreOfNonCore(rest);
    }
    assert DropCore(dims) == rest by {
      DropCoreAppend(CoreDims, rest);
      DropCoreOfCore(CoreDims);
    }
    assert KeepPresent(CoreDims, dims) == CoreDims by {
      assert dims[0] == "time" && dims[1] == "y" && dims[2] == "x";
      KeepAllCore(dims);
    }
  }

  // ---------------------------------------------------------------------------
  // Dimension coercion

  /** `expand_dims` refuses to add `time` when the array has a `time` coordinate along
      other dimensions; a scalar `time` coordinate is promoted instead. */
  predicate TimeClash(da: DataArray) {
    "time" !in da.dims && "time" in da.coords && da.coords["time"] != []
  }

  /** `da.expand_dims({"time": [0]})` when it succeeds: a leading `time` dimension of
      length 1 with its coordinate. */
  function WithTime(da: DataArray): (r: DataArray)
    ensures r.name == da.name
    ensures WellFormed(da) && "time" !in da.dims ==>
      && WellFormed(r)
      && multiset(r.dims) == multiset(da.dims) + multiset{"time"}
      && "time" in r.sizes && r.sizes["time"] == 1
      && "time" in r.coords && r.coords["time"] == ["time"]
  {
    var r := da.(dims := ["time"] + da.dims, sizes := da.sizes["time" := 1], coords := da.coords["time" := ["time"]]);
    assert WellFormed(da) && "time" !in da.dims ==> Xr.Distinct(r.dims) by {
      if WellFormed(da) && "time" !in da.dims {
        AppendDistinct(["time"], da.dims);
      }
    }
    r
  }

  function MissingDimMsg(key: string): string {
    "normalized reflectivity must include dim '" + key + "'"
  }

  /** What `_ensure_dims` returns for `da`. */
  function Coerced(da: DataArray): Result<DataArray> {
    if TimeClash(da) then Err(ValueError(TimeExistsMsg))
    else
    var a := if "time" in da.dims then da else WithTime(da);
    var b := Transposed(a, TransposeOrder(a.dims));
    if "time" !in b.dims then Err(ValueError(MissingDimMsg("time")))
    else if "y" !in b.dims then Err(ValueError(MissingDimMsg("y")))
    else if "x" !in b.dims then Err(ValueError(MissingDimMsg("x")))
    else Ok(b)
  }

  /** The two loops of `_ensure_dims` that build the transpose order. */
  method BuildOrder(dims: seq<string>) returns (order: seq<string>)
    requires Xr.Distinct(dims)
    ensures order == TransposeOrder(dims)
  {
    order := [];
    for i := 0 to |CoreDims|
      invariant order == KeepPresent(CoreDims[..i], dims)
    {
      assert CoreDims[..i + 1][..i] == CoreDims[..i];
      if CoreDims[i] in dims {
        order := order + [CoreDims[i]];
      }
    }
    assert CoreDims[..|CoreDims|] == CoreDims;
    for i := 0 to |dims|
      invariant order == KeepPresent(CoreDims, dims) + DropCore(dims[..i])
    {
      var d := dims[i];
      OrderStep(dims, i);
      if d !in order {
        order := order + [d];
      }
    }
    assert dims[..|dims|] == dims;
  }

  /** One step of the second loop: `dims[i]` is already in the order built so far exactly
      when it is a core dimension, and otherwise it is the next one appended. */
  lemma OrderStep(dims: seq<string>, i: nat)
    requires Xr.Distinct(dims) && i < |dims|
    ensures DropCore(dims[..i + 1]) == DropCore(dims[..i]) + (if dims[i] in CoreDims then [] else [dims[i]])
    ensures (dims[i] in KeepPresent(CoreDims, dims) + DropCore(dims[..i])) == (dims[i] in CoreDims)
  {
    var d := dims[i];
    assert dims[..i + 1][..i] == dims[..i];
    KeepPresentMembers(CoreDims, dims);
    DropCoreMembers(dims[..i]);
    assert d !in dims[..i] by {
      forall j | 0 <= j < i ensures dims[..i][j] != d { assert dims[..i][j] == dims[j]; }
    }
  }

  /** `_ensure_dims`. */
  method EnsureDims(da: DataArray) returns (r: Result<DataArray>)
    requires WellFormed(da)
    ensures r == Coerced(da)
    ensures r.Ok? ==> r.value.name == da.name
  {
    var a := da;
    if "time" !in a.dims {
      if "time" in a.coords && a.coords["time"] != [] {
        return Err(ValueError(TimeExistsMsg));
      }
      a := WithTime(a);
    }
    assert Xr.Distinct(a.dims) by {
      if "time" !in da.dims {
        AppendDistinct(["time"], da.dims);
      }
    }
    var order := BuildOrder(a.dims);
    a := Transposed(a, order);
    for i := 0 to |CoreDims|
      invariant forall j :: 0 <= j < i ==> CoreDims[j] in a.dims
    {
      if CoreDims[i] !in a.dims {
        assert 0 < i ==> CoreDims[0] in a.dims;
        assert 1 < i ==> CoreDims[1] in a.dims;
        return Err(ValueError(MissingDimMsg(CoreDims[i])));
      }
    }
    assert CoreDims[0] in a.dims && CoreDims[1] in a.dims && CoreDims[2] in a.dims;
    r := Ok(a);
  }

  lemma TransposeOrderMembers(dims: seq<string>)
    ensures forall x :: x in TransposeOrder(dims) <==> x in dims
  {
    KeepPresentMembers(CoreDims, dims);
    DropCoreMembers(dims);
  }

  /** The array `_ensure_dims` transposes: `da`, with a `time` dimension in front if it
      had none. */
  function Augmented(da: DataArray): (a: DataArray)
    requires WellFormed(da)
    ensures WellFormed(a) && a.name == da.name
    ensures a.sizes == (if "time" in da.dims then da.sizes else da.sizes["time" := 1])
    ensures a.coords == (if "time" in da.dims then da.coords else da.coords["time" := ["time"]])
    ensures multiset(a.dims) == multiset(da.dims) + (if "time" in da.dims then multiset{} else multiset{"time"})
    ensures DropCore(a.dims) == DropCore(da.dims)
  {
    if "time" in da.dims then da
    else
      assert Xr.Distinct(["time"] + da.dims) by { AppendDistinct(["time"], da.dims); }
      assert DropCore(["time"] + da.dims) == DropCore(da.dims) by {
        DropCoreAppend(["time"], da.dims);
        DropCoreOfCore(["time"]);
      }
      WithTime(da)
  }

  /** Coercion fails exactly when `expand_dims` refuses the time dimension or when `y` or
      `x` is missing. The refusal comes first, then the error naming the first missing
      dimension; `time` is never missing. */
  lemma CoercedFailsExactly(da: DataArray)
    requires WellFormed(da)
    ensures Coerced(da).Ok? <==> !TimeClash(da) && "y" in da.dims && "x" in da.dims
    ensures TimeClash(da) ==> Coerced(da) == Err(ValueError(TimeExistsMsg))
    ensures !TimeClash(da) && "y" !in da.dims ==> Coerced(da) == Err(ValueError(MissingDimMsg("y")))
    ensures !TimeClash(da) && "y" in da.dims && "x" !in da.dims ==> Coerced(da) == Err(ValueError(MissingDimMsg("x")))
  {
    TransposeOrderMembers(Augmented(da).dims);
    assert forall x :: x in Augmented(da).dims <==> x in multiset(Augmented(da).dims);
  }

  /** On success the dimensions are `time, y, x` followed by the other dimensions in their
      original order; they are a permutation of the input dimensions plus any added `time`,
      an added `time` has length 1 and a coordinate, and the name and the other sizes are
      kept. Every coordinate keeps its dimensions, now listed in the array's new order. */
  lemma CoercedLayout(da: DataArray)
    requires WellFormed(da) && Coerced(da).Ok?
    ensures
      var r := Coerced(da).value;
      && WellFormed(r)
      && |r.dims| >= 3 && r.dims[..3] == CoreDims
      && r.dims[3..] == DropCore(da.dims)
      && r.name == da.name
      && multiset(r.dims) == multiset(da.dims) + (if "time" in da.dims then multiset{} else multiset{"time"})
      && r.sizes == (if "time" in da.dims then da.sizes else da.sizes["time" := 1])
      && r.sizes["time"] == (if "time" in da.dims then da.sizes["time"] else 1)
      && var coords := if "time" in da.dims then da.coords else da.coords["time" := ["time"]];
         && r.coords.Keys == coords.Keys
         && (forall c :: c in r.coords ==> forall x :: x in r.coords[c] <==> x in coords[c])
         && CoordsFollowDims(r)
  {
    var a := Augmented(da);
    var order := TransposeOrder(a.dims);
    CoercedFailsExactly(da);
    assert Coerced(da) == Ok(Transposed(a, order));
    TransposedFollowsOrder(a, order);
    TransposeOrderMembers(a.dims);
    assert "time" in a.dims && "y" in a.dims && "x" in a.dims by {
      assert forall x :: x in a.dims <==> x in multiset(a.dims);
    }
    assert order[..3] == CoreDims && order[3..] == DropCore(da.dims) by {
      KeepAllCore(a.dims);
    }
    ReorderedWellFormed(a);
  }

  /** After a transpose every coordinate follows the new order. */
  lemma TransposedFollowsOrder(da: DataArray, order: seq<string>)
    ensures CoordsFollowDims(Transposed(da, order))
  {
    var r := Transposed(da, order);
    forall c | c in r.coords ensures r.coords[c] == KeepPresent(order, r.coords[c]) {
      KeepPresentIdempotent(order, da.coords[c]);
    }
  }

  /** Keeping the names of `keys` that occur in `s` twice over is keeping them once. */
  lemma KeepPresentIdempotent(keys: seq<string>, s: seq<string>)
    ensures KeepPresent(keys, KeepPresent(keys, s)) == KeepPresent(keys, s)
  {
    KeepPresentMembers(keys, s);
    KeepPresentSameMembers(keys, KeepPresent(keys, s), s);
  }

  lemma ReorderedWellFormed(a: DataArray)
    requires WellFormed(a)
    ensures WellFormed(Transposed(a, TransposeOrder(a.dims)))
    ensures multiset(TransposeOrder(a.dims)) == multiset(a.dims)
  {
    TransposeOrderIsPermutation(a.dims);
    TransposeOrderMembers(a.dims);
    assert (set d | d in TransposeOrder(a.dims)) == (set d | d in a.dims);
  }

  /** Coercing an already coerced array changes nothing. */
  lemma CoercedIdempotent(da: DataArray)
    requires WellFormed(da) && Coerced(da).Ok?
    ensures Coerced(Coerced(da).value) == Coerced(da)
  {
    CoercedLayout(da);
    CoercedCanonicalUnchanged(Coerced(da).value);
  }

  /** An array whose dimensions already start `time, y, x` keeps its dimensions, name,
      sizes and coordinate names; it comes back unchanged exactly when its coordinates
      already list their dimensions in its order. */
  lemma CoercedCanonicalUnchanged(da: DataArray)
    requires WellFormed(da) && |da.dims| >= 3 && da.dims[..3] == CoreDims
    ensures Coerced(da).Ok?
    ensures
      var r := Coerced(da).value;
      r.dims == da.dims && r.name == da.name && r.sizes == da.sizes && r.coords.Keys == da.coords.Keys
    ensures Coerced(da) == Ok(da) <==> CoordsFollowDims(da)
  {
    CanonicalOrderKept(da.dims);
    assert da.dims[0] == "time" && da.dims[1] == "y" && da.dims[2] == "x";
    assert Coerced(da) == Ok(Transposed(da, da.dims));
    TransposedFollowsOrder(da, da.dims);
    if CoordsFollowDims(da) {
      assert Transposed(da, da.dims) == da;
    }
  }

  /** The name plays no part in coercion: coercing the renamed array is renaming the
      coerced one, and both fail alike. */
  lemma RenameCommutesWithCoerce(da: DataArray)
    ensures Coerced(Renamed(da)).Ok? <==> Coerced(da).Ok?
    ensures Coerced(da).Err? ==> Coerced(Renamed(da)) == Coerced(da)
    ensures Coerced(da).Ok? ==> Coerced(Renamed(da)).value == Renamed(Coerced(da).value)
  {
  }

  // ---------------------------------------------------------------------------
  // Variable selection

  /** `normalize`. */
  method Normalize(input: Input) returns (r: Result<DataArray>)
    requires WellFormedInput(input)
    ensures input.FromArray? ==> r == Coerced(Renamed(input.da))
    ensures input.FromDataset? ==>
      var ds := input.ds;
      match Search.FirstPresent(ReflCandidates, ds.variables.Keys)
      case Some(k) => k in ds.variables && r == Coerced(Renamed(Select(ds, k)))
      case None =>
        if |Xr.DataVars(ds)| == 1 then
          forall k :: k in Xr.DataVars(ds) ==> r == Coerced(Renamed(Select(ds, k)))
        else r == Err(KeyError(NoReflMsg))
    ensures r.Ok? ==> r.value.name == Some("reflectivity")
  {
    match input
    case FromArray(da) =>
      r := EnsureDims(Renamed(da));
    case FromDataset(ds) =>
      var present := ds.variables.Keys;
      for i := 0 to |ReflCandidates|
        invariant Search.FirstPresent(ReflCandidates, present) == Search.FirstPresent(ReflCandidates[i..], present)
      {
        var k := ReflCandidates[i];
        if k in present {
          r := EnsureDims(Renamed(Select(ds, k)));
          return;
        }
        Search.SkipAbsent(ReflCandidates, present, i);
      }
      if |Xr.DataVars(ds)| == 1 {
        var k :| k in Xr.DataVars(ds);
        r := EnsureDims(Renamed(Select(ds, k)));
        forall k' | k' in Xr.DataVars(ds) ensures k' == k {
          SingletonMember(Xr.DataVars(ds), k, k');
        }
      } else {
        r := Err(KeyError(NoReflMsg));
      }
  }

  lemma SingletonMember(s: set<string>, a: string, b: string)
    requires |s| == 1 && a in s && b in s
    ensures a == b
  {
    var rest := s - {a};
    assert |rest| == 0;
    assert rest == {};
  }
}
