/**
 * A value model of the labelled-array containers the pipeline works on: a dataset is a
 * table of named variables, each with an ordered list of dimension names, its values and
 * its attribute map, plus the set of names that are coordinates, the size of every
 * dimension and the dataset-level attributes.
 */
module Xr {

  /** Attribute values that occur in the pipeline's metadata. */
  datatype Attr = Text(s: string) | Number(r: real)

  /** Variable contents: real values in row-major order, or timestamps in nanoseconds. */
  datatype Data = Reals(xs: seq<real>) | Stamps(ts: seq<int>)

  datatype Variable = Variable(dims: seq<string>, data: Data, attrs: map<string, Attr>)

  datatype Dataset = Dataset(
    variables: map<string, Variable>,
    coordNames: set<string>,
    sizes: map<string, nat>,
    attrs: map<string, Attr>)

  /** No name occurs twice in `s`. */
  predicate Distinct(s: seq<string>) {
    forall i, j :: 0 <= i < j < |s| ==> s[i] != s[j]
  }

  /** The invariants every dataset keeps: dimension names of a variable are distinct and
      sized, and every coordinate name is a variable. */
  predicate WellFormed(ds: Dataset) {
    && ds.coordNames <= ds.variables.Keys
    && forall v :: v in ds.variables ==>
         Distinct(ds.variables[v].dims) && forall d :: d in ds.variables[v].dims ==> d in ds.sizes
  }

  /** The data variables: every variable that is not a coordinate. */
  function DataVars(ds: Dataset): set<string> {
    ds.variables.Keys - ds.coordNames
  }

  /** `g` is a two-dimensional array of `rows` rows of `cols` cells each. */
  predicate IsGrid(g: seq<seq<real>>, rows: nat, cols: nat) {
    |g| == rows && forall i :: 0 <= i < rows ==> |g[i]| == cols
  }

  /** The row-major list of the cells of a two-dimensional array. */
  function Flatten(rows: seq<seq<real>>): seq<real> {
    if rows == [] then [] else rows[0] + Flatten(rows[1..])
  }
}
