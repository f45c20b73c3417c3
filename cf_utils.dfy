/**
 * The on-disk encoding requested for a dataset: zlib compression at one level for each
 * named variable the dataset has.
 */
module CfUtils {
  import Xr

  /** One variable's encoding entry, `{"zlib": ..., "complevel": ...}`. */
  datatype Directive = Directive(zlib: bool, complevel: int)

  const DefaultComplevel: int := 4

  /** The encoding for the names in `names` that are in `present`, built from the front:
      each present name maps to compression at `complevel`. */
  function Encoding(present: set<string>, names: seq<string>, complevel: int): map<string, Directive> {
    if names == [] then map[]
    else
      var enc := Encoding(present, names[..|names| - 1], complevel);
      var v := names[|names| - 1];
      if v in present then enc[v := Directive(true, complevel)] else enc
  }

  /** The keys are exactly the requested names that are present, names that are absent are
      skipped, and every entry turns zlib on at the requested level. */
  lemma {:induction false} EncodingSpec(present: set<string>, names: seq<string>, complevel: int)
    ensures forall v :: v in Encoding(present, names, complevel) <==> v in names && v in present
    ensures forall v :: v in Encoding(present, names, complevel) ==>
      Encoding(present, names, complevel)[v] == Directive(true, complevel)
  {
    if names != [] {
      var init := names[..|names| - 1];
      EncodingSpec(present, init, complevel);
      assert names == init + [names[|names| - 1]];
    }
  }

  /** The encoding depends only on which names are requested: order and repetition do not
      matter, so a name given twice yields one entry. */
  lemma SameNamesSameEncoding(present: set<string>, names1: seq<string>, names2: seq<string>, complevel: int)
    requires forall v :: v in names1 <==> v in names2
    ensures Encoding(present, names1, complevel) == Encoding(present, names2, complevel)
  {
    EncodingSpec(present, names1, complevel);
    EncodingSpec(present, names2, complevel);
  }

  /** Requesting a name again adds nothing. */
  lemma DuplicateNameIgnored(present: set<string>, names: seq<string>, i: nat, complevel: int)
    requires i < |names|
    ensures Encoding(present, names + [names[i]], complevel) == Encoding(present, names, complevel)
  {
    SameNamesSameEncoding(present, names + [names[i]], names, complevel);
  }

  /** `set_compression`: one pass over the requested names, keeping those the dataset has. */
  method SetCompression(ds: Xr.Dataset, varNames: seq<string>, complevel: int := DefaultComplevel)
    returns (enc: map<string, Directive>)
    ensures enc == Encoding(ds.variables.Keys, varNames, complevel)
    ensures enc.Keys == set v | v in varNames && v in ds.variables
    ensures forall v :: v in enc ==> enc[v] == Directive(true, complevel)
  {
    enc := map[];
    for i := 0 to |varNames|
      invariant enc == Encoding(ds.variables.Keys, varNames[..i], complevel)
    {
      assert varNames[..i + 1][..i] == varNames[..i];
      var v := varNames[i];
      if v in ds.variables {
        enc := enc[v := Directive(true, complevel)];
      }
    }
    assert varNames[..|varNames|] == varNames;
    EncodingSpec(ds.variables.Keys, varNames, complevel);
  }
}
