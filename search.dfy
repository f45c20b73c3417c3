/**
 * The first-present search over a fixed list of candidate names, used both when the
 * reflectivity variable is normalised and when the forecast input is loaded.
 */
module Search {
  import opened Outcomes

  /** The first name of `cands`, in list order, that belongs to `present`. */
  function FirstPresent(cands: seq<string>, present: set<string>): Option<string> {
    if cands == [] then None
    else if cands[0] in present then Some(cands[0])
    else FirstPresent(cands[1..], present)
  }

  /** `FirstPresent` finds a present candidate exactly when one exists, and every
      candidate listed before the one it finds is absent. */
  lemma {:induction false} FirstPresentSpec(cands: seq<string>, present: set<string>)
    ensures FirstPresent(cands, present).None? <==> forall k :: k in cands ==> k !in present
    ensures FirstPresent(cands, present).Some? ==>
      exists i :: 0 <= i < |cands| && cands[i] == FirstPresent(cands, present).value
        && cands[i] in present && forall j :: 0 <= j < i ==> cands[j] !in present
  {
    if cands != [] && cands[0] !in present {
      FirstPresentSpec(cands[1..], present);
      assert forall k :: k in cands ==> k == cands[0] || k in cands[1..];
      if FirstPresent(cands, present).Some? {
        var i :| 0 <= i < |cands[1..]| && cands[1..][i] == FirstPresent(cands, present).value
          && cands[1..][i] in present && forall j :: 0 <= j < i ==> cands[1..][j] !in present;
        assert cands[i + 1] == cands[1..][i];
        assert forall j :: 1 <= j < i + 1 ==> cands[j] == cands[1..][j - 1];
      }
    } else if cands != [] {
      assert cands[0] in present;
    }
  }

  /** Skipping an absent candidate does not change what the search finds. */
  lemma SkipAbsent(cands: seq<string>, present: set<string>, i: nat)
    requires i < |cands| && cands[i] !in present
    ensures FirstPresent(cands[i..], present) == FirstPresent(cands[i + 1..], present)
  {
    assert cands[i..][1..] == cands[i + 1..];
  }
}
