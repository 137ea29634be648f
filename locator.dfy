/**
 * The ordered selector fallback of the web backend: candidates are tried one after another and
 * the first that yields an element wins; none after it is tried.
 */
module Locator {
  import opened Wrappers

  /** The position of the first candidate for which `found` holds. */
  function FirstHit<S>(candidates: seq<S>, found: S -> bool): (r: Option<nat>)
    ensures r.Some? ==> r.value < |candidates| && found(candidates[r.value])
    ensures r.Some? ==> forall j :: 0 <= j < r.value ==> !found(candidates[j])
    ensures r.None? <==> forall j :: 0 <= j < |candidates| ==> !found(candidates[j])
    decreases |candidates|
  {
    if candidates == [] then None
    else if found(candidates[0]) then Some(0)
    else
      match FirstHit(candidates[1..], found)
      case None => None
      case Some(i) =>
        assert forall j :: 1 <= j <= i ==> candidates[j] == candidates[1..][j - 1];
        Some(i + 1)
  }

  /** The candidates actually tried: all of them up to and including the hit, or all on a miss. */
  function Tried<S>(candidates: seq<S>, hit: Option<nat>): seq<S>
    requires hit.Some? ==> hit.value < |candidates|
  {
    if hit.Some? then candidates[..hit.value + 1] else candidates
  }

  /**
   * `for sel in selectors: try: el = lookup(sel); if el: break; except: continue`, with a lookup
   * that raises or returns nothing counted as a miss. `tried` lists the lookups in the order made.
   */
  method Resolve<S>(candidates: seq<S>, found: S -> bool) returns (hit: Option<nat>, tried: seq<S>)
    ensures hit == FirstHit(candidates, found)
    ensures hit.Some? ==> hit.value < |candidates|
    ensures tried == Tried(candidates, hit)
  {
    hit := None;
    tried := [];
    var i := 0;
    while i < |candidates|
      invariant 0 <= i <= |candidates|
      invariant tried == candidates[..i]
      invariant forall j :: 0 <= j < i ==> !found(candidates[j])
    {
      tried := tried + [candidates[i]];
      if found(candidates[i]) {
        hit := Some(i);
        FirstHitIsLeast(candidates, found, i);
        return;
      }
      i := i + 1;
    }
    assert tried == candidates;
  }

  /** A position whose candidate is found and that has no found candidate before it is the first hit. */
  lemma {:induction false} FirstHitIsLeast<S>(candidates: seq<S>, found: S -> bool, i: nat)
    requires i < |candidates| && found(candidates[i])
    requires forall j :: 0 <= j < i ==> !found(candidates[j])
    ensures FirstHit(candidates, found) == Some(i)
    decreases i
  {
    if i > 0 {
      assert !found(candidates[0]);
      forall j | 0 <= j < i - 1 ensures !found(candidates[1..][j]) {
        assert candidates[1..][j] == candidates[j + 1];
      }
      FirstHitIsLeast(candidates[1..], found, i - 1);
    }
  }

  /** Candidates after the hit do not influence the outcome. */
  lemma LaterCandidatesIrrelevant<S>(candidates: seq<S>, found: S -> bool, other: S -> bool)
    requires FirstHit(candidates, found).Some?
    requires forall j :: 0 <= j <= FirstHit(candidates, found).value ==> (found(candidates[j]) <==> other(candidates[j]))
    ensures FirstHit(candidates, other) == FirstHit(candidates, found)
  {
    var i := FirstHit(candidates, found).value;
    FirstHitIsLeast(candidates, other, i);
  }
}
