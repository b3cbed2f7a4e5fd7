/**
 * What holds of every step list the form can reach. The form starts with
 * `Initial` and changes its steps only through `handleSelection(step.id, option)`
 * fired by an option button, so the id is always that of an existing step and
 * the value one of the options listed under it.
 */
module Invariants {
  import opened Wrappers
  import opened Catalog
  import opened Steps
  import opened Search

  /** Step `k` (from 0) is numbered `k + 1`, and there are one to three steps. */
  predicate WellFormed(steps: seq<Step>) {
    1 <= |steps| <= LastStep && forall k :: 0 <= k < |steps| ==> steps[k].id == k + 1
  }

  /** In a well-formed list no two steps share a number. */
  lemma WellFormedIdsUnique(steps: seq<Step>)
    requires WellFormed(steps)
    ensures forall i, j :: 0 <= i < j < |steps| ==> steps[i].id != steps[j].id
  {
  }

  /** Step `id` exists exactly when `1 <= id <= |steps|`. */
  lemma HasStepWellFormed(steps: seq<Step>, id: int)
    requires WellFormed(steps)
    ensures HasStep(steps, id) <==> 1 <= id <= |steps|
  {
    if 1 <= id <= |steps| {
      assert steps[id - 1].id == id;
    }
  }

  /** In a well-formed list `Find(steps, id)` is the choice of step `id`, if there is one. */
  lemma FindWellFormed(steps: seq<Step>, id: int)
    requires WellFormed(steps)
    ensures Find(steps, id) == if 1 <= id <= |steps| then Some(steps[id - 1].selected) else None
  {
  }

  /** Selecting on an existing step keeps the list well formed. */
  lemma SelectPreservesWellFormed(steps: seq<Step>, id: int, value: string)
    requires WellFormed(steps) && HasStep(steps, id)
    ensures WellFormed(Select(steps, id, value))
  {
    HasStepWellFormed(steps, id);
    HasStepWellFormed(steps, id + 1);
  }

  /**
   * On a well-formed list the Search button's condition and the guard of
   * `handleSearch` agree, and the guard passes on the three choices in step order.
   */
  lemma CompleteIffGuard(steps: seq<Step>)
    requires WellFormed(steps)
    ensures IsSelectionComplete(steps) <==> SearchSelection(steps).Some?
    ensures IsSelectionComplete(steps) ==>
      SearchSelection(steps) == Some(Query(steps[0].selected, steps[1].selected, steps[2].selected))
  {
    FindWellFormed(steps, 1);
    FindWellFormed(steps, 2);
    FindWellFormed(steps, 3);
  }

  /** A click on an option button: the step it sits under and the option it carries. */
  datatype Click = Click(id: int, value: string)

  /** The form renders a button for `c`: its step exists and lists `c.value`. */
  predicate Offered(steps: seq<Step>, c: Click) {
    HasStep(steps, c.id) && OptionsForStep(steps, c.id).Some? && c.value in OptionsForStep(steps, c.id).value
  }

  /** The step list after the clicks, in order; a click with no button for it does nothing. */
  function Replay(steps: seq<Step>, clicks: seq<Click>): seq<Step>
    decreases |clicks|
  {
    if clicks == [] then steps
    else
      var next := if Offered(steps, clicks[0]) then Select(steps, clicks[0].id, clicks[0].value) else steps;
      Replay(next, clicks[1..])
  }

  /** Every step but the last has a choice: step `n + 1` exists only once step `n` is chosen. */
  predicate ChosenBeforeLast(steps: seq<Step>) {
    forall k :: 0 <= k < |steps| - 1 ==> steps[k].selected != ""
  }

  /** Every choice is "" or a catalog string. */
  predicate ChoicesFromCatalog(steps: seq<Step>) {
    forall k :: 0 <= k < |steps| ==> steps[k].selected == "" || InCatalog(steps[k].selected)
  }

  /**
   * The invariant of the reachable step lists: well formed, chosen before the
   * last step, choices from the catalog, and step 1 holding "" or a product name.
   */
  predicate UiInvariant(steps: seq<Step>) {
    WellFormed(steps) && ChosenBeforeLast(steps) && ChoicesFromCatalog(steps) &&
    (steps[0].selected == "" || steps[0].selected in Keys(Products))
  }

  /** Every option a step lists is a catalog string. */
  lemma OfferedInCatalog(steps: seq<Step>, c: Click)
    requires UiInvariant(steps) && Offered(steps, c)
    ensures InCatalog(c.value)
  {
  }

  /** Choosing a catalog string on an existing step keeps every choice but the last one made. */
  lemma SelectKeepsChoices(steps: seq<Step>, id: int, value: string)
    requires WellFormed(steps) && 1 <= id <= |steps|
    requires ChosenBeforeLast(steps) && ChoicesFromCatalog(steps)
    requires value != "" && InCatalog(value)
    ensures ChosenBeforeLast(Select(steps, id, value))
    ensures ChoicesFromCatalog(Select(steps, id, value))
  {
    HasStepWellFormed(steps, id + 1);
    var r := Select(steps, id, value);
    forall k | 0 <= k < |steps| ensures r[k].selected == (if k == id - 1 then value else steps[k].selected) {
      assert steps[k].id == k + 1;
    }
    if |r| > |steps| {
      assert id == |steps|;
      assert r[|steps|].selected == "";
    }
  }

  /** Every offered click keeps the invariant. */
  lemma OfferedClickKeepsInvariant(steps: seq<Step>, c: Click)
    requires UiInvariant(steps) && Offered(steps, c)
    ensures UiInvariant(Select(steps, c.id, c.value))
  {
    SelectPreservesWellFormed(steps, c.id, c.value);
    HasStepWellFormed(steps, c.id);
    OfferedInCatalog(steps, c);
    CatalogPlain(c.value);
    SelectKeepsChoices(steps, c.id, c.value);
    var r := Select(steps, c.id, c.value);
    if c.id == 1 {
      assert c.value in Keys(Products);
      assert r[0] == Step(1, c.value);
    } else {
      assert r[0] == steps[0];
    }
  }

  /** Every run of clicks keeps the invariant. */
  lemma {:induction false} ReplayKeepsInvariant(steps: seq<Step>, clicks: seq<Click>)
    requires UiInvariant(steps)
    ensures UiInvariant(Replay(steps, clicks))
    decreases |clicks|
  {
    if clicks != [] {
      if Offered(steps, clicks[0]) {
        OfferedClickKeepsInvariant(steps, clicks[0]);
        ReplayKeepsInvariant(Select(steps, clicks[0].id, clicks[0].value), clicks[1..]);
      } else {
        ReplayKeepsInvariant(steps, clicks[1..]);
      }
    }
  }

  /**
   * Every reachable step list is well formed (so its ids are 1..n, unique, n <= 3)
   * and lists defined options under each of its steps: the `undefined` branch of
   * `getOptionsForStep` is never taken.
   */
  lemma ReachableWellFormed(clicks: seq<Click>, stepId: int)
    ensures WellFormed(Replay(Initial, clicks))
    ensures OptionsForStep(Replay(Initial, clicks), stepId).Some?
  {
    ReplayKeepsInvariant(Initial, clicks);
    var steps := Replay(Initial, clicks);
    FindWellFormed(steps, 1);
  }

  /**
   * On every reachable step list the Search button shows exactly when the
   * guard passes, and the query it sends is read back unchanged from its path.
   */
  lemma ReachableSearch(clicks: seq<Click>)
    ensures var steps := Replay(Initial, clicks);
      (IsSelectionComplete(steps) <==> SearchSelection(steps).Some?) &&
      (SearchSelection(steps).Some? ==>
        ParseSearchPath(SearchPath(SearchSelection(steps).value)) == SearchSelection(steps))
  {
    var steps := Replay(Initial, clicks);
    ReplayKeepsInvariant(Initial, clicks);
    CompleteIffGuard(steps);
    if SearchSelection(steps).Some? {
      var q := SearchSelection(steps).value;
      CatalogPlain(steps[0].selected);
      CatalogPlain(steps[1].selected);
      CatalogPlain(steps[2].selected);
      SearchPathRoundTrip(q);
    }
  }
}
