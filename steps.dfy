/**
 * The step list of the selection form and the pure functions over it:
 * the `handleSelection` updater, `steps.find`, `getOptionsForStep` and
 * `isSelectionComplete`. Step 1 picks the product, step 2 its weight,
 * step 3 its flavor.
 */
module Steps {
  import opened Wrappers
  import opened Catalog

  /** One accordion section: its step number and the option chosen there ("" for none). */
  datatype Step = Step(id: int, selected: string)

  /** The step list the form starts with. */
  const Initial: seq<Step> := [Step(1, "")]

  /** The number of the last step; selecting it adds no further step. */
  const LastStep: int := 3

  /** `steps.some(step => step.id === id)` */
  predicate HasStep(steps: seq<Step>, id: int) {
    exists k :: 0 <= k < |steps| && steps[k].id == id
  }

  /** The `map` of the updater: every step numbered `id` gets `value`, every other step is kept. */
  function SetSelected(steps: seq<Step>, id: int, value: string): (r: seq<Step>)
    ensures |r| == |steps|
    ensures forall k :: 0 <= k < |steps| ==> r[k].id == steps[k].id
    ensures forall k :: 0 <= k < |steps| ==>
      r[k].selected == (if steps[k].id == id then value else steps[k].selected)
  {
    if steps == [] then []
    else
      [if steps[0].id == id then steps[0].(selected := value) else steps[0]]
      + SetSelected(steps[1..], id, value)
  }

  /**
   * The updater `handleSelection(id, value)` hands to `setSteps`: record the
   * choice, then open step `id + 1` at the end when `id < 3` and it is not open yet.
   */
  function Select(steps: seq<Step>, id: int, value: string): (r: seq<Step>)
    ensures |r| == |steps| + (if id < LastStep && !HasStep(steps, id + 1) then 1 else 0)
    ensures forall k :: 0 <= k < |steps| ==>
      r[k] == (if steps[k].id == id then Step(id, value) else steps[k])
    ensures |r| > |steps| ==> r[|steps|] == Step(id + 1, "")
  {
    var updated := SetSelected(steps, id, value);
    assert HasStep(updated, id + 1) == HasStep(steps, id + 1) by {
      if HasStep(steps, id + 1) {
        var k :| 0 <= k < |steps| && steps[k].id == id + 1;
        assert updated[k].id == id + 1;
      }
      if HasStep(updated, id + 1) {
        var k :| 0 <= k < |updated| && updated[k].id == id + 1;
        assert steps[k].id == id + 1;
      }
    }
    if id < LastStep && !HasStep(updated, id + 1) then updated + [Step(id + 1, "")]
    else updated
  }

  /** Re-selecting never removes a step and never clears another step's choice. */
  lemma SelectKeepsOthers(steps: seq<Step>, id: int, value: string, k: nat)
    requires k < |steps| && steps[k].id != id
    ensures |Select(steps, id, value)| >= |steps|
    ensures Select(steps, id, value)[k] == steps[k]
  {
  }

  /**
   * `steps.find(step => step.id === id)?.selected`: the choice of the first step
   * numbered `id`, or `undefined` when no step has that number.
   */
  function Find(steps: seq<Step>, id: int): (r: Option<string>)
    ensures r.Some? <==> HasStep(steps, id)
    ensures r.Some? ==> exists k :: (0 <= k < |steps| && steps[k] == Step(id, r.value) &&
      forall j :: 0 <= j < k ==> steps[j].id != id)
  {
    if steps == [] then None
    else if steps[0].id == id then Some(steps[0].selected)
    else
      var r := Find(steps[1..], id);
      assert HasStep(steps, id) ==> HasStep(steps[1..], id) by {
        if HasStep(steps, id) {
          var k :| 0 <= k < |steps| && steps[k].id == id;
          assert steps[1..][k - 1].id == id;
        }
      }
      assert r.Some? ==> exists k :: (0 <= k < |steps| && steps[k] == Step(id, r.value) &&
        forall j :: 0 <= j < k ==> steps[j].id != id) by {
        if r.Some? {
          var k :| 0 <= k < |steps[1..]| && steps[1..][k] == Step(id, r.value) &&
            forall j :: 0 <= j < k ==> steps[1..][j].id != id;
          assert steps[k + 1] == Step(id, r.value);
          forall j | 0 <= j < k + 1 ensures steps[j].id != id {
            if j > 0 { assert steps[j] == steps[1..][j - 1]; }
          }
        }
      }
      r
  }

  /** JavaScript truthiness of an optional string: present and not "". */
  predicate Truthy(o: Option<string>) {
    o.Some? && o.value != ""
  }

  /**
   * `getOptionsForStep(stepId)`: the options listed under a step. `None` is the
   * `undefined` that `optionsMap[p]?.weights` yields when step 1 holds a
   * non-empty string that is not a product name.
   */
  function OptionsForStep(steps: seq<Step>, stepId: int): Option<seq<string>> {
    if stepId == 1 then Some(Keys(Products))
    else if stepId == 2 || stepId == 3 then
      var product := Find(steps, 1);
      if !Truthy(product) then Some([])
      else match Lookup(Products, product.value)
        case None => None
        case Some(e) => Some(if stepId == 2 then e.weights else e.flavors)
    else Some([])
  }

  /** Step 1 lists the product names in catalog order; any step other than 1, 2, 3 lists nothing. */
  lemma OptionsFixedSteps(steps: seq<Step>, stepId: int)
    ensures stepId == 1 ==> OptionsForStep(steps, stepId) == Some(["Protein", "Creatine", "Peanut Butter"])
    ensures stepId != 1 && stepId != 2 && stepId != 3 ==> OptionsForStep(steps, stepId) == Some([])
  {
    ProductsUniqueKeys();
  }

  /** With product `i` chosen in step 1, steps 2 and 3 list exactly its weights and its flavors. */
  lemma OptionsForProduct(steps: seq<Step>, i: nat)
    requires i < |Products|
    requires Find(steps, 1) == Some(Products[i].0)
    ensures OptionsForStep(steps, 2) == Some(Products[i].1.weights)
    ensures OptionsForStep(steps, 3) == Some(Products[i].1.flavors)
  {
    ProductsUniqueKeys();
    LookupAt(Products, i);
  }

  /** Without a product chosen (no step 1, or step 1 still ""), steps 2 and 3 list nothing. */
  lemma OptionsWithoutProduct(steps: seq<Step>)
    requires !Truthy(Find(steps, 1))
    ensures OptionsForStep(steps, 2) == Some([])
    ensures OptionsForStep(steps, 3) == Some([])
  {
  }

  /** A non-empty step-1 choice that is no product name makes steps 2 and 3 `undefined`. */
  lemma OptionsUnknownProduct(steps: seq<Step>, stepId: int)
    requires Truthy(Find(steps, 1)) && Find(steps, 1).value !in Keys(Products)
    requires stepId == 2 || stepId == 3
    ensures OptionsForStep(steps, stepId) == None
  {
  }

  /** `isSelectionComplete`: three steps, each with a choice; it shows the Search button. */
  predicate IsSelectionComplete(steps: seq<Step>) {
    |steps| == 3 && forall k :: 0 <= k < |steps| ==> steps[k].selected != ""
  }
}
