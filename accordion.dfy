/**
 * The `MultiStepAccordion` component's state and its event handlers. The four
 * React state cells become fields; each setter call becomes an assignment.
 */
module Accordion {
  import opened Wrappers
  import opened Steps
  import opened Search
  import opened Invariants

  class MultiStepAccordion {
    var steps: seq<Step>
    var isLoading: bool
    var error: Option<string>
    var results: seq<Product>

    /** The state on first render. */
    constructor ()
      ensures steps == Initial && UiInvariant(steps)
      ensures !isLoading && error == None && results == []
    {
      steps := Initial;
      isLoading := false;
      error := None;
      results := [];
    }

    /** The Search button is rendered. */
    predicate SearchShown()
      reads this
    {
      IsSelectionComplete(steps)
    }

    /** The Search button is rendered and not disabled. */
    predicate SearchEnabled()
      reads this
    {
      IsSelectionComplete(steps) && !isLoading
    }

    /**
     * `handleSelection(id, value)`: the steps become `Select` of the old steps;
     * a click on an offered option keeps the reachable-state invariant.
     */
    method HandleSelection(id: int, value: string)
      modifies this
      ensures steps == Select(old(steps), id, value)
      ensures isLoading == old(isLoading) && error == old(error) && results == old(results)
      ensures old(UiInvariant(steps)) && Offered(old(steps), Click(id, value)) ==> UiInvariant(steps)
    {
      if UiInvariant(steps) && Offered(steps, Click(id, value)) {
        OfferedClickKeepsInvariant(steps, Click(id, value));
      }
      steps := Select(steps, id, value);
    }

    /**
     * The synchronous part of `handleSearch`, up to the `await`: when the guard
     * fails nothing changes (the alert); otherwise loading starts, the error
     * and the results are cleared, and the request path is returned.
     */
    method BeginSearch() returns (request: Option<string>)
      modifies this
      ensures steps == old(steps)
      ensures SearchSelection(steps).None? ==>
        request == None && isLoading == old(isLoading) && error == old(error) && results == old(results)
      ensures SearchSelection(steps).Some? ==>
        request == Some(SearchPath(SearchSelection(steps).value)) && isLoading && error == None && results == []
    {
      var selection := SearchSelection(steps);
      if selection.None? {
        return None;
      }
      isLoading := true;
      error := None;
      results := [];
      request := Some(SearchPath(selection.value));
    }

    /**
     * The rest of `handleSearch` once the request settles: the parsed array
     * replaces the results, or a failure sets the fixed message; loading
     * always ends.
     */
    method Settle(outcome: FetchOutcome)
      modifies this
      ensures steps == old(steps) && !isLoading
      ensures outcome.Fetched? ==> results == outcome.data && error == old(error)
      ensures outcome.Failed? ==> error == Some(FailureMessage) && results == old(results)
    {
      match outcome {
        case Fetched(data) =>
          results := data;
        case Failed =>
          error := Some(FailureMessage);
      }
      isLoading := false;
    }

    /**
     * `handleSearch` run to completion with nothing else happening meanwhile.
     * A search that starts ends with loading off and either the data verbatim
     * and no error, or the fixed message and no results. On a reachable step
     * list it starts exactly when the Search button is shown, and a click on the
     * enabled button always issues a request.
     */
    method HandleSearch(outcome: FetchOutcome) returns (request: Option<string>)
      modifies this
      ensures steps == old(steps)
      ensures request.Some? <==> SearchSelection(steps).Some?
      ensures request.Some? ==> request.value == SearchPath(SearchSelection(steps).value)
      ensures request.None? ==> isLoading == old(isLoading) && error == old(error) && results == old(results)
      ensures request.Some? ==> !isLoading
      ensures request.Some? && outcome.Fetched? ==> results == outcome.data && error == None
      ensures request.Some? && outcome.Failed? ==> error == Some(FailureMessage) && results == []
      ensures UiInvariant(steps) ==> (request.Some? <==> SearchShown())
      ensures old(SearchEnabled()) && UiInvariant(steps) ==> request.Some? && !isLoading
    {
      if UiInvariant(steps) {
        CompleteIffGuard(steps);
      }
      request := BeginSearch();
      if request.Some? {
        Settle(outcome);
      }
    }
  }
}
