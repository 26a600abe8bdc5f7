/**
 * The fruit-lookup view model: three observable fields (the fruit found,
 * whether a lookup is running, and an error text) moved through fixed
 * transitions by a lookup and by clearing. The network call is a
 * parameter: its result is an input here.
 */
module Fruity {
  import opened Wrappers

  /** The fruit record the fruit API returns. */
  datatype ResponseModel = ResponseModel(
    name: string,
    id: int,
    family: string,
    order: string,
    genus: string,
    nutritions: map<string, real>)

  /**
   * How the repository call ended: a fruit, a null (an unsuccessful HTTP
   * response or an empty body), or an exception whose message may be null.
   */
  datatype FruitFetch = Found(fruit: ResponseModel) | NotFound | Failed(message: Option<string>)

  const NotFoundError := "Fruit not found"
  const DefaultError := "An error occurred"

  /** `FruityViewModel`: the state the fruit panel observes. */
  class FruityViewModel {
    var aFruit: Option<ResponseModel>
    var isLoading: bool
    var error: string

    /** Nothing found, nothing running, no error. */
    predicate IsCleared()
      reads this
    {
      aFruit == None && !isLoading && error == ""
    }

    /** A new view model starts cleared. */
    constructor ()
      ensures IsCleared()
    {
      aFruit := None;
      isLoading := false;
      error := "";
    }

    /** The start of `getFruityData`'s body: loading, with the error text reset. */
    method StartFetch()
      modifies this
      ensures isLoading && error == "" && aFruit == old(aFruit)
    {
      isLoading := true;
      error := "";
    }

    /**
     * The rest of `getFruityData`'s body, once the repository call has
     * ended: the result is published, a null result also sets the
     * not-found error, an exception clears the fruit and sets its message
     * or the default one, and loading ends whatever happened. A found fruit
     * leaves the error text as the start of the body set it.
     */
    method FinishFetch(fetch: FruitFetch)
      modifies this
      ensures !isLoading
      ensures aFruit == (if fetch.Found? then Some(fetch.fruit) else None)
      ensures error == match fetch
        case Found(_) => old(error)
        case NotFound => NotFoundError
        case Failed(message) => message.GetOr(DefaultError)
    {
      match fetch {
        case Found(fruit) =>
          aFruit := Some(fruit);
        case NotFound =>
          aFruit := None;
          error := NotFoundError;
        case Failed(message) =>
          error := message.GetOr(DefaultError);
          aFruit := None;
      }
      isLoading := false;
    }

    /** `getFruityData`, with the coroutine run to its end. */
    method GetFruityData(fetch: FruitFetch)
      modifies this
      ensures (aFruit, isLoading, error) == AfterFetch(fetch)
    {
      StartFetch();
      FinishFetch(fetch);
    }

    /** `clearFruityData`: back to the state a new view model has. */
    method ClearFruityData()
      modifies this
      ensures IsCleared() && Panel() == NothingToDisplay
    {
      aFruit := None;
      error := "";
      isLoading := false;
    }

    /** What the fruit panel shows for the current state. */
    function Panel(): FruitPanel
      reads this
    {
      PanelOf(isLoading, aFruit, error)
    }
  }

  /** The fruit, loading flag and error a finished lookup leaves, whatever the state before it. */
  function AfterFetch(fetch: FruitFetch): (r: (Option<ResponseModel>, bool, string))
    ensures !r.1
    ensures r.0.Some? <==> fetch.Found?
    ensures r.0.Some? ==> r.0.value == fetch.fruit && r.2 == ""
  {
    match fetch
    case Found(fruit) => (Some(fruit), false, "")
    case NotFound => (None, false, NotFoundError)
    case Failed(message) => (None, false, message.GetOr(DefaultError))
  }

  /** The four things the fruit panel can show. */
  datatype FruitPanel = Spinner | Details(fruit: ResponseModel) | FruitNotFound | NothingToDisplay

  /** The fruit panel's `when`: loading first, then a fruit, then an error text, then the empty message. */
  function PanelOf(isLoading: bool, aFruit: Option<ResponseModel>, error: string): (r: FruitPanel)
    ensures r == Spinner <==> isLoading
    ensures r.Details? <==> !isLoading && aFruit.Some?
    ensures r.Details? ==> r.fruit == aFruit.value
    ensures r == FruitNotFound <==> !isLoading && aFruit.None? && error != ""
  {
    if isLoading then Spinner
    else if aFruit.Some? then Details(aFruit.value)
    else if error != "" then FruitNotFound
    else NothingToDisplay
  }

  /**
   * After a finished lookup the panel shows the fruit exactly when one was
   * found, and otherwise the not-found text, except when an exception
   * carried an empty message: then the error is "" and the panel shows
   * "Nothing to be displayed".
   */
  lemma PanelAfterFetch(fetch: FruitFetch)
    ensures var (aFruit, isLoading, error) := AfterFetch(fetch);
      var panel := PanelOf(isLoading, aFruit, error);
      && (fetch.Found? <==> panel.Details?)
      && (fetch.Found? ==> panel == Details(fetch.fruit))
      && (panel == NothingToDisplay <==> fetch == Failed(Some("")))
      && (panel == FruitNotFound <==> fetch.NotFound? || (fetch.Failed? && fetch.message != Some("")))
  {
  }
}
