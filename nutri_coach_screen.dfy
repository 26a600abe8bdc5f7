/**
 * The rules of the coaching screen: which generated text the screen shows
 * and which it keeps for saving, when "Show All Tips" writes a tip, when a
 * fruit lookup is requested, and which fruit section and panel are shown.
 * The layout itself is not modelled.
 */
module NutriCoach {
  import opened Wrappers
  import opened KText
  import opened Tips
  import opened Store
  import opened GenAI
  import opened Fruity

  /** The fruit score at which the screen shows a picture instead of the lookup. */
  const OptimalScore: real := 10.0

  /** The fruit half of the screen: the picture for an optimal score, or the lookup with its panel. */
  datatype FruitSection = OptimalImage | Search(panel: FruitPanel)

  /**
   * The fruit half of the screen: an optimal fruit score shows the picture;
   * any other score shows the lookup and the panel its view model selects.
   */
  function FruitSectionOf(fruitScore: real, vm: FruityViewModel): (r: FruitSection)
    reads vm
    ensures r == OptimalImage <==> fruitScore == OptimalScore
    ensures r.Search? ==> r.panel == vm.Panel()
  {
    if fruitScore == OptimalScore then OptimalImage else Search(vm.Panel())
  }

  /**
   * The Details button: a lookup is requested only for a name that is not
   * blank, and then the view model ends in the state the repository's
   * answer for that name gives.
   */
  method SearchClick(vm: FruityViewModel, fruitName: string, api: string -> FruitFetch)
    modifies vm
    ensures IsBlank(fruitName) ==> unchanged(vm)
    ensures !IsBlank(fruitName) ==> (vm.aFruit, vm.isLoading, vm.error) == AfterFetch(api(fruitName))
  {
    if !IsBlank(fruitName) {
      vm.GetFruityData(api(fruitName));
    }
  }

  /** A text that may be kept for saving: not the placeholder and not blank. */
  predicate Savable(text: string, placeholder: string) {
    text != placeholder && !IsBlank(text)
  }

  /** The remembered state of the generated-message card. */
  class CoachCard {
    const placeholder: string
    var result: string
    var genResult: Option<string>
    var showTipsDialog: bool

    /** The text kept for saving is never the placeholder nor blank. */
    predicate Valid()
      reads this
    {
      genResult.Some? ==> Savable(genResult.value, placeholder)
    }

    /** The card starts with the placeholder shown, nothing kept and the dialog closed. */
    constructor (placeholder: string)
      ensures this.placeholder == placeholder
      ensures result == placeholder && genResult == None && !showTipsDialog
      ensures Valid()
    {
      this.placeholder := placeholder;
      result := placeholder;
      genResult := None;
      showTipsDialog := false;
    }

    /**
     * Rendering the card for a UI state: an error is shown and nothing is
     * kept; a success is shown and kept when it may be saved, otherwise the
     * previously kept text stays; any other state changes neither.
     */
    method Render(uiState: UiState)
      requires Valid()
      modifies this
      ensures Valid() && showTipsDialog == old(showTipsDialog)
      ensures uiState.Error? ==> result == uiState.errorMessage && genResult == None
      ensures uiState.Success? ==> result == uiState.outputText
      ensures uiState.Success? && Savable(uiState.outputText, placeholder) ==> genResult == Some(uiState.outputText)
      ensures uiState.Success? && !Savable(uiState.outputText, placeholder) ==> genResult == old(genResult)
      ensures !uiState.Error? && !uiState.Success? ==> result == old(result) && genResult == old(genResult)
    {
      if uiState.Loading? {
        return;
      }
      if uiState.Error? {
        result := uiState.errorMessage;
        genResult := None;
      } else if uiState.Success? {
        result := uiState.outputText;
        if result != placeholder && !IsBlank(result) {
          genResult := Some(result);
        }
      }
    }

    /**
     * "Show All Tips": when a text is kept, a tip with that text and the
     * current user's id is inserted (a failed insert is swallowed); the kept
     * text is not cleared, so every click inserts again; the dialog opens
     * either way.
     */
    method ShowAllTips(db: Database, userID: int) returns (saved: bool)
      requires Valid() && db.Valid()
      modifies this, db
      ensures Valid() && db.Valid() && showTipsDialog
      ensures result == old(result) && genResult == old(genResult)
      ensures saved <==> genResult.Some? && RefersToPatient(old(db.patients), Some(userID))
      ensures saved ==>
        && |db.tips| == |old(db.tips)| + 1 && db.tips[..|old(db.tips)|] == old(db.tips)
        && var tip := db.tips[|old(db.tips)|];
          tip.generatedAIResponse == genResult.value && tip.userID == Some(userID)
          && tip.nutriCoachTipsID > old(db.tipsSequence)
          && Savable(tip.generatedAIResponse, placeholder)
      ensures !saved ==> db.tips == old(db.tips)
      ensures db.patients == old(db.patients) && db.foodIntakes == old(db.foodIntakes)
    {
      saved := false;
      if genResult.Some? {
        var response := NutriCoachTips(generatedAIResponse := genResult.value, userID := Some(userID));
        saved := db.InsertTip(response);
      }
      showTipsDialog := true;
    }
  }
}
