/** The `genAI_response` table's record: one saved coaching tip. */
module Tips {
  import opened Wrappers

  /**
   * One saved tip. `nutriCoachTipsID` is generated by the table when it is
   * 0; the text is stored as given; `userID` is a nullable reference to a
   * patient, cascaded on update and on delete.
   */
  datatype NutriCoachTips = NutriCoachTips(
    nutriCoachTipsID: int := 0,
    generatedAIResponse: string,
    userID: Option<int>
  )
}
