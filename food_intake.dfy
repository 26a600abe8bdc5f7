/** The `food_intake` table's record: one questionnaire response. */
module FoodIntakes {
  import opened Wrappers

  /**
   * One questionnaire response. `foodIntakeID` is generated by the table
   * when it is 0. The nine food flags default to unticked; the persona and
   * the three times are free text. `userID` is a nullable reference to a
   * patient, cascaded on update and on delete.
   */
  datatype FoodIntake = FoodIntake(
    foodIntakeID: int := 0,
    fruits: bool := false,
    vegetables: bool := false,
    grains: bool := false,
    redMeat: bool := false,
    seafood: bool := false,
    poultry: bool := false,
    fish: bool := false,
    eggs: bool := false,
    nutsSeeds: bool := false,
    persona: string,
    mealTime: string,
    sleepTime: string,
    wakeUpTime: string,
    userID: Option<int>
  )
}
