/** The `patients` table's record. */
module Patients {

  /**
   * One patient. `userID` is the primary key and is supplied by the caller,
   * never generated. The account fields default to an unclaimed account:
   * no username or password, first time, not registered. `gender` is free
   * text. There is one total HEIFA score and one score per food category.
   */
  datatype Patient = Patient(
    userID: int,
    password: string := "",
    phoneNumber: string,
    username: string := "",
    gender: string,
    isFirstTimeUser: bool := true,
    isRegister: bool := false,
    totalHEIFAScore: real,
    discretionaryHEIFAScore: real,
    vegetableHEIFAScore: real,
    fruitHEIFAScore: real,
    grainAndCerealsHEIFAScore: real,
    wholeGrainsHEIFAScore: real,
    meatAndAlternativeHEIFAScore: real,
    sodiumHEIFAScore: real,
    alcoholHEIFAScore: real,
    waterHEIFAScore: real,
    sugarHEIFAScore: real,
    saturatedFatHEIFAScore: real,
    unsaturatedFatHEIFAScore: real
  )
}
