/** Where a click handler sends the user next. */
module Navigation {
  /** `Stay` is no navigation: the handler only updates the screen's own state. */
  datatype Screen = Stay | Login | Register | Questionnaire | Home | ClinicianView
}
