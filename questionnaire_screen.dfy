/**
 * The food intake questionnaire: nine food checkboxes, a persona, three
 * picked times, the collision flags on the times, the Save button's
 * enabled check, and Save's update-or-insert of the user's response.
 */
module QuestionnaireScreen {
  import opened Wrappers
  import opened KText
  import opened FoodIntakes
  import opened Navigation
  import FoodIntakeTable
  import Store
  import SessionState

  /** The checkbox labels; checkbox `i` is the `i`-th food flag of a response. */
  const FoodList: seq<string> := ["Fruits", "Vegetables", "Grains", "Red Meat", "Seafood", "Poultry", "Fish", "Eggs", "Nuts/Seeds"]

  /** The number of checkboxes, `|FoodList|`. */
  const FoodCount: nat := 9

  /** The nine food flags of a response, in checkbox order. */
  function FlagsOf(f: FoodIntake): (r: seq<bool>)
    ensures |r| == FoodCount
  {
    [f.fruits, f.vegetables, f.grains, f.redMeat, f.seafood, f.poultry, f.fish, f.eggs, f.nutsSeeds]
  }

  /** The answers Save writes: checkbox `i` to the `i`-th flag, then the persona and the three times. */
  function FormAnswers(checked: seq<bool>, persona: string, mealTime: string, sleepTime: string, wakeTime: string): FoodIntakeTable.Answers
    requires |checked| == FoodCount
  {
    FoodIntakeTable.Answers(checked[0], checked[1], checked[2], checked[3], checked[4], checked[5], checked[6], checked[7], checked[8],
                            persona, mealTime, sleepTime, wakeTime)
  }

  /** The checkboxes saved into a row are the checkboxes loaded back from it. */
  lemma CheckboxRoundTrip(f: FoodIntake, checked: seq<bool>, persona: string, mealTime: string, sleepTime: string, wakeTime: string)
    requires |checked| == FoodCount
    ensures FlagsOf(FoodIntakeTable.Answered(f, FormAnswers(checked, persona, mealTime, sleepTime, wakeTime))) == checked
  {
    var a := FormAnswers(checked, persona, mealTime, sleepTime, wakeTime);
    var g := FoodIntakeTable.Answered(f, a);
    assert FlagsOf(g) == [a.fruits, a.vegetables, a.grains, a.redMeat, a.seafood, a.poultry, a.fish, a.eggs, a.nutsSeeds];
    NineFlags(checked);
  }

  /** A sequence of nine flags is the display of its nine elements. */
  lemma NineFlags(s: seq<bool>)
    requires |s| == FoodCount
    ensures s == [s[0], s[1], s[2], s[3], s[4], s[5], s[6], s[7], s[8]]
  {
  }

  /** Loading a row's checkboxes and saving them again writes that row's own answers. */
  lemma LoadThenSaveAnswers(f: FoodIntake)
    ensures FormAnswers(FlagsOf(f), f.persona, f.mealTime, f.sleepTime, f.wakeUpTime) == FoodIntakeTable.AnswersOf(f)
  {
  }

  /** The row Save inserts when the user has none: the answers, a generated key, the user's id. */
  function NewIntake(a: FoodIntakeTable.Answers, userID: Option<int>): (r: FoodIntake)
    ensures FoodIntakeTable.AnswersOf(r) == a && r.foodIntakeID == 0 && r.userID == userID
  {
    FoodIntake(
      fruits := a.fruits, vegetables := a.vegetables, grains := a.grains,
      redMeat := a.redMeat, seafood := a.seafood, poultry := a.poultry,
      fish := a.fish, eggs := a.eggs, nutsSeeds := a.nutsSeeds,
      persona := a.persona, mealTime := a.mealTime, sleepTime := a.sleepTime, wakeUpTime := a.wakeUpTime,
      userID := userID)
  }

  // ---------------------------------------------------------------- validation

  /** What `validateInput` computes: persona and all three times filled in, and some food ticked. */
  predicate InputValid(isCheckedList: seq<bool>, selectedPersona: string, inputEatTime: string, inputSleepTime: string, inputWakeTime: string) {
    && selectedPersona != "" && inputEatTime != "" && inputSleepTime != "" && inputWakeTime != ""
    && exists k :: 0 <= k < |isCheckedList| && isCheckedList[k]
  }

  /** `validateInput`: the Save button's enabled condition. */
  method ValidateInput(isCheckedList: seq<bool>, selectedPersona: string, inputEatTime: string, inputSleepTime: string, inputWakeTime: string)
    returns (result: bool)
    ensures result == InputValid(isCheckedList, selectedPersona, inputEatTime, inputSleepTime, inputWakeTime)
  {
    result := false;
    if selectedPersona != "" && inputWakeTime != "" && inputSleepTime != "" && inputEatTime != "" {
      for index := 0 to |isCheckedList|
        invariant result <==> exists k :: 0 <= k < index && isCheckedList[k]
      {
        if isCheckedList[index] {
          result := true;
        }
      }
    }
  }

  /** Time `t` is flagged: it is filled in and equal to one of the other two. */
  predicate Collides(t: string, other1: string, other2: string) {
    t != "" && (t == other1 || t == other2)
  }

  /**
   * Save is enabled on the input check alone: three identical times, all
   * flagged as colliding, still let a filled-in form be saved.
   */
  lemma SaveIgnoresCollisions()
    ensures var t := FormatTime(7, 0);
      && InputValid([true, false, false, false, false, false, false, false, false], "Health Devotee", t, t, t)
      && Collides(t, t, t)
  {
    var t := FormatTime(7, 0);
    assert t != "";
    var ticks := [true, false, false, false, false, false, false, false, false];
    assert ticks[0];
  }

  // ---------------------------------------------------------------- times

  /** A picked time as the time picker stores it: `"$hour:$minute"`, without zero padding. */
  function FormatTime(hour: int, minute: int): string {
    IntToString(hour) + ":" + IntToString(minute)
  }

  /** A stored time read back as hour and minute. */
  function ParseTime(s: string): Option<(int, int)> {
    var parts := Split(s, ":");
    if |parts| != 2 then None
    else match (ParseInt(parts[0]), ParseInt(parts[1]))
      case (Some(h), Some(m)) => Some((h, m))
      case _ => None
  }

  /** A printed `Int` has no colon in it. */
  lemma NoColon(n: int)
    ensures forall i :: 0 <= i < |IntToString(n)| ==> IntToString(n)[i] != ':'
  {
    if n < 0 {
      var d := Digits(-n);
      assert forall i :: 1 <= i < |IntToString(n)| ==> IntToString(n)[i] == d[i - 1];
    }
  }

  /** In a string with no colon, there is no colon to find. */
  lemma NoColonFound(b: string)
    requires forall i :: 0 <= i < |b| ==> b[i] != ':'
    ensures IndexOf(b, ":") < 0
  {
    forall k | 0 <= k <= |b|
      ensures !OccursAt(b, ":", k)
    {
      if k < |b| {
        assert b[k..k + 1][0] == b[k];
      }
    }
  }

  /** The first colon of `a + ":" + b`, where `a` has none, follows `a`. */
  lemma FirstColon(a: string, b: string)
    requires forall i :: 0 <= i < |a| ==> a[i] != ':'
    ensures IndexOf(a + ":" + b, ":") == |a|
  {
    var s := a + ":" + b;
    assert OccursAt(s, ":", |a|) by {
      assert s[|a|..|a| + 1] == [s[|a|]];
    }
  }

  /** A string with one colon splits into the parts before and after it. */
  lemma SplitAtColon(a: string, b: string)
    requires forall i :: 0 <= i < |a| ==> a[i] != ':'
    requires forall i :: 0 <= i < |b| ==> b[i] != ':'
    ensures Split(a + ":" + b, ":") == [a, b]
  {
    var s := a + ":" + b;
    FirstColon(a, b);
    NoColonFound(b);
    assert s[..|a|] == a;
    assert s[|a| + 1..] == b;
    assert Split(b, ":") == [b];
  }

  /**
   * A picked time reads back as the hour and minute that were picked, so
   * two stored times are equal exactly when the same hour and minute were
   * picked: the collision flags compare picks.
   */
  lemma FormatTimeRoundTrip(hour: int, minute: int)
    requires IsInt32(hour) && IsInt32(minute)
    ensures ParseTime(FormatTime(hour, minute)) == Some((hour, minute))
  {
    NoColon(hour);
    NoColon(minute);
    SplitAtColon(IntToString(hour), IntToString(minute));
    ParseIntToString(hour);
    ParseIntToString(minute);
  }

  /** Two picks give the same stored time only when they are the same pick. */
  lemma FormatTimeInjective(h1: int, m1: int, h2: int, m2: int)
    requires IsInt32(h1) && IsInt32(m1) && IsInt32(h2) && IsInt32(m2)
    ensures FormatTime(h1, m1) == FormatTime(h2, m2) <==> h1 == h2 && m1 == m2
  {
    FormatTimeRoundTrip(h1, m1);
    FormatTimeRoundTrip(h2, m2);
  }

  /** `AuthManager.getCurrentUserId()?.toInt()`: no user gives null, and an id that is not an `Int` throws. */
  function CurrentUserID(id: Option<string>): (r: Outcome<Option<int>>)
    ensures r == Returned(None) <==> id.None?
    ensures r.Returned? && id.Some? ==> r.value.Some? && Some(r.value.value) == ParseInt(id.value)
  {
    match id
    case None => Returned(None)
    case Some(s) =>
      match ParseInt(s)
      case None => Thrown
      case Some(n) => Returned(Some(n))
  }

  /**
   * After a Save of answers `a` for user `u`, the first response of `u`,
   * which is what the screen loads, holds exactly `a`: whether Save updated
   * the user's responses or inserted a first one.
   */
  lemma SaveThenLoad(fs: seq<FoodIntake>, a: FoodIntakeTable.Answers, u: int, id: int)
    ensures FoodIntakeTable.FirstOfUser(fs, Some(u)).Some? ==>
      var r := FoodIntakeTable.FirstOfUser(FoodIntakeTable.UpdateByUser(fs, a, Some(u)), Some(u));
      r.Some? && FoodIntakeTable.AnswersOf(r.value) == a
    ensures FoodIntakeTable.FirstOfUser(fs, Some(u)).None? ==>
      var n := NewIntake(a, Some(u)).(foodIntakeID := id);
      FoodIntakeTable.FirstOfUser(fs + [n], Some(u)) == Some(n) && FoodIntakeTable.AnswersOf(n) == a
  {
    var after := FoodIntakeTable.UpdateByUser(fs, a, Some(u));
    if FoodIntakeTable.FirstOfUser(fs, Some(u)).Some? {
      var f := FoodIntakeTable.FirstOfUser(fs, Some(u)).value;
      var k :| 0 <= k < |fs| && fs[k] == f;
      assert after[k].userID == Some(u);
      assert after[k] in after;
      var r := FoodIntakeTable.FirstOfUser(after, Some(u));
      var j :| 0 <= j < |after| && after[j] == r.value;
      assert fs[j].userID == Some(u);
    } else {
      var n := NewIntake(a, Some(u)).(foodIntakeID := id);
      FirstOfUserAppend(fs, n, Some(u));
    }
  }

  /** When no earlier row belongs to the user, the first row of the user is the appended one. */
  lemma {:induction false} FirstOfUserAppend(fs: seq<FoodIntake>, n: FoodIntake, u: Option<int>)
    requires u.Some? && n.userID == u && forall f :: f in fs ==> f.userID != u
    ensures FoodIntakeTable.FirstOfUser(fs + [n], u) == Some(n)
  {
    if |fs| > 0 {
      assert (fs + [n])[1..] == fs[1..] + [n];
      assert fs[0] in fs;
      FirstOfUserAppend(fs[1..], n, u);
    }
  }

  /** Which of the three times a picker sets. */
  datatype TimeField = Meal | Sleep | Wake

  /** The state of the questionnaire form. */
  class QuestionnaireForm {
    var checkedStates: seq<bool>
    var selectedPersona: string
    var mealTime: string
    var sleepTime: string
    var wakeTime: string
    var mealTimeError: bool
    var sleepTimeError: bool
    var wakeTimeError: bool

    /** One checkbox per food. */
    ghost predicate Valid()
      reads this
    {
      |checkedStates| == FoodCount
    }

    /** Nothing ticked, nothing picked, no errors. */
    constructor ()
      ensures Valid()
      ensures checkedStates == [false, false, false, false, false, false, false, false, false]
      ensures selectedPersona == "" && mealTime == "" && sleepTime == "" && wakeTime == ""
      ensures !mealTimeError && !sleepTimeError && !wakeTimeError
    {
      checkedStates := [false, false, false, false, false, false, false, false, false];
      selectedPersona := "";
      mealTime := "";
      sleepTime := "";
      wakeTime := "";
      mealTimeError := false;
      sleepTimeError := false;
      wakeTimeError := false;
    }

    /** The answers the form holds. */
    function Answers(): FoodIntakeTable.Answers
      requires Valid()
      reads this
    {
      FormAnswers(checkedStates, selectedPersona, mealTime, sleepTime, wakeTime)
    }

    /** Ticking or unticking checkbox `index`. */
    method Check(index: nat, value: bool)
      requires Valid() && index < FoodCount
      modifies this
      ensures Valid() && checkedStates == old(checkedStates)[index := value]
      ensures selectedPersona == old(selectedPersona)
      ensures mealTime == old(mealTime) && sleepTime == old(sleepTime) && wakeTime == old(wakeTime)
    {
      checkedStates := checkedStates[index := value];
    }

    /** A time picker's listener: the field takes `"$hour:$minute"`. */
    method PickTime(field: TimeField, hour: int, minute: int)
      modifies this
      ensures field == Meal ==> mealTime == FormatTime(hour, minute)
      ensures field == Sleep ==> sleepTime == FormatTime(hour, minute)
      ensures field == Wake ==> wakeTime == FormatTime(hour, minute)
      ensures field != Meal ==> mealTime == old(mealTime)
      ensures field != Sleep ==> sleepTime == old(sleepTime)
      ensures field != Wake ==> wakeTime == old(wakeTime)
      ensures checkedStates == old(checkedStates) && selectedPersona == old(selectedPersona)
    {
      var t := FormatTime(hour, minute);
      match field
      case Meal => mealTime := t;
      case Sleep => sleepTime := t;
      case Wake => wakeTime := t;
    }

    /**
     * The collision flags, reset and then set pair by pair: a time is
     * flagged exactly when it is filled in and equal to another time.
     */
    method CheckTimes()
      modifies this
      ensures mealTimeError == Collides(mealTime, sleepTime, wakeTime)
      ensures sleepTimeError == Collides(sleepTime, mealTime, wakeTime)
      ensures wakeTimeError == Collides(wakeTime, mealTime, sleepTime)
      ensures checkedStates == old(checkedStates) && selectedPersona == old(selectedPersona)
      ensures mealTime == old(mealTime) && sleepTime == old(sleepTime) && wakeTime == old(wakeTime)
    {
      mealTimeError := false;
      sleepTimeError := false;
      wakeTimeError := false;
      if mealTime != "" && sleepTime != "" && mealTime == sleepTime {
        mealTimeError := true;
        sleepTimeError := true;
      }
      if mealTime != "" && wakeTime != "" && mealTime == wakeTime {
        mealTimeError := true;
        wakeTimeError := true;
      }
      if sleepTime != "" && wakeTime != "" && sleepTime == wakeTime {
        sleepTimeError := true;
        wakeTimeError := true;
      }
    }

    /** Entering the screen: the user's first stored response, if any, fills the form. */
    method Load(db: Store.Database, currUserID: Option<int>)
      requires Valid()
      modifies this
      ensures Valid()
      ensures var found := FoodIntakeTable.FirstOfUser(db.foodIntakes, currUserID);
        && (found.Some? ==>
              && checkedStates == FlagsOf(found.value) && selectedPersona == found.value.persona
              && mealTime == found.value.mealTime && sleepTime == found.value.sleepTime && wakeTime == found.value.wakeUpTime)
        && (found.None? ==>
              && checkedStates == old(checkedStates) && selectedPersona == old(selectedPersona)
              && mealTime == old(mealTime) && sleepTime == old(sleepTime) && wakeTime == old(wakeTime))
    {
      if currUserID.Some? {
        var foodIntake := db.FoodIntakeByID(currUserID);
        if foodIntake.Some? {
          selectedPersona := foodIntake.value.persona;
          mealTime := foodIntake.value.mealTime;
          sleepTime := foodIntake.value.sleepTime;
          wakeTime := foodIntake.value.wakeUpTime;
          checkedStates := FlagsOf(foodIntake.value);
        }
      }
    }

    /**
     * The Save click. The questionnaire is marked done first; then, when the
     * user already has a response, every response of the user takes the
     * form's answers; otherwise one new response is inserted (`ok` false:
     * the insert aborted because the id names no patient). Home opens.
     */
    method SaveClick(db: Store.Database, state: SessionState.StateManager, currUserID: Option<int>) returns (ok: bool, next: Screen)
      requires Valid() && db.Valid() && state.Valid()
      requires InputValid(checkedStates, selectedPersona, mealTime, sleepTime, wakeTime)
      modifies db, state
      ensures db.Valid() && state.Valid()
      ensures state.prefs == SessionState.AfterCompleted(old(state.prefs))
      ensures next == Home
      ensures FoodIntakeTable.FirstOfUser(old(db.foodIntakes), currUserID).Some? ==>
        && ok && db.foodIntakes == FoodIntakeTable.UpdateByUser(old(db.foodIntakes), Answers(), currUserID)
        && db.foodIntakeSequence == old(db.foodIntakeSequence)
      ensures FoodIntakeTable.FirstOfUser(old(db.foodIntakes), currUserID).None? ==>
        && (ok <==> Store.RefersToPatient(old(db.patients), currUserID))
        && (ok ==>
              && db.foodIntakes == old(db.foodIntakes) + [NewIntake(Answers(), currUserID).(foodIntakeID := old(db.foodIntakeSequence) + 1)]
              && db.foodIntakeSequence == old(db.foodIntakeSequence) + 1)
        && (!ok ==> db.foodIntakes == old(db.foodIntakes) && db.foodIntakeSequence == old(db.foodIntakeSequence))
      ensures db.patients == old(db.patients) && db.tips == old(db.tips) && db.tipsSequence == old(db.tipsSequence)
    {
      state.CompletedQuestionnaire();
      var a := Answers();
      var existingUserRecord := db.FoodIntakeByID(currUserID);
      if existingUserRecord.Some? && existingUserRecord.value.userID == currUserID {
        db.UpdateFoodById(a, currUserID);
        ok := true;
      } else {
        ok := db.InsertFoodIntake(NewIntake(a, currUserID));
      }
      next := Home;
    }
  }
}
