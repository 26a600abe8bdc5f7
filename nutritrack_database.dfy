/**
 * First-launch seeding of the patients table from the CSV asset: every
 * imported user is converted to a `Patient`, and the patients are inserted
 * one by one, but only when the table is empty. Any exception during import
 * or conversion is caught, and nothing is inserted.
 */
module Seeding {
  import opened Wrappers
  import opened KText
  import opened CsvParser
  import opened Patients
  import opened Store
  import PatientTable
  import FoodIntakeTable
  import TipsTable

  /** The twelve category scores of a patient, keyed by the names the import uses. */
  function CategoryScores(p: Patient): map<string, real> {
    map[
      "Discretionary" := p.discretionaryHEIFAScore,
      "Vegetables" := p.vegetableHEIFAScore,
      "Fruit" := p.fruitHEIFAScore,
      "Grainsandcereals" := p.grainAndCerealsHEIFAScore,
      "Wholegrains" := p.wholeGrainsHEIFAScore,
      "Meatandalternatives" := p.meatAndAlternativeHEIFAScore,
      "Sodium" := p.sodiumHEIFAScore,
      "Alcohol" := p.alcoholHEIFAScore,
      "Water" := p.waterHEIFAScore,
      "Sugar" := p.sugarHEIFAScore,
      "SaturatedFat" := p.saturatedFatHEIFAScore,
      "UnsaturatedFat" := p.unsaturatedFatHEIFAScore
    ]
  }

  /** Every category has a score. */
  predicate HasAllCategories(scores: map<string, real>) {
    forall c :: c in Categories ==> c in scores
  }

  /** Every category name the conversion reads is a key of a map that has all categories. */
  lemma CategoryKeys(m: map<string, real>)
    requires HasAllCategories(m)
    ensures "Discretionary" in m && "Vegetables" in m && "Fruit" in m
    ensures "Grainsandcereals" in m && "Wholegrains" in m && "Meatandalternatives" in m
    ensures "Sodium" in m && "Alcohol" in m && "Water" in m && "Sugar" in m
    ensures "SaturatedFat" in m && "UnsaturatedFat" in m
  {
    assert Categories[0] in Categories && Categories[1] in Categories && Categories[2] in Categories;
    assert Categories[3] in Categories && Categories[4] in Categories && Categories[5] in Categories;
    assert Categories[6] in Categories && Categories[7] in Categories && Categories[8] in Categories;
    assert Categories[9] in Categories && Categories[10] in Categories && Categories[11] in Categories;
  }

  /**
   * The `Patient` of one imported user; `None` where `toInt` throws on the
   * id or `getValue` throws on a missing category.
   */
  function PatientOf(u: User): Option<Patient> {
    var m := u.foodCategoryHEIFAScore.foodCategoryScoreMap;
    match ParseInt(u.userID)
    case None => None
    case Some(id) =>
      if !HasAllCategories(m) then None
      else
        CategoryKeys(m);
        Some(Patient(
        userID := id,
        phoneNumber := u.phoneNum,
        gender := u.gender,
        totalHEIFAScore := u.foodCategoryHEIFAScore.totalScore,
        discretionaryHEIFAScore := m["Discretionary"],
        vegetableHEIFAScore := m["Vegetables"],
        fruitHEIFAScore := m["Fruit"],
        grainAndCerealsHEIFAScore := m["Grainsandcereals"],
        wholeGrainsHEIFAScore := m["Wholegrains"],
        meatAndAlternativeHEIFAScore := m["Meatandalternatives"],
        sodiumHEIFAScore := m["Sodium"],
        alcoholHEIFAScore := m["Alcohol"],
        waterHEIFAScore := m["Water"],
        sugarHEIFAScore := m["Sugar"],
        saturatedFatHEIFAScore := m["SaturatedFat"],
        unsaturatedFatHEIFAScore := m["UnsaturatedFat"]))
  }

  /**
   * A user converts exactly when the id is an `Int` and every category has a
   * score. The patient's key is that `Int`; phone, sex and total are copied;
   * its twelve category scores are the user's map on the twelve categories;
   * the account fields keep their defaults (no username or password, first
   * time, not registered).
   */
  lemma PatientOfSpec(u: User)
    ensures var r := PatientOf(u); var m := u.foodCategoryHEIFAScore.foodCategoryScoreMap;
      && (r.Some? <==> ParseInt(u.userID).Some? && HasAllCategories(m))
      && (r.Some? ==>
            && Some(r.value.userID) == ParseInt(u.userID)
            && r.value.phoneNumber == u.phoneNum && r.value.gender == u.gender
            && r.value.totalHEIFAScore == u.foodCategoryHEIFAScore.totalScore
            && (forall c :: c in Categories ==> CategoryScores(r.value)[c] == m[c])
            && CategoryScores(r.value).Keys == set c | c in Categories
            && r.value.username == "" && r.value.password == ""
            && r.value.isFirstTimeUser && !r.value.isRegister)
  {
    var r := PatientOf(u);
    if r.Some? {
      CategoryScoresKeys(r.value);
      ScoresCopied(r.value, u.foodCategoryHEIFAScore.foodCategoryScoreMap);
    }
  }

  /** A patient's score map has exactly the twelve categories as keys. */
  lemma CategoryScoresKeys(p: Patient)
    ensures CategoryScores(p).Keys == set c | c in Categories
  {
    var keys := set c | c in Categories;
    assert forall c :: c in keys <==> c in CategoryScores(p);
  }

  /** A patient built from a score map by the conversion's fixed keys agrees with the map on every category. */
  lemma ScoresCopied(p: Patient, m: map<string, real>)
    requires HasAllCategories(m)
    requires
      && p.discretionaryHEIFAScore == m["Discretionary"] && p.vegetableHEIFAScore == m["Vegetables"]
      && p.fruitHEIFAScore == m["Fruit"] && p.grainAndCerealsHEIFAScore == m["Grainsandcereals"]
      && p.wholeGrainsHEIFAScore == m["Wholegrains"] && p.meatAndAlternativeHEIFAScore == m["Meatandalternatives"]
      && p.sodiumHEIFAScore == m["Sodium"] && p.alcoholHEIFAScore == m["Alcohol"]
      && p.waterHEIFAScore == m["Water"] && p.sugarHEIFAScore == m["Sugar"]
      && p.saturatedFatHEIFAScore == m["SaturatedFat"] && p.unsaturatedFatHEIFAScore == m["UnsaturatedFat"]
    ensures forall c :: c in Categories ==> CategoryScores(p)[c] == m[c]
  {
  }

  /** `csvPatientData.map { … }`: all users converted, or `None` as soon as one conversion throws. */
  function PatientsOf(users: seq<User>): (r: Option<seq<Patient>>)
    ensures r.Some? <==> forall k :: 0 <= k < |users| ==> PatientOf(users[k]).Some?
    ensures r.Some? ==> |r.value| == |users| && forall k :: 0 <= k < |users| ==> Some(r.value[k]) == PatientOf(users[k])
  {
    if forall k :: 0 <= k < |users| ==> PatientOf(users[k]).Some? then
      Some(seq(|users|, k requires 0 <= k < |users| => PatientOf(users[k]).value))
    else None
  }

  /** The table after inserting `list` in order into `ps`, each insert replacing a row with the same key. */
  function UpsertAll(ps: seq<Patient>, list: seq<Patient>): seq<Patient>
    decreases |list|
  {
    if |list| == 0 then ps
    else PatientTable.Upsert(UpsertAll(ps, list[..|list| - 1]), list[|list| - 1])
  }

  /**
   * Inserting a list into an empty table leaves unique keys; each row is an
   * element of the list; and an element whose key no later element shares
   * is in the table. So for every key the last element with it wins.
   */
  lemma {:induction false} UpsertAllLastWins(list: seq<Patient>)
    ensures var r := UpsertAll([], list);
      && PatientTable.KeysUnique(r)
      && (forall p :: p in r ==> p in list)
      && (forall k :: 0 <= k < |list| && (forall j :: k < j < |list| ==> list[j].userID != list[k].userID) ==> list[k] in r)
  {
    if |list| > 0 {
      var init := list[..|list| - 1];
      var last := list[|list| - 1];
      UpsertAllLastWins(init);
      var prev := UpsertAll([], init);
      PatientTable.UpsertSpec(prev, last);
      var r := UpsertAll([], list);
      assert r == PatientTable.Upsert(prev, last);
      forall k | 0 <= k < |list| && (forall j :: k < j < |list| ==> list[j].userID != list[k].userID)
        ensures list[k] in r
      {
        if k < |list| - 1 {
          assert init[k] == list[k];
          assert list[k] in prev;
        }
      }
    }
  }

  /** The patients the seeding inserts: none when the import throws or a conversion throws. */
  function SeedList(lines: seq<string>, parse: string -> Option<real>, toastThrows: bool): Option<seq<Patient>> {
    match AllUsersOf(lines, parse, toastThrows)
    case Thrown => None
    case Returned(users) => PatientsOf(users)
  }

  /** The patients table after seeding an empty table. */
  function SeededPatients(lines: seq<string>, parse: string -> Option<real>, toastThrows: bool): seq<Patient> {
    match SeedList(lines, parse, toastThrows)
    case None => []
    case Some(list) => UpsertAll([], list)
  }

  /**
   * Seeding inserts all or nothing: one user that fails to convert leaves
   * the table empty. Every seeded row comes from an imported user and keeps
   * the account defaults.
   */
  lemma SeedingAllOrNothing(lines: seq<string>, parse: string -> Option<real>, toastThrows: bool)
    ensures var r := SeededPatients(lines, parse, toastThrows);
      && (AllUsersOf(lines, parse, toastThrows).Returned? ==>
            var users := AllUsersOf(lines, parse, toastThrows).value;
            && ((exists k :: 0 <= k < |users| && PatientOf(users[k]).None?) ==> r == [])
            && (forall p :: p in r ==> exists k :: 0 <= k < |users| && PatientOf(users[k]) == Some(p)))
      && (AllUsersOf(lines, parse, toastThrows).Thrown? ==> r == [])
      && PatientTable.KeysUnique(r)
      && forall p :: p in r ==> p.username == "" && p.password == "" && p.isFirstTimeUser && !p.isRegister
  {
    var list := SeedList(lines, parse, toastThrows);
    if list.Some? {
      var users := AllUsersOf(lines, parse, toastThrows).value;
      UpsertAllLastWins(list.value);
      forall p | p in SeededPatients(lines, parse, toastThrows)
        ensures (exists k :: 0 <= k < |users| && PatientOf(users[k]) == Some(p))
        ensures p.username == "" && p.password == "" && p.isFirstTimeUser && !p.isRegister
      {
        var k :| 0 <= k < |list.value| && list.value[k] == p;
        assert PatientOf(users[k]) == Some(p);
        PatientOfSpec(users[k]);
      }
    }
  }

  /**
   * `loadInitialData`: when the patients table is empty, import the users,
   * convert them all, and insert the patients in order; on a non-empty
   * table, write nothing.
   */
  method LoadInitialData(db: Database, lines: seq<string>, parse: string -> Option<real>, toastThrows: bool)
    requires db.Valid()
    modifies db
    ensures db.Valid()
    ensures old(db.PatientCount()) != 0 ==> unchanged(db)
    ensures old(db.PatientCount()) == 0 ==>
      && db.patients == SeededPatients(lines, parse, toastThrows)
      && db.foodIntakes == old(db.foodIntakes) && db.tips == old(db.tips)
      && db.foodIntakeSequence == old(db.foodIntakeSequence) && db.tipsSequence == old(db.tipsSequence)
  {
    if db.PatientCount() != 0 {
      return;
    }
    var csvPatientData := GetAllUserData(lines, parse, toastThrows);
    if csvPatientData.Thrown? {
      return;
    }
    var patientList := PatientsOf(csvPatientData.value);
    if patientList.None? || |patientList.value| == 0 {
      return;
    }
    InsertPatients(db, patientList.value);
  }

  /** The insert loop of the seeding: each patient in list order, into an empty patients table. */
  method InsertPatients(db: Database, list: seq<Patient>)
    requires db.Valid() && db.patients == []
    modifies db
    ensures db.Valid()
    ensures db.patients == UpsertAll([], list)
    ensures db.foodIntakes == old(db.foodIntakes) && db.tips == old(db.tips)
    ensures db.foodIntakeSequence == old(db.foodIntakeSequence) && db.tipsSequence == old(db.tipsSequence)
  {
    for i := 0 to |list|
      invariant db.Valid()
      invariant db.patients == UpsertAll([], list[..i])
      invariant db.foodIntakes == old(db.foodIntakes) && db.tips == old(db.tips)
      invariant forall f :: f in db.foodIntakes ==> f.userID.None?
      invariant forall t :: t in db.tips ==> t.userID.None?
      invariant db.foodIntakeSequence == old(db.foodIntakeSequence) && db.tipsSequence == old(db.tipsSequence)
    {
      assert list[..i + 1][..i] == list[..i];
      NoPatientOwnsRows(db.foodIntakes, db.tips, list[i].userID);
      db.InsertPatient(list[i]);
    }
    assert list[..|list|] == list;
  }

  /** Rows that refer to no patient are untouched by the cascade of an insert. */
  lemma NoPatientOwnsRows(fs: seq<FoodIntakes.FoodIntake>, ts: seq<Tips.NutriCoachTips>, userID: int)
    requires forall f :: f in fs ==> f.userID.None?
    requires forall t :: t in ts ==> t.userID.None?
    ensures FoodIntakeTable.Disown(fs, userID) == fs
    ensures TipsTable.Disown(ts, userID) == ts
  {
  }
}
