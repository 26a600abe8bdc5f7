/**
 * The app's Room database: the `patients`, `food_intake` and
 * `genAI_response` tables, with the foreign keys from the last two to
 * `patients.userID` enforced (Room turns foreign-key enforcement on) and
 * their `ON DELETE CASCADE` actions carried out. Each data access object
 * method is a method of `Database`; the statements themselves are the
 * functions of `PatientTable`, `FoodIntakeTable` and `TipsTable`.
 */
module Store {
  import opened Wrappers
  import opened Sql
  import opened Patients
  import opened FoodIntakes
  import opened Tips
  import PatientTable
  import FoodIntakeTable
  import TipsTable

  /** A child row's reference: null, or the key of some patient. */
  predicate RefersToPatient(ps: seq<Patient>, userID: Option<int>) {
    userID.None? || PatientTable.HasKey(ps, userID.value)
  }

  /**
   * Primary keys are unique, no generated key exceeds its table's sequence,
   * and every reference names a patient.
   */
  ghost predicate Consistent(ps: seq<Patient>, fs: seq<FoodIntake>, fseq: int, ts: seq<NutriCoachTips>, tseq: int) {
    && PatientTable.KeysUnique(ps)
    && FoodIntakeTable.IdsUnique(fs)
    && (forall f :: f in fs ==> f.foodIntakeID <= fseq && RefersToPatient(ps, f.userID))
    && TipsTable.IdsUnique(ts)
    && (forall t :: t in ts ==> t.nutriCoachTipsID <= tseq && RefersToPatient(ps, t.userID))
  }

  class Database {
    var patients: seq<Patient>
    var foodIntakes: seq<FoodIntake>
    /** The largest `foodIntakeID` ever held (the table's `sqlite_sequence` entry). */
    var foodIntakeSequence: int
    var tips: seq<NutriCoachTips>
    /** The largest `nutriCoachTipsID` ever held. */
    var tipsSequence: int

    /** Primary keys are unique, generated keys never repeat, and every reference names a patient. */
    ghost predicate Valid()
      reads this
    {
      Consistent(patients, foodIntakes, foodIntakeSequence, tips, tipsSequence)
    }

    /** A freshly created database: three empty tables. */
    constructor ()
      ensures Valid()
      ensures patients == [] && foodIntakes == [] && tips == []
      ensures foodIntakeSequence == 0 && tipsSequence == 0
    {
      patients := [];
      foodIntakes := [];
      foodIntakeSequence := 0;
      tips := [];
      tipsSequence := 0;
    }

    // ------------------------------------------------------------ patients

    /**
     * `PatientDao.insert` (REPLACE): a row with the same key is deleted, and
     * with it, through the cascade, that patient's food intakes and tips.
     */
    method InsertPatient(p: Patient)
      requires Valid()
      modifies this
      ensures Valid()
      ensures patients == PatientTable.Upsert(old(patients), p)
      ensures foodIntakes == FoodIntakeTable.Disown(old(foodIntakes), p.userID)
      ensures tips == TipsTable.Disown(old(tips), p.userID)
      ensures foodIntakeSequence == old(foodIntakeSequence) && tipsSequence == old(tipsSequence)
    {
      UpsertKeepsConsistent(patients, foodIntakes, foodIntakeSequence, tips, tipsSequence, p);
      patients := PatientTable.Upsert(patients, p);
      foodIntakes := FoodIntakeTable.Disown(foodIntakes, p.userID);
      tips := TipsTable.Disown(tips, p.userID);
    }

    /** `PatientDao.update`: the row with `p`'s key becomes `p`. The key itself never changes, so nothing cascades. */
    method UpdatePatient(p: Patient)
      requires Valid()
      modifies this
      ensures Valid()
      ensures patients == PatientTable.Replace(old(patients), p)
      ensures foodIntakes == old(foodIntakes) && tips == old(tips)
      ensures foodIntakeSequence == old(foodIntakeSequence) && tipsSequence == old(tipsSequence)
    {
      var r := PatientTable.Replace(patients, p);
      SameKeysConsistent(patients, r, foodIntakes, foodIntakeSequence, tips, tipsSequence);
      patients := r;
    }

    /** `PatientDao.updatePatientDetails`. */
    method UpdatePatientDetails(username: string, password: string, isRegister: bool, patientId: Option<int>)
      requires Valid()
      modifies this
      ensures Valid()
      ensures patients == PatientTable.UpdateDetails(old(patients), username, password, isRegister, patientId)
      ensures foodIntakes == old(foodIntakes) && tips == old(tips)
      ensures foodIntakeSequence == old(foodIntakeSequence) && tipsSequence == old(tipsSequence)
    {
      var r := PatientTable.UpdateDetails(patients, username, password, isRegister, patientId);
      assert forall k :: 0 <= k < |patients| ==> r[k].userID == patients[k].userID;
      SameKeysConsistent(patients, r, foodIntakes, foodIntakeSequence, tips, tipsSequence);
      patients := r;
    }

    /** `PatientDao.deleteAllPatients`: every patient goes, and every food intake and tip that refers to one. */
    method DeleteAllPatients()
      requires Valid()
      modifies this
      ensures Valid()
      ensures patients == []
      ensures foodIntakes == FoodIntakeTable.Unowned(old(foodIntakes))
      ensures tips == TipsTable.Unowned(old(tips))
      ensures foodIntakeSequence == old(foodIntakeSequence) && tipsSequence == old(tipsSequence)
    {
      var fs := FoodIntakeTable.Unowned(foodIntakes);
      var ts := TipsTable.Unowned(tips);
      UnownedConsistent(patients, foodIntakes, foodIntakeSequence, tips, tipsSequence);
      patients, foodIntakes, tips := [], fs, ts;
    }

    /** `PatientDao.getAllPatients`. */
    function AllPatients(): seq<Patient>
      reads this
    {
      patients
    }

    /** `PatientDao.getAllUnregisteredPatient`. */
    function UnregisteredPatients(): seq<Patient>
      reads this
    {
      PatientTable.WithRegister(patients, false)
    }

    /** `PatientDao.getAllRegisteredPatient`. */
    function RegisteredPatients(): seq<Patient>
      reads this
    {
      PatientTable.WithRegister(patients, true)
    }

    /** `PatientDao.getAllFirstTimeUserPatient`. */
    function FirstTimeUserPatients(): seq<Patient>
      reads this
    {
      PatientTable.FirstTimeUsers(patients)
    }

    /** `PatientDao.getPatientByID`. */
    function PatientByID(patientId: Option<int>): Option<Patient>
      reads this
    {
      PatientTable.Lookup(patients, patientId)
    }

    /** `PatientDao.getAllPatientsPhoneNumber`. */
    function PatientsPhoneNumbers(): seq<string>
      reads this
    {
      PatientTable.PhoneNumbers(patients)
    }

    /** `PatientDao.getPatientCount`. */
    function PatientCount(): nat
      reads this
    {
      |patients|
    }

    // ------------------------------------------------------------ food intake

    /**
     * `FoodIntakeDao.insert` (ABORT): the row is added with a generated key
     * when its id is 0. A taken id or a reference to no patient aborts the
     * statement, which changes nothing (`ok` false: the call throws).
     */
    method InsertFoodIntake(f: FoodIntake) returns (ok: bool)
      requires Valid()
      modifies this
      ensures Valid()
      ensures ok <==> RefersToPatient(old(patients), f.userID)
                      && (f.foodIntakeID == 0 || !FoodIntakeTable.HasId(old(foodIntakes), f.foodIntakeID))
      ensures ok ==> var id := RowId(old(foodIntakeSequence), f.foodIntakeID);
        && foodIntakes == old(foodIntakes) + [f.(foodIntakeID := id)]
        && foodIntakeSequence == if id > old(foodIntakeSequence) then id else old(foodIntakeSequence)
      ensures !ok ==> foodIntakes == old(foodIntakes) && foodIntakeSequence == old(foodIntakeSequence)
      ensures patients == old(patients) && tips == old(tips) && tipsSequence == old(tipsSequence)
    {
      if !RefersToPatient(patients, f.userID) {
        return false;
      }
      if f.foodIntakeID != 0 && FoodIntakeTable.HasId(foodIntakes, f.foodIntakeID) {
        return false;
      }
      var id := RowId(foodIntakeSequence, f.foodIntakeID);
      FoodIntakeTable.InsertKeepsIdsUnique(foodIntakes, foodIntakeSequence, f);
      foodIntakes := foodIntakes + [f.(foodIntakeID := id)];
      if id > foodIntakeSequence {
        foodIntakeSequence := id;
      }
      ok := true;
    }

    /**
     * `FoodIntakeDao.update`: the row with `f`'s id becomes `f`. When such a
     * row exists and `f` refers to no patient, the statement aborts.
     */
    method UpdateFoodIntake(f: FoodIntake) returns (ok: bool)
      requires Valid()
      modifies this
      ensures Valid()
      ensures ok <==> !FoodIntakeTable.HasId(old(foodIntakes), f.foodIntakeID) || RefersToPatient(old(patients), f.userID)
      ensures ok ==> foodIntakes == FoodIntakeTable.ReplaceById(old(foodIntakes), f)
      ensures !ok ==> foodIntakes == old(foodIntakes)
      ensures patients == old(patients) && tips == old(tips)
      ensures foodIntakeSequence == old(foodIntakeSequence) && tipsSequence == old(tipsSequence)
    {
      if FoodIntakeTable.HasId(foodIntakes, f.foodIntakeID) && !RefersToPatient(patients, f.userID) {
        return false;
      }
      FoodIntakeTable.ReplaceByIdSpec(foodIntakes, f);
      foodIntakes := FoodIntakeTable.ReplaceById(foodIntakes, f);
      ok := true;
    }

    /** `FoodIntakeDao.updateFoodById`: never inserts, and never changes a key or a reference. */
    method UpdateFoodById(a: FoodIntakeTable.Answers, userID: Option<int>)
      requires Valid()
      modifies this
      ensures Valid()
      ensures foodIntakes == FoodIntakeTable.UpdateByUser(old(foodIntakes), a, userID)
      ensures patients == old(patients) && tips == old(tips)
      ensures foodIntakeSequence == old(foodIntakeSequence) && tipsSequence == old(tipsSequence)
    {
      var r := FoodIntakeTable.UpdateByUser(foodIntakes, a, userID);
      FoodIntakeTable.UpdateByUserSpec(foodIntakes, a, userID);
      assert forall g :: g in r ==> g.foodIntakeID <= foodIntakeSequence && RefersToPatient(patients, g.userID) by {
        forall g | g in r
          ensures g.foodIntakeID <= foodIntakeSequence && RefersToPatient(patients, g.userID)
        {
          var k :| 0 <= k < |r| && r[k] == g;
          assert foodIntakes[k] in foodIntakes;
        }
      }
      foodIntakes := r;
    }

    /** `FoodIntakeDao.delete`: the row with `f`'s key goes. */
    method DeleteFoodIntake(f: FoodIntake)
      requires Valid()
      modifies this
      ensures Valid()
      ensures foodIntakes == FoodIntakeTable.DeleteById(old(foodIntakes), f)
      ensures patients == old(patients) && tips == old(tips)
      ensures foodIntakeSequence == old(foodIntakeSequence) && tipsSequence == old(tipsSequence)
    {
      var r := FoodIntakeTable.DeleteById(foodIntakes, f);
      foodIntakes := r;
    }

    /** `FoodIntakeDao.getAllFoodIntakes`. */
    function AllFoodIntakes(): seq<FoodIntake>
      reads this
    {
      foodIntakes
    }

    /** `FoodIntakeDao.getFoodIntakeByID`. */
    function FoodIntakeByID(patientId: Option<int>): Option<FoodIntake>
      reads this
    {
      FoodIntakeTable.FirstOfUser(foodIntakes, patientId)
    }

    // ------------------------------------------------------------ tips

    /**
     * `NutriCoachTipsDao.insert` (ABORT): the tip is appended with a
     * generated key when its id is 0; a taken id or a reference to no
     * patient aborts the statement.
     */
    method InsertTip(t: NutriCoachTips) returns (ok: bool)
      requires Valid()
      modifies this
      ensures Valid()
      ensures ok <==> RefersToPatient(old(patients), t.userID)
                      && (t.nutriCoachTipsID == 0 || !TipsTable.HasId(old(tips), t.nutriCoachTipsID))
      ensures ok ==> var id := RowId(old(tipsSequence), t.nutriCoachTipsID);
        && tips == old(tips) + [t.(nutriCoachTipsID := id)]
        && tipsSequence == if id > old(tipsSequence) then id else old(tipsSequence)
      ensures !ok ==> tips == old(tips) && tipsSequence == old(tipsSequence)
      ensures patients == old(patients) && foodIntakes == old(foodIntakes) && foodIntakeSequence == old(foodIntakeSequence)
    {
      if !RefersToPatient(patients, t.userID) {
        return false;
      }
      if t.nutriCoachTipsID != 0 && TipsTable.HasId(tips, t.nutriCoachTipsID) {
        return false;
      }
      var id := RowId(tipsSequence, t.nutriCoachTipsID);
      TipsTable.InsertKeepsIdsUnique(tips, tipsSequence, t);
      tips := tips + [t.(nutriCoachTipsID := id)];
      if id > tipsSequence {
        tipsSequence := id;
      }
      ok := true;
    }

    /** `NutriCoachTipsDao.deleteAllResponse`. */
    method DeleteAllTips()
      requires Valid()
      modifies this
      ensures Valid()
      ensures tips == []
      ensures patients == old(patients) && foodIntakes == old(foodIntakes)
      ensures foodIntakeSequence == old(foodIntakeSequence) && tipsSequence == old(tipsSequence)
    {
      tips := [];
    }

    /** `NutriCoachTipsDao.getAllResponses`. */
    function AllTips(): seq<NutriCoachTips>
      reads this
    {
      tips
    }

    /** `NutriCoachTipsDao.getAllResponsesById`. */
    function TipsById(patientId: Option<int>): seq<NutriCoachTips>
      reads this
    {
      TipsTable.ByUser(tips, patientId)
    }
  }

  /** A REPLACE insert of a patient, with its cascade, keeps the tables consistent. */
  lemma UpsertKeepsConsistent(ps: seq<Patient>, fs: seq<FoodIntake>, fseq: int, ts: seq<NutriCoachTips>, tseq: int, p: Patient)
    requires Consistent(ps, fs, fseq, ts, tseq)
    ensures Consistent(PatientTable.Upsert(ps, p), FoodIntakeTable.Disown(fs, p.userID), fseq, TipsTable.Disown(ts, p.userID), tseq)
  {
    var ps' := PatientTable.Upsert(ps, p);
    var fs' := FoodIntakeTable.Disown(fs, p.userID);
    var ts' := TipsTable.Disown(ts, p.userID);
    PatientTable.UpsertSpec(ps, p);
    KeptKeys(ps, p);
    assert forall f :: f in fs' ==> f.foodIntakeID <= fseq && RefersToPatient(ps', f.userID);
    assert forall t :: t in ts' ==> t.nutriCoachTipsID <= tseq && RefersToPatient(ps', t.userID);
  }

  /** A key other than the inserted one that was present before a REPLACE insert is still present after it. */
  lemma KeptKeys(ps: seq<Patient>, p: Patient)
    requires PatientTable.KeysUnique(ps)
    ensures forall u :: PatientTable.HasKey(ps, u) && u != p.userID ==> PatientTable.HasKey(PatientTable.Upsert(ps, p), u)
  {
    PatientTable.UpsertSpec(ps, p);
    var r := PatientTable.Upsert(ps, p);
    forall u | PatientTable.HasKey(ps, u) && u != p.userID
      ensures PatientTable.HasKey(r, u)
    {
      var k :| 0 <= k < |ps| && ps[k].userID == u;
      assert ps[k] in ps;
      var j :| 0 <= j < |r| && r[j] == ps[k];
    }
  }

  /** Two tables with the same key at every position have the same keys. */
  lemma SameKeys(ps: seq<Patient>, qs: seq<Patient>)
    requires |ps| == |qs| && forall k :: 0 <= k < |ps| ==> ps[k].userID == qs[k].userID
    ensures PatientTable.KeysUnique(ps) ==> PatientTable.KeysUnique(qs)
    ensures forall u :: PatientTable.HasKey(ps, u) ==> PatientTable.HasKey(qs, u)
  {
  }

  /** Rewriting patients without touching their keys keeps the database consistent. */
  lemma SameKeysConsistent(ps: seq<Patient>, qs: seq<Patient>, fs: seq<FoodIntake>, fseq: int, ts: seq<NutriCoachTips>, tseq: int)
    requires Consistent(ps, fs, fseq, ts, tseq)
    requires |ps| == |qs| && forall k :: 0 <= k < |ps| ==> ps[k].userID == qs[k].userID
    ensures Consistent(qs, fs, fseq, ts, tseq)
  {
    SameKeys(ps, qs);
  }

  /** With every patient gone, the rows that refer to no patient form a consistent database. */
  lemma UnownedConsistent(ps: seq<Patient>, fs: seq<FoodIntake>, fseq: int, ts: seq<NutriCoachTips>, tseq: int)
    requires Consistent(ps, fs, fseq, ts, tseq)
    ensures Consistent([], FoodIntakeTable.Unowned(fs), fseq, TipsTable.Unowned(ts), tseq)
  {
    var fs' := FoodIntakeTable.Unowned(fs);
    var ts' := TipsTable.Unowned(ts);
    assert forall f :: f in fs' ==> f in fs && f.userID.None?;
    assert forall t :: t in ts' ==> t in ts && t.userID.None?;
  }
}
