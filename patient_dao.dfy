/**
 * The statements of the patients data access object, as functions from the
 * table's rows (in table order) to the result or to the new rows.
 */
module PatientTable {
  import opened Wrappers
  import opened Sql
  import opened Patients

  /** No two rows share the primary key `userID`. */
  predicate KeysUnique(ps: seq<Patient>) {
    forall i, j :: 0 <= i < j < |ps| ==> ps[i].userID != ps[j].userID
  }

  /** Some row has key `id`. */
  predicate HasKey(ps: seq<Patient>, id: int) {
    exists k :: 0 <= k < |ps| && ps[k].userID == id
  }

  /** `getPatientByID`: the row with key `id`; a null id matches no row. */
  function Lookup(ps: seq<Patient>, id: Option<int>): (r: Option<Patient>)
    ensures r.Some? <==> id.Some? && HasKey(ps, id.value)
    ensures r.Some? ==> r.value in ps && r.value.userID == id.value
  {
    if id.None? || |ps| == 0 then None
    else if ps[0].userID == id.value then Some(ps[0])
    else
      var r := Lookup(ps[1..], id);
      assert HasKey(ps, id.value) ==> HasKey(ps[1..], id.value) by {
        if HasKey(ps, id.value) {
          var k :| 0 <= k < |ps| && ps[k].userID == id.value;
          assert ps[1..][k - 1] == ps[k];
        }
      }
      r
  }

  /** With unique keys, looking up a row's key finds that row. */
  lemma {:induction false} LookupFindsRow(ps: seq<Patient>, p: Patient)
    requires KeysUnique(ps) && p in ps
    ensures Lookup(ps, Some(p.userID)) == Some(p)
  {
    if ps[0] != p {
      assert KeysUnique(ps[1..]);
      assert p in ps[1..] by {
        var k :| 0 <= k < |ps| && ps[k] == p;
        assert k > 0;
        assert ps[1..][k - 1] == p;
      }
      LookupFindsRow(ps[1..], p);
    }
  }

  /**
   * `insert` (conflict strategy REPLACE): the row with the same key gives
   * way to `p`, or `p` is added.
   */
  function Upsert(ps: seq<Patient>, p: Patient): seq<Patient> {
    if |ps| == 0 then [p]
    else if ps[0].userID == p.userID then [p] + ps[1..]
    else [ps[0]] + Upsert(ps[1..], p)
  }

  /**
   * After an insert, exactly one row has `p`'s key and it is `p`; every other
   * row is kept; keys stay unique; the table grows by one row exactly when
   * the key was new.
   */
  lemma {:induction false} UpsertSpec(ps: seq<Patient>, p: Patient)
    requires KeysUnique(ps)
    ensures var r := Upsert(ps, p);
      && KeysUnique(r)
      && p in r
      && (forall q :: q in r && q.userID == p.userID ==> q == p)
      && (forall q :: q in r ==> q == p || q in ps)
      && (forall q :: q in ps && q.userID != p.userID ==> q in r)
      && |r| == (if HasKey(ps, p.userID) then |ps| else |ps| + 1)
  {
    if |ps| == 0 {
      assert !HasKey(ps, p.userID);
    } else {
      var t := ps[1..];
      TailKeys(ps);
      HasKeyCons(ps, p.userID);
      assert forall q :: q in ps ==> q == ps[0] || q in t;
      if ps[0].userID != p.userID {
        UpsertSpec(t, p);
        var u := Upsert(t, p);
        assert Upsert(ps, p) == [ps[0]] + u;
        ConsKeysUnique(ps[0], u);
      } else {
        assert Upsert(ps, p) == [p] + t;
        ConsKeysUnique(p, t);
        assert !HasKey(t, p.userID);
      }
    }
  }

  /** The rows after the first keep unique keys, none of them the first row's. */
  lemma TailKeys(ps: seq<Patient>)
    requires KeysUnique(ps) && |ps| > 0
    ensures KeysUnique(ps[1..])
    ensures forall q :: q in ps[1..] ==> q.userID != ps[0].userID
  {
    forall q | q in ps[1..]
      ensures q.userID != ps[0].userID
    {
      var k :| 0 <= k < |ps[1..]| && ps[1..][k] == q;
      assert ps[k + 1] == q;
    }
  }

  /** A key is in a table when it is the first row's or in the rest. */
  lemma HasKeyCons(ps: seq<Patient>, id: int)
    requires |ps| > 0
    ensures HasKey(ps, id) <==> ps[0].userID == id || HasKey(ps[1..], id)
  {
    if HasKey(ps, id) && ps[0].userID != id {
      var k :| 0 <= k < |ps| && ps[k].userID == id;
      assert ps[1..][k - 1] == ps[k];
    }
    if HasKey(ps[1..], id) {
      var k :| 0 <= k < |ps[1..]| && ps[1..][k].userID == id;
      assert ps[k + 1] == ps[1..][k];
    }
  }

  /** A row whose key no other row has can go in front of a table with unique keys. */
  lemma ConsKeysUnique(x: Patient, u: seq<Patient>)
    requires KeysUnique(u) && forall q :: q in u ==> q.userID != x.userID
    ensures KeysUnique([x] + u)
  {
    var r := [x] + u;
    forall i, j | 0 <= i < j < |r|
      ensures r[i].userID != r[j].userID
    {
      if i == 0 {
        assert r[j] == u[j - 1];
      } else {
        assert r[i] == u[i - 1] && r[j] == u[j - 1];
      }
    }
  }

  /** `update`: the row with `p`'s key becomes `p`; no row matching leaves the table as it was. */
  function Replace(ps: seq<Patient>, p: Patient): (r: seq<Patient>)
    ensures |r| == |ps|
    ensures forall k :: 0 <= k < |ps| ==> r[k] == if ps[k].userID == p.userID then p else ps[k]
  {
    if |ps| == 0 then []
    else [if ps[0].userID == p.userID then p else ps[0]] + Replace(ps[1..], p)
  }

  /** On a table that has `p`'s key, `update` and `insert` agree; otherwise `update` does nothing. */
  lemma UpdateIsUpsertOfExisting(ps: seq<Patient>, p: Patient)
    requires KeysUnique(ps)
    ensures HasKey(ps, p.userID) ==> Replace(ps, p) == Upsert(ps, p)
    ensures !HasKey(ps, p.userID) ==> Replace(ps, p) == ps
  {
    if HasKey(ps, p.userID) {
      UpsertSpec(ps, p);
      ReplaceEqualsUpsert(ps, p);
    } else {
      assert forall k :: 0 <= k < |ps| ==> ps[k].userID != p.userID;
    }
  }

  lemma {:induction false} ReplaceEqualsUpsert(ps: seq<Patient>, p: Patient)
    requires KeysUnique(ps) && HasKey(ps, p.userID)
    ensures Replace(ps, p) == Upsert(ps, p)
  {
    if ps[0].userID != p.userID {
      assert KeysUnique(ps[1..]);
      assert HasKey(ps[1..], p.userID) by {
        var k :| 0 <= k < |ps| && ps[k].userID == p.userID;
        assert ps[1..][k - 1] == ps[k];
      }
      ReplaceEqualsUpsert(ps[1..], p);
    } else {
      assert forall k :: 1 <= k < |ps| ==> ps[k].userID != p.userID;
    }
  }

  /** `patient` with the account fields that `updatePatientDetails` writes. */
  function WithAccount(patient: Patient, username: string, password: string, isRegister: bool): (r: Patient)
    ensures r.username == username && r.password == password && r.isRegister == isRegister
    ensures r.(username := patient.username, password := patient.password, isRegister := patient.isRegister) == patient
  {
    patient.(username := username, password := password, isRegister := isRegister)
  }

  /**
   * `updatePatientDetails`: the row whose key is `patientId` gets the new
   * username, password and registration flag; a null id matches no row.
   */
  function UpdateDetails(ps: seq<Patient>, username: string, password: string, isRegister: bool, patientId: Option<int>): (r: seq<Patient>)
    ensures |r| == |ps|
    ensures forall k :: 0 <= k < |ps| ==>
      r[k] == if patientId == Some(ps[k].userID) then WithAccount(ps[k], username, password, isRegister) else ps[k]
  {
    if |ps| == 0 then []
    else
      [if patientId == Some(ps[0].userID) then WithAccount(ps[0], username, password, isRegister) else ps[0]]
      + UpdateDetails(ps[1..], username, password, isRegister, patientId)
  }

  /**
   * `updatePatientDetails` keeps every key, is a no-op when no row matches,
   * and afterwards the matching row carries the new account fields and its
   * old phone, sex, flags-other-than-registration and scores.
   */
  lemma UpdateDetailsSpec(ps: seq<Patient>, username: string, password: string, isRegister: bool, patientId: Option<int>)
    requires KeysUnique(ps)
    ensures var r := UpdateDetails(ps, username, password, isRegister, patientId);
      && KeysUnique(r)
      && (forall k :: 0 <= k < |ps| ==> r[k].userID == ps[k].userID)
      && (patientId.None? || !HasKey(ps, patientId.value) ==> r == ps)
      && (forall p :: p in ps && patientId == Some(p.userID) ==>
            Lookup(r, patientId) == Some(WithAccount(p, username, password, isRegister)))
  {
    var r := UpdateDetails(ps, username, password, isRegister, patientId);
    assert forall k :: 0 <= k < |ps| ==> r[k].userID == ps[k].userID;
    SameKeysUnique(ps, r);
    if patientId.None? || !HasKey(ps, patientId.value) {
      assert forall k :: 0 <= k < |ps| ==> r[k] == ps[k];
    }
    forall p | p in ps && patientId == Some(p.userID)
      ensures Lookup(r, patientId) == Some(WithAccount(p, username, password, isRegister))
    {
      var k :| 0 <= k < |ps| && ps[k] == p;
      assert r[k] in r;
      LookupFindsRow(r, r[k]);
    }
  }

  /** Rows rewritten without touching their keys keep the keys unique. */
  lemma SameKeysUnique(ps: seq<Patient>, qs: seq<Patient>)
    requires KeysUnique(ps)
    requires |ps| == |qs| && forall k :: 0 <= k < |ps| ==> ps[k].userID == qs[k].userID
    ensures KeysUnique(qs)
  {
  }

  /** `getAllUnregisteredPatient` (with `false`) and `getAllRegisteredPatient` (with `true`). */
  function WithRegister(ps: seq<Patient>, isRegister: bool): (r: seq<Patient>)
    ensures forall p :: p in r <==> p in ps && p.isRegister == isRegister
  {
    Where(ps, (p: Patient) => p.isRegister == isRegister)
  }

  /** Every row is in exactly one of the unregistered and registered results. */
  lemma RegisterPartition(ps: seq<Patient>)
    ensures multiset(WithRegister(ps, false)) + multiset(WithRegister(ps, true)) == multiset(ps)
  {
    WherePartition(ps, (p: Patient) => p.isRegister == false, (p: Patient) => p.isRegister == true);
  }

  /** `getAllFirstTimeUserPatient`. */
  function FirstTimeUsers(ps: seq<Patient>): (r: seq<Patient>)
    ensures forall p :: p in r <==> p in ps && p.isFirstTimeUser
  {
    Where(ps, (p: Patient) => p.isFirstTimeUser)
  }

  /** `getAllPatientsPhoneNumber`: one phone per row, in table order. */
  function PhoneNumbers(ps: seq<Patient>): (r: seq<string>)
    ensures |r| == |ps| && forall k :: 0 <= k < |ps| ==> r[k] == ps[k].phoneNumber
  {
    if |ps| == 0 then [] else [ps[0].phoneNumber] + PhoneNumbers(ps[1..])
  }

  /** A phone is listed exactly when some row has it. */
  lemma PhoneListed(ps: seq<Patient>, phone: string)
    ensures phone in PhoneNumbers(ps) <==> exists p :: p in ps && p.phoneNumber == phone
  {
    var r := PhoneNumbers(ps);
    if phone in r {
      var k :| 0 <= k < |r| && r[k] == phone;
      assert ps[k] in ps;
    }
  }
}
