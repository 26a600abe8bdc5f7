/**
 * The statements of the food intake data access object, as functions from
 * the table's rows (in table order) to the result or to the new rows.
 */
module FoodIntakeTable {
  import opened Wrappers
  import opened Sql
  import opened FoodIntakes

  /** No two rows share the primary key `foodIntakeID`. */
  predicate IdsUnique(fs: seq<FoodIntake>) {
    forall i, j :: 0 <= i < j < |fs| ==> fs[i].foodIntakeID != fs[j].foodIntakeID
  }

  /** Some row has primary key `id`. */
  predicate HasId(fs: seq<FoodIntake>, id: int) {
    exists k :: 0 <= k < |fs| && fs[k].foodIntakeID == id
  }

  /** The questionnaire answers that `updateFoodById` writes. */
  datatype Answers = Answers(
    fruits: bool, vegetables: bool, grains: bool,
    redMeat: bool, seafood: bool, poultry: bool,
    fish: bool, eggs: bool, nutsSeeds: bool,
    persona: string, mealTime: string, sleepTime: string, wakeUpTime: string)

  /** The answers a row holds. */
  function AnswersOf(f: FoodIntake): Answers {
    Answers(f.fruits, f.vegetables, f.grains, f.redMeat, f.seafood, f.poultry, f.fish, f.eggs, f.nutsSeeds,
            f.persona, f.mealTime, f.sleepTime, f.wakeUpTime)
  }

  /** Row `f` with the answers `a` written over its own; its id and user are kept. */
  function Answered(f: FoodIntake, a: Answers): (r: FoodIntake)
    ensures AnswersOf(r) == a
    ensures r.foodIntakeID == f.foodIntakeID && r.userID == f.userID
  {
    f.(fruits := a.fruits, vegetables := a.vegetables, grains := a.grains,
       redMeat := a.redMeat, seafood := a.seafood, poultry := a.poultry,
       fish := a.fish, eggs := a.eggs, nutsSeeds := a.nutsSeeds,
       persona := a.persona, mealTime := a.mealTime, sleepTime := a.sleepTime, wakeUpTime := a.wakeUpTime)
  }

  /** A row is its id, its user and its answers: writing back its own answers changes nothing. */
  lemma AnsweredOwn(f: FoodIntake)
    ensures Answered(f, AnswersOf(f)) == f
  {
  }

  /**
   * `updateFoodById`: every row of user `userID` gets the answers `a`; a
   * null user matches no row, and nothing is inserted.
   */
  function UpdateByUser(fs: seq<FoodIntake>, a: Answers, userID: Option<int>): (r: seq<FoodIntake>)
    ensures |r| == |fs|
    ensures forall k :: 0 <= k < |fs| ==>
      r[k] == if userID.Some? && fs[k].userID == userID then Answered(fs[k], a) else fs[k]
  {
    if |fs| == 0 then []
    else [if userID.Some? && fs[0].userID == userID then Answered(fs[0], a) else fs[0]] + UpdateByUser(fs[1..], a, userID)
  }

  /**
   * `updateFoodById` keeps every row's id and user, leaves other users' rows
   * alone, and changes nothing when no row belongs to the user.
   */
  lemma UpdateByUserSpec(fs: seq<FoodIntake>, a: Answers, userID: Option<int>)
    ensures var r := UpdateByUser(fs, a, userID);
      && (forall k :: 0 <= k < |fs| ==> r[k].foodIntakeID == fs[k].foodIntakeID && r[k].userID == fs[k].userID)
      && (forall k :: 0 <= k < |fs| && fs[k].userID == userID && userID.Some? ==> AnswersOf(r[k]) == a)
      && (forall k :: 0 <= k < |fs| && fs[k].userID != userID ==> r[k] == fs[k])
      && ((forall f :: f in fs ==> f.userID != userID) || userID.None? ==> r == fs)
  {
  }

  /** `getFoodIntakeByID`: the first row of user `userID`; null when there is none or the id is null. */
  function FirstOfUser(fs: seq<FoodIntake>, userID: Option<int>): (r: Option<FoodIntake>)
    ensures r.None? <==> userID.None? || forall f :: f in fs ==> f.userID != userID
    ensures r.Some? ==> r.value in fs && r.value.userID == userID
  {
    if userID.None? || |fs| == 0 then None
    else if fs[0].userID == userID then Some(fs[0])
    else
      assert forall f :: f in fs ==> f == fs[0] || f in fs[1..];
      FirstOfUser(fs[1..], userID)
  }

  /** `update`: the row with `f`'s id becomes `f`; no row matching leaves the table as it was. */
  function ReplaceById(fs: seq<FoodIntake>, f: FoodIntake): (r: seq<FoodIntake>)
    ensures |r| == |fs|
    ensures forall k :: 0 <= k < |fs| ==> r[k] == if fs[k].foodIntakeID == f.foodIntakeID then f else fs[k]
  {
    if |fs| == 0 then []
    else [if fs[0].foodIntakeID == f.foodIntakeID then f else fs[0]] + ReplaceById(fs[1..], f)
  }

  /** `update` keeps the ids, so they stay unique, and the row with `f`'s id, if any, is now `f`. */
  lemma ReplaceByIdSpec(fs: seq<FoodIntake>, f: FoodIntake)
    requires IdsUnique(fs)
    ensures var r := ReplaceById(fs, f);
      && IdsUnique(r)
      && (forall k :: 0 <= k < |fs| ==> r[k].foodIntakeID == fs[k].foodIntakeID)
      && (HasId(fs, f.foodIntakeID) <==> f in r)
      && (!HasId(fs, f.foodIntakeID) ==> r == fs)
  {
    var r := ReplaceById(fs, f);
    assert forall k :: 0 <= k < |fs| ==> r[k].foodIntakeID == fs[k].foodIntakeID;
    SameIdsUnique(fs, r);
    if f in r {
      var k :| 0 <= k < |r| && r[k] == f;
      assert fs[k].foodIntakeID == f.foodIntakeID;
    }
    if HasId(fs, f.foodIntakeID) {
      var k :| 0 <= k < |fs| && fs[k].foodIntakeID == f.foodIntakeID;
      assert r[k] == f;
    } else {
      assert forall k :: 0 <= k < |fs| ==> r[k] == fs[k];
    }
  }

  /** Rows rewritten without touching their ids keep the ids unique. */
  lemma SameIdsUnique(fs: seq<FoodIntake>, gs: seq<FoodIntake>)
    requires IdsUnique(fs)
    requires |fs| == |gs| && forall k :: 0 <= k < |fs| ==> fs[k].foodIntakeID == gs[k].foodIntakeID
    ensures IdsUnique(gs)
  {
  }

  /** `delete`: the row with `f`'s primary key is removed, and only that one. */
  function DeleteById(fs: seq<FoodIntake>, f: FoodIntake): (r: seq<FoodIntake>)
    ensures forall g :: g in r <==> g in fs && g.foodIntakeID != f.foodIntakeID
    ensures IdsUnique(fs) ==> IdsUnique(r)
  {
    var cond := (g: FoodIntake) => g.foodIntakeID != f.foodIntakeID;
    WhereKeepsIdsUnique(fs, cond);
    Where(fs, cond)
  }

  /** On a table with unique ids, `delete` removes one row when the id is present and none otherwise. */
  lemma {:induction false} DeleteByIdCount(fs: seq<FoodIntake>, f: FoodIntake)
    requires IdsUnique(fs)
    ensures |DeleteById(fs, f)| == if HasId(fs, f.foodIntakeID) then |fs| - 1 else |fs|
  {
    if |fs| > 0 {
      var t := fs[1..];
      TailIds(fs);
      DeleteByIdCount(t, f);
      HasIdCons(fs, f.foodIntakeID);
      var cond := (g: FoodIntake) => g.foodIntakeID != f.foodIntakeID;
      assert DeleteById(fs, f) == Where(fs, cond);
      assert DeleteById(t, f) == Where(t, cond);
      if fs[0].foodIntakeID == f.foodIntakeID {
        assert !HasId(t, f.foodIntakeID);
        assert Where(fs, cond) == Where(t, cond);
      } else {
        assert Where(fs, cond) == [fs[0]] + Where(t, cond);
      }
    }
  }

  /** An id is in a table when it is the first row's or in the rest. */
  lemma HasIdCons(fs: seq<FoodIntake>, id: int)
    requires |fs| > 0
    ensures HasId(fs, id) <==> fs[0].foodIntakeID == id || HasId(fs[1..], id)
  {
    if HasId(fs, id) && fs[0].foodIntakeID != id {
      var k :| 0 <= k < |fs| && fs[k].foodIntakeID == id;
      assert fs[1..][k - 1] == fs[k];
    }
    if HasId(fs[1..], id) {
      var k :| 0 <= k < |fs[1..]| && fs[1..][k].foodIntakeID == id;
      assert fs[k + 1] == fs[1..][k];
    }
  }

  /**
   * Under unique ids, the row an insert adds with the key `RowId` picks is
   * new, so ids stay unique.
   */
  lemma InsertKeepsIdsUnique(fs: seq<FoodIntake>, sequence: int, f: FoodIntake)
    requires IdsUnique(fs) && forall g :: g in fs ==> g.foodIntakeID <= sequence
    requires f.foodIntakeID == 0 || !HasId(fs, f.foodIntakeID)
    ensures IdsUnique(fs + [f.(foodIntakeID := RowId(sequence, f.foodIntakeID))])
  {
    var n := f.(foodIntakeID := RowId(sequence, f.foodIntakeID));
    var r := fs + [n];
    forall i | 0 <= i < |fs|
      ensures r[i].foodIntakeID != n.foodIntakeID
    {
      assert fs[i] in fs;
    }
  }

  /** The rows left when patient `userID` is deleted: `ON DELETE CASCADE` removes the patient's rows. */
  function Disown(fs: seq<FoodIntake>, userID: int): (r: seq<FoodIntake>)
    ensures forall f :: f in r <==> f in fs && f.userID != Some(userID)
    ensures IdsUnique(fs) ==> IdsUnique(r)
    ensures (forall f :: f in fs ==> f.userID != Some(userID)) ==> r == fs
  {
    var cond := (f: FoodIntake) => f.userID != Some(userID);
    WhereKeepsIdsUnique(fs, cond);
    WhereAll(fs, cond);
    Where(fs, cond)
  }

  /** The rows left when every patient is deleted: only rows without a user survive the cascade. */
  function Unowned(fs: seq<FoodIntake>): (r: seq<FoodIntake>)
    ensures forall f :: f in r <==> f in fs && f.userID.None?
    ensures IdsUnique(fs) ==> IdsUnique(r)
  {
    var cond := (f: FoodIntake) => f.userID.None?;
    WhereKeepsIdsUnique(fs, cond);
    Where(fs, cond)
  }

  /** Filtering a table with unique ids keeps them unique. */
  lemma {:induction false} WhereKeepsIdsUnique(fs: seq<FoodIntake>, cond: FoodIntake -> bool)
    ensures IdsUnique(fs) ==> IdsUnique(Where(fs, cond))
  {
    if |fs| > 0 && IdsUnique(fs) {
      var t := fs[1..];
      TailIds(fs);
      WhereKeepsIdsUnique(t, cond);
      var w := Where(t, cond);
      if cond(fs[0]) {
        assert Where(fs, cond) == [fs[0]] + w;
        ConsIdsUnique(fs[0], w);
      } else {
        assert Where(fs, cond) == w;
      }
    }
  }

  /** The rows after the first keep unique ids, none of them the first row's. */
  lemma TailIds(fs: seq<FoodIntake>)
    requires IdsUnique(fs) && |fs| > 0
    ensures IdsUnique(fs[1..])
    ensures forall g :: g in fs[1..] ==> g.foodIntakeID != fs[0].foodIntakeID
  {
    forall g | g in fs[1..]
      ensures g.foodIntakeID != fs[0].foodIntakeID
    {
      var k :| 0 <= k < |fs[1..]| && fs[1..][k] == g;
      assert fs[k + 1] == g;
    }
  }

  /** A row whose id no other row has can go in front of a table with unique ids. */
  lemma ConsIdsUnique(x: FoodIntake, rest: seq<FoodIntake>)
    requires IdsUnique(rest) && forall g :: g in rest ==> g.foodIntakeID != x.foodIntakeID
    ensures IdsUnique([x] + rest)
  {
    var r := [x] + rest;
    forall i, j | 0 <= i < j < |r|
      ensures r[i].foodIntakeID != r[j].foodIntakeID
    {
      if i == 0 {
        assert r[j] == rest[j - 1];
      } else {
        assert r[i] == rest[i - 1] && r[j] == rest[j - 1];
      }
    }
  }
}
