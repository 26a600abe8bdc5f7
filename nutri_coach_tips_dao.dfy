/**
 * The statements of the coaching tips data access object, as functions from
 * the table's rows (in table order) to the result or to the new rows.
 */
module TipsTable {
  import opened Wrappers
  import opened Sql
  import opened Tips

  /** No two rows share the primary key `nutriCoachTipsID`. */
  predicate IdsUnique(ts: seq<NutriCoachTips>) {
    forall i, j :: 0 <= i < j < |ts| ==> ts[i].nutriCoachTipsID != ts[j].nutriCoachTipsID
  }

  /** Some row has primary key `id`. */
  predicate HasId(ts: seq<NutriCoachTips>, id: int) {
    exists k :: 0 <= k < |ts| && ts[k].nutriCoachTipsID == id
  }

  /** `getAllResponsesById`: the rows of user `userID`; a null id matches no row. */
  function ByUser(ts: seq<NutriCoachTips>, userID: Option<int>): (r: seq<NutriCoachTips>)
    ensures forall t :: t in r <==> t in ts && userID.Some? && t.userID == userID
  {
    Where(ts, (t: NutriCoachTips) => userID.Some? && t.userID == userID)
  }

  /**
   * Appending a tip adds it to its own user's list, at the end, and leaves
   * every other user's list as it was.
   */
  lemma ByUserAfterInsert(ts: seq<NutriCoachTips>, t: NutriCoachTips, userID: Option<int>)
    ensures t.userID == userID && userID.Some? ==> ByUser(ts + [t], userID) == ByUser(ts, userID) + [t]
    ensures t.userID != userID || userID.None? ==> ByUser(ts + [t], userID) == ByUser(ts, userID)
  {
    var cond := (x: NutriCoachTips) => userID.Some? && x.userID == userID;
    WhereAppend(ts, [t], cond);
    assert Where([t], cond) == (if cond(t) then [t] else []) by {
      assert [t][1..] == [];
    }
  }

  /**
   * Under unique ids, the row an insert adds with the key `RowId` picks is
   * new, so ids stay unique.
   */
  lemma InsertKeepsIdsUnique(ts: seq<NutriCoachTips>, sequence: int, t: NutriCoachTips)
    requires IdsUnique(ts) && forall u :: u in ts ==> u.nutriCoachTipsID <= sequence
    requires t.nutriCoachTipsID == 0 || !HasId(ts, t.nutriCoachTipsID)
    ensures IdsUnique(ts + [t.(nutriCoachTipsID := RowId(sequence, t.nutriCoachTipsID))])
  {
    var n := t.(nutriCoachTipsID := RowId(sequence, t.nutriCoachTipsID));
    var r := ts + [n];
    forall i | 0 <= i < |ts|
      ensures r[i].nutriCoachTipsID != n.nutriCoachTipsID
    {
      assert ts[i] in ts;
    }
  }

  /** The rows left when patient `userID` is deleted: `ON DELETE CASCADE` removes the patient's rows. */
  function Disown(ts: seq<NutriCoachTips>, userID: int): (r: seq<NutriCoachTips>)
    ensures forall t :: t in r <==> t in ts && t.userID != Some(userID)
    ensures IdsUnique(ts) ==> IdsUnique(r)
    ensures (forall t :: t in ts ==> t.userID != Some(userID)) ==> r == ts
  {
    var cond := (t: NutriCoachTips) => t.userID != Some(userID);
    WhereKeepsIdsUnique(ts, cond);
    WhereAll(ts, cond);
    Where(ts, cond)
  }

  /** The rows left when every patient is deleted: only rows without a user survive the cascade. */
  function Unowned(ts: seq<NutriCoachTips>): (r: seq<NutriCoachTips>)
    ensures forall t :: t in r <==> t in ts && t.userID.None?
    ensures IdsUnique(ts) ==> IdsUnique(r)
  {
    var cond := (t: NutriCoachTips) => t.userID.None?;
    WhereKeepsIdsUnique(ts, cond);
    Where(ts, cond)
  }

  /** Filtering a table with unique ids keeps them unique. */
  lemma {:induction false} WhereKeepsIdsUnique(ts: seq<NutriCoachTips>, cond: NutriCoachTips -> bool)
    ensures IdsUnique(ts) ==> IdsUnique(Where(ts, cond))
  {
    if |ts| > 0 && IdsUnique(ts) {
      var t := ts[1..];
      TailIds(ts);
      WhereKeepsIdsUnique(t, cond);
      var w := Where(t, cond);
      if cond(ts[0]) {
        assert Where(ts, cond) == [ts[0]] + w;
        ConsIdsUnique(ts[0], w);
      } else {
        assert Where(ts, cond) == w;
      }
    }
  }

  /** The rows after the first keep unique ids, none of them the first row's. */
  lemma TailIds(ts: seq<NutriCoachTips>)
    requires IdsUnique(ts) && |ts| > 0
    ensures IdsUnique(ts[1..])
    ensures forall u :: u in ts[1..] ==> u.nutriCoachTipsID != ts[0].nutriCoachTipsID
  {
    forall u | u in ts[1..]
      ensures u.nutriCoachTipsID != ts[0].nutriCoachTipsID
    {
      var k :| 0 <= k < |ts[1..]| && ts[1..][k] == u;
      assert ts[k + 1] == u;
    }
  }

  /** A row whose id no other row has can go in front of a table with unique ids. */
  lemma ConsIdsUnique(x: NutriCoachTips, rest: seq<NutriCoachTips>)
    requires IdsUnique(rest) && forall u :: u in rest ==> u.nutriCoachTipsID != x.nutriCoachTipsID
    ensures IdsUnique([x] + rest)
  {
    var r := [x] + rest;
    forall i, j | 0 <= i < j < |r|
      ensures r[i].nutriCoachTipsID != r[j].nutriCoachTipsID
    {
      if i == 0 {
        assert r[j] == rest[j - 1];
      } else {
        assert r[i] == rest[i - 1] && r[j] == rest[j - 1];
      }
    }
  }
}
