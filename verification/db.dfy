/**
 * The database helpers of the astronomy to-do list: creating, updating and deleting a user's
 * items, and synchronising the stored list with the list the browser holds (update the items the
 * user already has, create the others, delete the stored ones the list no longer names). Also the
 * order of observation collections and the title of a catalogue object.
 */
module Db {
  import opened Wrappers
  import opened Text
  import opened TodoTypes
  import opened Sorting

  /** A stored to-do row; the optional text fields hold `null` as `None`. */
  datatype TodoRow = TodoRow(
    id: string, userId: string, name: string, ra: string, dec: string, magnitude: string,
    size: string, objectType: Option<string>, addedAt: string, completed: bool,
    completedAt: Option<string>, goalTime: Option<string>, notes: Option<string>,
    flagged: bool, lastUpdated: string)

  /** `v || null`: an absent or empty text is stored as `null`. */
  function OrNull(v: Option<string>): (r: Option<string>)
    ensures r.Some? ==> r.value != ""
    ensures r == NonEmpty(v)
  {
    NonEmpty(v)
  }

  /** `flagged || false`. */
  function FlagOrFalse(v: Option<bool>): bool
  {
    v == Some(true)
  }

  /** The row `createAstronomyTodoItem` inserts; `now` is the creation time. */
  function NewRow(userId: string, item: AstronomyObject, now: string): TodoRow
  {
    TodoRow(item.id, userId, item.name, item.ra, item.dec, item.magnitude, item.size,
      OrNull(item.objectType), item.addedAt, item.completed, OrNull(item.completedAt),
      OrNull(item.goalTime), OrNull(item.notes), FlagOrFalse(item.flagged), now)
  }

  /** The row after `updateAstronomyTodoItem`: the item's fields, with the row's id, owner and `addedAt`. */
  function UpdatedRow(row: TodoRow, item: AstronomyObject, now: string): TodoRow
  {
    TodoRow(row.id, row.userId, item.name, item.ra, item.dec, item.magnitude, item.size,
      OrNull(item.objectType), row.addedAt, item.completed, OrNull(item.completedAt),
      OrNull(item.goalTime), OrNull(item.notes), FlagOrFalse(item.flagged), now)
  }

  /** The item read back from a stored row. */
  function AsItem(row: TodoRow): AstronomyObject
  {
    AstronomyObject(row.id, row.name, row.ra, row.dec, row.magnitude, row.size, row.objectType,
      row.addedAt, row.completed, row.completedAt, row.goalTime, row.notes, Some(row.flagged))
  }

  /** Every row is filed under its own id, the primary key. */
  predicate Keyed(rows: map<string, TodoRow>)
  {
    forall id :: id in rows ==> rows[id].id == id
  }

  /** The ids of the user's rows. */
  function Owned(rows: map<string, TodoRow>, userId: string): set<string>
  {
    set id | id in rows && rows[id].userId == userId
  }

  /**
   * `createAstronomyTodoItem`: the row is inserted and read back; an id already in use (by this
   * or another user) violates the primary key and inserts nothing.
   */
  function CreateOutcome(rows: map<string, TodoRow>, userId: string, item: AstronomyObject, now: string)
    : (Result<AstronomyObject>, map<string, TodoRow>)
  {
    if item.id in rows then (Failure("Validation error: id must be unique"), rows)
    else (Success(AsItem(NewRow(userId, item, now))), rows[item.id := NewRow(userId, item, now)])
  }

  /**
   * `updateAstronomyTodoItem`: the user's row with the item's id takes the item's fields, and the
   * item is answered as it was given; without such a row nothing changes and the call fails.
   */
  function UpdateOutcome(rows: map<string, TodoRow>, userId: string, item: AstronomyObject, now: string)
    : (Result<AstronomyObject>, map<string, TodoRow>)
  {
    if item.id in rows && rows[item.id].userId == userId then
      (Success(item), rows[item.id := UpdatedRow(rows[item.id], item, now)])
    else (Failure("Todo item not found or not authorized to update"), rows)
  }

  /** A created item is stored with `null` for empty optional texts and `false` for a missing flag, and read back so. */
  lemma CreateSpec(rows: map<string, TodoRow>, userId: string, item: AstronomyObject, now: string)
    requires Keyed(rows)
    ensures var (r, after) := CreateOutcome(rows, userId, item, now);
      && (r.Success? <==> item.id !in rows)
      && Keyed(after)
      && (r.Success? ==> && after.Keys == rows.Keys + {item.id}
                         && after[item.id].userId == userId
                         && after[item.id].flagged == (item.flagged == Some(true))
                         && (item.notes.None? || item.notes == Some("") ==> after[item.id].notes.None?)
                         && r.value.id == item.id && r.value.flagged.Some?)
      && (forall id :: id in rows ==> id in after && after[id] == rows[id])
  {
  }

  /** An update fails exactly when the user owns no row with the id; it changes only that row and keeps its owner and `addedAt`. */
  lemma UpdateSpec(rows: map<string, TodoRow>, userId: string, item: AstronomyObject, now: string)
    requires Keyed(rows)
    ensures var (r, after) := UpdateOutcome(rows, userId, item, now);
      && (r.Failure? <==> item.id !in Owned(rows, userId))
      && Keyed(after) && after.Keys == rows.Keys
      && (r.Success? ==> r.value == item && after[item.id].addedAt == rows[item.id].addedAt
                         && after[item.id].userId == userId && after[item.id].name == item.name)
      && (forall id :: id in rows && id != item.id ==> after[id] == rows[id])
  {
  }

  /** The rows after deleting the user's rows with the given ids. */
  function DeleteIds(rows: map<string, TodoRow>, userId: string, ids: set<string>): (r: map<string, TodoRow>)
    ensures forall id :: id in r <==> id in rows && !(id in ids && rows[id].userId == userId)
    ensures forall id :: id in r ==> r[id] == rows[id]
  {
    map id | id in rows && !(id in ids && rows[id].userId == userId) :: rows[id]
  }

  /** Where the synchronisation loop is: the rows, the answers so far, and the error that stopped it. */
  datatype SyncState = SyncState(rows: map<string, TodoRow>, results: seq<AstronomyObject>, failed: Option<string>)

  /** One item of the loop: an id the user had at the start is updated, any other is created. */
  function SyncStep(s: SyncState, userId: string, existing: set<string>, item: AstronomyObject, now: string): SyncState
  {
    var (r, rows) := if item.id in existing then UpdateOutcome(s.rows, userId, item, now)
                     else CreateOutcome(s.rows, userId, item, now);
    if r.Failure? then SyncState(rows, s.results, Some(r.error)) else SyncState(rows, s.results + [r.value], None)
  }

  /** The loop over the items, stopping at the first that fails; the rows written before it stay written. */
  function SyncLoop(rows: map<string, TodoRow>, userId: string, existing: set<string>, items: seq<AstronomyObject>, now: string)
    : SyncState
    decreases |items|
  {
    if |items| == 0 then SyncState(rows, [], None)
    else
      var s := SyncLoop(rows, userId, existing, items[..|items| - 1], now);
      if s.failed.Some? then s else SyncStep(s, userId, existing, items[|items| - 1], now)
  }

  /** The ids the item list names. */
  function ItemIds(items: seq<AstronomyObject>): set<string>
  {
    set k | 0 <= k < |items| :: items[k].id
  }

  /** Once the loop has failed it stays failed, with the same rows and answers. */
  lemma {:induction false} SyncLoopFailedStays(rows: map<string, TodoRow>, userId: string, existing: set<string>,
                                               items: seq<AstronomyObject>, now: string, k: nat)
    requires k <= |items| && SyncLoop(rows, userId, existing, items[..k], now).failed.Some?
    ensures SyncLoop(rows, userId, existing, items, now) == SyncLoop(rows, userId, existing, items[..k], now)
    decreases |items|
  {
    if k < |items| {
      assert items[..|items| - 1][..k] == items[..k];
      SyncLoopFailedStays(rows, userId, existing, items[..|items| - 1], now, k);
    } else {
      assert items[..k] == items;
    }
  }

  /**
   * The rows the loop leaves behind while it succeeds: every user's id from the start is still
   * the user's, other users' rows are untouched, and each processed item's id is now the user's.
   */
  predicate LoopInvariant(start: map<string, TodoRow>, userId: string, existing: set<string>,
                          done: seq<AstronomyObject>, rows: map<string, TodoRow>)
  {
    && Keyed(rows)
    && (forall id :: id in existing ==> id in rows && rows[id].userId == userId)
    && (forall id :: id in start && start[id].userId != userId ==> id in rows && rows[id] == start[id])
    && (forall k :: 0 <= k < |done| ==> done[k].id in rows && rows[done[k].id].userId == userId)
    && (forall id :: id in rows ==> id in start || id in ItemIds(done))
  }

  lemma ItemIdsSnoc(done: seq<AstronomyObject>, item: AstronomyObject)
    ensures ItemIds(done + [item]) == ItemIds(done) + {item.id}
  {
    var all := done + [item];
    forall id | id in ItemIds(all) ensures id in ItemIds(done) + {item.id} {
      var k :| 0 <= k < |all| && all[k].id == id;
      if k < |done| { assert all[k] == done[k]; }
    }
    forall id | id in ItemIds(done) ensures id in ItemIds(all) {
      var k :| 0 <= k < |done| && done[k].id == id;
      assert all[k] == done[k];
    }
    assert all[|done|] == item;
  }

  /** One successful step of the loop keeps its invariant and answers the item itself for an update. */
  lemma SyncStepSpec(start: map<string, TodoRow>, userId: string, existing: set<string>,
                     done: seq<AstronomyObject>, s: SyncState, item: AstronomyObject, now: string)
    requires existing == Owned(start, userId)
    requires LoopInvariant(start, userId, existing, done, s.rows)
    requires SyncStep(s, userId, existing, item, now).failed.None?
    ensures var t := SyncStep(s, userId, existing, item, now);
      && LoopInvariant(start, userId, existing, done + [item], t.rows)
      && t.results == s.results + [if item.id in existing then item else t.results[|s.results|]]
  {
    ItemIdsSnoc(done, item);
    if item.id in existing {
      SyncStepUpdate(start, userId, existing, done, s, item, now);
    } else {
      SyncStepCreate(start, userId, existing, done, s, item, now);
    }
  }

  /** An update step keeps the invariant and answers the item. */
  lemma SyncStepUpdate(start: map<string, TodoRow>, userId: string, existing: set<string>,
                       done: seq<AstronomyObject>, s: SyncState, item: AstronomyObject, now: string)
    requires existing == Owned(start, userId) && item.id in existing
    requires LoopInvariant(start, userId, existing, done, s.rows)
    requires ItemIds(done + [item]) == ItemIds(done) + {item.id}
    ensures var t := SyncStep(s, userId, existing, item, now);
      && LoopInvariant(start, userId, existing, done + [item], t.rows)
      && t.results == s.results + [item]
  {
    var t := SyncStep(s, userId, existing, item, now);
    assert t.rows == s.rows[item.id := UpdatedRow(s.rows[item.id], item, now)];
    DoneOwnedSnoc(userId, done, item, t.rows);
  }

  /** A successful create step keeps the invariant and answers one row. */
  lemma SyncStepCreate(start: map<string, TodoRow>, userId: string, existing: set<string>,
                       done: seq<AstronomyObject>, s: SyncState, item: AstronomyObject, now: string)
    requires existing == Owned(start, userId) && item.id !in existing
    requires LoopInvariant(start, userId, existing, done, s.rows)
    requires SyncStep(s, userId, existing, item, now).failed.None?
    requires ItemIds(done + [item]) == ItemIds(done) + {item.id}
    ensures var t := SyncStep(s, userId, existing, item, now);
      && LoopInvariant(start, userId, existing, done + [item], t.rows)
      && |t.results| == |s.results| + 1 && t.results[..|s.results|] == s.results
  {
    var t := SyncStep(s, userId, existing, item, now);
    assert item.id !in s.rows;
    assert t.rows == s.rows[item.id := NewRow(userId, item, now)];
    DoneOwnedSnoc(userId, done, item, t.rows);
  }

  /** The processed items stay the user's after one more item becomes the user's. */
  lemma DoneOwnedSnoc(userId: string, done: seq<AstronomyObject>, item: AstronomyObject, rows: map<string, TodoRow>)
    requires forall k :: 0 <= k < |done| ==> done[k].id in rows && rows[done[k].id].userId == userId
    requires item.id in rows && rows[item.id].userId == userId
    ensures forall k :: 0 <= k < |done + [item]| ==> (done + [item])[k].id in rows && rows[(done + [item])[k].id].userId == userId
  {
    var all := done + [item];
    forall k | 0 <= k < |all| ensures all[k].id in rows && rows[all[k].id].userId == userId {
      if k < |done| { assert all[k] == done[k]; }
    }
  }

  /**
   * A successful loop answers one item per input item, in order: the item itself for an update,
   * the created row read back otherwise; and it keeps the invariant above.
   */
  lemma {:induction false} SyncLoopSpec(start: map<string, TodoRow>, userId: string, items: seq<AstronomyObject>, now: string)
    requires Keyed(start)
    ensures var existing := Owned(start, userId);
      var s := SyncLoop(start, userId, existing, items, now);
      s.failed.None? ==>
        && |s.results| == |items|
        && (forall k :: 0 <= k < |items| && items[k].id in existing ==> s.results[k] == items[k])
        && LoopInvariant(start, userId, existing, items, s.rows)
    decreases |items|
  {
    var existing := Owned(start, userId);
    var s := SyncLoop(start, userId, existing, items, now);
    if |items| == 0 {
      assert ItemIds(items) == {};
    } else if s.failed.None? {
      var init := items[..|items| - 1];
      var item := items[|items| - 1];
      SyncLoopSpec(start, userId, init, now);
      var p := SyncLoop(start, userId, existing, init, now);
      assert p.failed.None?;
      assert s == SyncStep(p, userId, existing, item, now);
      SyncStepSpec(start, userId, existing, init, p, item, now);
      assert init + [item] == items;
      forall k | 0 <= k < |items| && items[k].id in existing ensures s.results[k] == items[k] {
        if k < |init| {
          assert items[k] == init[k];
        }
      }
    }
  }

  /** After a successful synchronisation the user's ids are exactly the ids of the items. */
  lemma SyncOwnsExactlyItems(start: map<string, TodoRow>, userId: string, items: seq<AstronomyObject>, now: string)
    requires Keyed(start)
    ensures var existing := Owned(start, userId);
      var s := SyncLoop(start, userId, existing, items, now);
      s.failed.None? ==>
        Owned(DeleteIds(s.rows, userId, existing - ItemIds(items)), userId) == ItemIds(items)
  {
    var existing := Owned(start, userId);
    var s := SyncLoop(start, userId, existing, items, now);
    SyncLoopSpec(start, userId, items, now);
    if s.failed.None? {
      var after := DeleteIds(s.rows, userId, existing - ItemIds(items));
      forall id | id in ItemIds(items) ensures id in Owned(after, userId) {
        var k :| 0 <= k < |items| && items[k].id == id;
      }
      forall id | id in Owned(after, userId) ensures id in ItemIds(items) {
        assert id in s.rows;
      }
    }
  }

  /** The to-do table, by primary key. */
  class TodoDatabase {
    var rows: map<string, TodoRow>

    predicate Valid()
      reads this
    {
      Keyed(rows)
    }

    constructor ()
      ensures rows == map[] && Valid()
    {
      rows := map[];
    }

    /** `createAstronomyTodoItem`. */
    method Create(userId: string, item: AstronomyObject, now: string) returns (r: Result<AstronomyObject>)
      requires Valid()
      modifies this
      ensures Valid()
      ensures (r, rows) == CreateOutcome(old(rows), userId, item, now)
    {
      CreateSpec(rows, userId, item, now);
      if item.id in rows {
        return Failure("Validation error: id must be unique");
      }
      var row := NewRow(userId, item, now);
      rows := rows[item.id := row];
      return Success(AsItem(row));
    }

    /** `updateAstronomyTodoItem`. */
    method Update(userId: string, item: AstronomyObject, now: string) returns (r: Result<AstronomyObject>)
      requires Valid()
      modifies this
      ensures Valid()
      ensures (r, rows) == UpdateOutcome(old(rows), userId, item, now)
    {
      UpdateSpec(rows, userId, item, now);
      if item.id !in rows || rows[item.id].userId != userId {
        return Failure("Todo item not found or not authorized to update");
      }
      rows := rows[item.id := UpdatedRow(rows[item.id], item, now)];
      return Success(item);
    }

    /** `deleteAstronomyTodoItem`: true exactly when the user's row with the id was removed. */
    method Delete(userId: string, itemId: string) returns (deleted: bool)
      requires Valid()
      modifies this
      ensures Valid()
      ensures deleted <==> itemId in Owned(old(rows), userId)
      ensures rows == DeleteIds(old(rows), userId, {itemId})
    {
      deleted := itemId in rows && rows[itemId].userId == userId;
      rows := DeleteIds(rows, userId, {itemId});
    }

    /**
     * `syncAstronomyTodoItems`: the items are updated or created one by one, in order; the first
     * failure ends the call with its error, keeping what was written before it. After the loop,
     * the user's rows whose id the list does not name are deleted.
     */
    method Sync(userId: string, items: seq<AstronomyObject>, now: string) returns (r: Result<seq<AstronomyObject>>)
      requires Valid()
      modifies this
      ensures Valid()
      ensures var existing := Owned(old(rows), userId);
        var s := SyncLoop(old(rows), userId, existing, items, now);
        && (s.failed.Some? ==> r == Failure(s.failed.value) && rows == s.rows)
        && (s.failed.None? ==> r == Success(s.results) && rows == DeleteIds(s.rows, userId, existing - ItemIds(items)))
    {
      var existing := Owned(rows, userId);
      ghost var start := rows;
      var results := [];
      var i := 0;
      while i < |items|
        invariant i <= |items| && Valid()
        invariant SyncLoop(start, userId, existing, items[..i], now) == SyncState(rows, results, None)
      {
        var item := items[i];
        var outcome;
        if item.id in existing {
          outcome := Update(userId, item, now);
        } else {
          outcome := Create(userId, item, now);
        }
        assert items[..i + 1][..i] == items[..i];
        if outcome.Failure? {
          SyncLoopFailedStays(start, userId, existing, items, now, i + 1);
          return Failure(outcome.error);
        }
        results := results + [outcome.value];
        i := i + 1;
      }
      assert items[..i] == items;
      var currentIds := set k | 0 <= k < |items| :: items[k].id;
      var idsToDelete := existing - currentIds;
      rows := DeleteIds(rows, userId, idsToDelete);
      return Success(results);
    }
  }

  /** A collection of observations, with the session date from its metadata, if any. */
  datatype Observation = Observation(id: string, sessionDate: Option<string>)

  /** `metadata_?.session_date || ''`. */
  function SessionKey(o: Observation): string
  {
    o.sessionDate.GetOr("")
  }

  /** Code-point order reversed: `b.localeCompare(a)`. */
  predicate StringGe(a: string, b: string)
  {
    StringLe(b, a)
  }

  lemma StringGeTotalPreorder()
    ensures TotalPreorder(StringGe)
  {
    StringLeTotalPreorder();
    forall a, b ensures StringGe(a, b) || StringGe(b, a) {
      LeTotal(StringLe, a, b);
    }
    forall a, b, c | StringGe(a, b) && StringGe(b, c) ensures StringGe(a, c) {
      LeTransitive(StringLe, c, b, a);
    }
  }

  /** `fetchAstroObservations`' order: by session date, latest first, as a stable sort. */
  function ObservationOrder(observations: seq<Observation>): seq<Observation>
  {
    SortByKey(observations, SessionKey, StringGe)
  }

  /** The observations come back latest session first, each exactly as often as stored. */
  lemma ObservationOrderSpec(observations: seq<Observation>)
    ensures var sorted := ObservationOrder(observations);
      && multiset(sorted) == multiset(observations)
      && forall i, j :: 0 <= i < j < |sorted| ==> StrLessEq(SessionKey(sorted[j]), SessionKey(sorted[i]))
  {
    StringGeTotalPreorder();
    SortByKeySorted(observations, SessionKey, StringGe);
  }

  /** `transformAstroObject`'s title: the display name, and " - " and the common name when there is one. */
  function Title(displayName: string, commonName: Option<string>): (r: string)
    ensures NonEmpty(commonName).None? ==> r == displayName
    ensures NonEmpty(commonName).Some? ==>
      (|r| == |displayName| + 3 + |commonName.value| &&
       r[..|displayName|] == displayName && r[|displayName|..] == " - " + commonName.value)
  {
    if NonEmpty(commonName).Some? then displayName + " - " + commonName.value else displayName
  }
}
