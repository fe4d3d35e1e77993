/**
 * The observation-schedule API: creating, updating and deleting a user's schedules, and reading
 * the active one. A user has at most one active schedule; creating the first schedule, activating
 * one, deleting the active one and reading the active one all keep it that way.
 */
module Schedules {
  import opened Wrappers
  import opened Text
  import opened Seqs

  /**
   * A stored schedule. The items are kept as the route receives them and are never read, so
   * they are modelled as opaque texts; `updatedAt` is the row's update timestamp.
   */
  datatype Schedule = Schedule(
    id: string, userId: string, name: string,
    description: Option<string>, scheduledDate: Option<string>, location: Option<string>,
    items: seq<string>, isActive: bool, updatedAt: int)

  /** The fields of a POST body; an absent or null field is `None`. */
  datatype PostBody = PostBody(
    name: Option<string>, description: Option<string>, scheduledDate: Option<string>,
    location: Option<string>, items: Option<seq<string>>)

  /** The fields of a PUT body; an absent or null field is `None`. */
  datatype PutBody = PutBody(
    id: Option<string>, name: Option<string>, description: Option<string>,
    scheduledDate: Option<string>, location: Option<string>, items: Option<seq<string>>,
    isActive: Option<bool>)

  /** What a handler answers. */
  datatype Reply =
    | Unauthorized
    | BadRequest(message: string)
    | NotFound
    | Created(schedule: Schedule)
    | Saved(schedule: Schedule)
    | Deleted
    | ActiveSchedule(active: Option<Schedule>)

  /** The HTTP status of a reply. */
  function Status(r: Reply): (code: int)
    ensures code == 401 <==> r.Unauthorized?
    ensures code == 400 <==> r.BadRequest?
    ensures code == 404 <==> r.NotFound?
    ensures code == 201 <==> r.Created?
  {
    match r
    case Unauthorized => 401
    case BadRequest(_) => 400
    case NotFound => 404
    case Created(_) => 201
    case _ => 200
  }

  /** `userId || defaultUserId`, where an empty id counts as absent; `None` is answered with 401. */
  function CurrentUser(userId: Option<string>, defaultUserId: Option<string>): (r: Option<string>)
    ensures r.Some? ==> r.value != ""
    ensures r.Some? <==> NonEmpty(userId).Some? || NonEmpty(defaultUserId).Some?
    ensures NonEmpty(userId).Some? ==> r == userId
  {
    if NonEmpty(userId).Some? then userId else NonEmpty(defaultUserId)
  }

  /** At most one active schedule per user. */
  predicate AtMostOneActive(rows: seq<Schedule>)
  {
    forall j, k :: 0 <= j < k < |rows| && rows[j].isActive && rows[k].isActive ==> rows[j].userId != rows[k].userId
  }

  /** The ids are the primary key. */
  predicate DistinctIds(rows: seq<Schedule>)
  {
    forall j, k :: 0 <= j < k < |rows| ==> rows[j].id != rows[k].id
  }

  /** The user's active schedule, if any. */
  function ActiveOf(rows: seq<Schedule>, u: string): (r: Option<nat>)
    ensures r.Some? ==> r.value < |rows| && rows[r.value].userId == u && rows[r.value].isActive
    ensures r.None? ==> forall j :: 0 <= j < |rows| && rows[j].userId == u ==> !rows[j].isActive
  {
    if |rows| == 0 then None
    else if rows[0].userId == u && rows[0].isActive then Some(0)
    else match ActiveOf(rows[1..], u)
      case None => None
      case Some(k) => Some(k + 1)
  }

  /** The user's schedule with the given id (`findOne` on id and user). */
  function FindOwned(rows: seq<Schedule>, id: string, u: string): (r: Option<nat>)
    ensures r.Some? ==> r.value < |rows| && rows[r.value].id == id && rows[r.value].userId == u
    ensures r.None? <==> forall j :: 0 <= j < |rows| ==> rows[j].id != id || rows[j].userId != u
  {
    if |rows| == 0 then None
    else if rows[0].id == id && rows[0].userId == u then Some(0)
    else match FindOwned(rows[1..], id, u)
      case None => None
      case Some(k) => Some(k + 1)
  }

  /**
   * The user's most recently updated schedule among `rows[i..]` (`findOne` ordered by
   * `updated_at` descending); of several equally recent ones, the first in storage order.
   */
  function LatestFrom(rows: seq<Schedule>, u: string, i: nat): (r: Option<nat>)
    requires i <= |rows|
    ensures r.None? <==> forall j :: i <= j < |rows| ==> rows[j].userId != u
    ensures r.Some? ==> i <= r.value < |rows| && rows[r.value].userId == u
    ensures r.Some? ==> forall j :: i <= j < |rows| && rows[j].userId == u ==> rows[j].updatedAt <= rows[r.value].updatedAt
    ensures r.Some? ==> forall j :: i <= j < r.value && rows[j].userId == u ==> rows[j].updatedAt < rows[r.value].updatedAt
    decreases |rows| - i
  {
    if i == |rows| then None
    else
      var rest := LatestFrom(rows, u, i + 1);
      if rows[i].userId != u then rest
      else if rest.None? || rows[rest.value].updatedAt <= rows[i].updatedAt then Some(i)
      else rest
  }

  function Latest(rows: seq<Schedule>, u: string): Option<nat>
  {
    LatestFrom(rows, u, 0)
  }

  /** A schedule turned active by an update at `now`. */
  function Activated(s: Schedule, now: int): Schedule
  {
    s.(isActive := true, updatedAt := now)
  }

  /** The bulk update that deactivates every schedule of the user at `now`; other users' rows stay. */
  function Deactivated(rows: seq<Schedule>, u: string, now: int): (r: seq<Schedule>)
    ensures |r| == |rows|
    ensures forall k :: 0 <= k < |rows| && rows[k].userId == u ==> r[k] == rows[k].(isActive := false, updatedAt := now)
    ensures forall k :: 0 <= k < |rows| && rows[k].userId != u ==> r[k] == rows[k]
  {
    seq(|rows|, k requires 0 <= k < |rows| =>
      if rows[k].userId == u then rows[k].(isActive := false, updatedAt := now) else rows[k])
  }

  /** The schedule a POST creates. */
  function NewSchedule(id: string, u: string, body: PostBody, first: bool, now: int): Schedule
    requires body.name.Some?
  {
    Schedule(id, u, body.name.value, body.description, body.scheduledDate, body.location,
      body.items.GetOr([]), first, now)
  }

  /** The schedule after a PUT: every field present in the body replaces the stored one (`??`). */
  function Updated(s: Schedule, body: PutBody, now: int): (r: Schedule)
    ensures r.id == s.id && r.userId == s.userId && r.updatedAt == now
    ensures r.name == body.name.GetOr(s.name) && r.items == body.items.GetOr(s.items)
    ensures r.isActive == body.isActive.GetOr(s.isActive)
  {
    Schedule(s.id, s.userId, body.name.GetOr(s.name), if body.description.Some? then body.description else s.description,
      if body.scheduledDate.Some? then body.scheduledDate else s.scheduledDate,
      if body.location.Some? then body.location else s.location,
      body.items.GetOr(s.items), body.isActive.GetOr(s.isActive), now)
  }

  /** The rows without the one at `k`. */
  function Without(rows: seq<Schedule>, k: nat): (r: seq<Schedule>)
    requires k < |rows|
    ensures |r| == |rows| - 1
    ensures forall j :: 0 <= j < k ==> r[j] == rows[j]
    ensures forall j :: k <= j < |r| ==> r[j] == rows[j + 1]
  {
    rows[..k] + rows[k + 1..]
  }

  /** The rows after a PUT on the schedule at `k`. */
  function PutRows(rows: seq<Schedule>, u: string, k: nat, body: PutBody, now: int): seq<Schedule>
    requires k < |rows|
  {
    var base := if body.isActive == Some(true) && !rows[k].isActive then Deactivated(rows, u, now) else rows;
    base[k := Updated(rows[k], body, now)]
  }

  /** The rows after deleting the schedule at `k`: when it was active, the user's latest remaining one is activated. */
  function DeleteRows(rows: seq<Schedule>, u: string, k: nat, now: int): seq<Schedule>
    requires k < |rows|
  {
    var rest := Without(rows, k);
    if rows[k].isActive && Latest(rest, u).Some? then
      rest[Latest(rest, u).value := Activated(rest[Latest(rest, u).value], now)]
    else rest
  }

  /** Marking one schedule active keeps at most one active per user when its user had none active. */
  lemma ActivateKeepsOneActive(rows: seq<Schedule>, k: nat, s: Schedule)
    requires AtMostOneActive(rows) && k < |rows| && s.userId == rows[k].userId
    requires s.isActive ==> forall j :: 0 <= j < |rows| && j != k && rows[j].userId == s.userId ==> !rows[j].isActive
    ensures AtMostOneActive(rows[k := s])
  {
  }

  /** A new schedule keeps at most one active per user when it is inactive or its user has no schedules. */
  lemma AppendKeepsOneActive(rows: seq<Schedule>, s: Schedule)
    requires AtMostOneActive(rows)
    requires s.isActive ==> forall j :: 0 <= j < |rows| ==> rows[j].userId != s.userId
    ensures AtMostOneActive(rows + [s])
  {
  }

  /** After the bulk deactivation, the user has no active schedule and the others keep theirs. */
  lemma DeactivatedKeepsOneActive(rows: seq<Schedule>, u: string, now: int)
    requires AtMostOneActive(rows)
    ensures AtMostOneActive(Deactivated(rows, u, now))
    ensures forall j :: 0 <= j < |rows| && rows[j].userId == u ==> !Deactivated(rows, u, now)[j].isActive
  {
  }

  /** A PUT keeps at most one active schedule per user; when it activates, the updated schedule is the user's only active one. */
  lemma PutKeepsOneActive(rows: seq<Schedule>, u: string, k: nat, body: PutBody, now: int)
    requires AtMostOneActive(rows) && k < |rows| && rows[k].userId == u
    ensures AtMostOneActive(PutRows(rows, u, k, body, now))
    ensures body.isActive == Some(true) ==>
      forall j :: 0 <= j < |rows| && PutRows(rows, u, k, body, now)[j].userId == u && PutRows(rows, u, k, body, now)[j].isActive ==> j == k
  {
    if body.isActive == Some(true) && !rows[k].isActive {
      DeactivatedKeepsOneActive(rows, u, now);
      ActivateKeepsOneActive(Deactivated(rows, u, now), k, Updated(rows[k], body, now));
    } else {
      ActivateKeepsOneActive(rows, k, Updated(rows[k], body, now));
    }
  }

  /**
   * A DELETE keeps at most one active schedule per user; deleting the active schedule of a user
   * with others left makes the most recently updated of them active.
   */
  lemma DeleteKeepsOneActive(rows: seq<Schedule>, u: string, k: nat, now: int)
    requires AtMostOneActive(rows) && k < |rows| && rows[k].userId == u
    ensures AtMostOneActive(DeleteRows(rows, u, k, now))
    ensures var rest := Without(rows, k);
      rows[k].isActive && Latest(rest, u).Some? ==> ActiveOf(DeleteRows(rows, u, k, now), u) == Latest(rest, u)
  {
    var rest := Without(rows, k);
    assert AtMostOneActive(rest) by {
      forall i, j | 0 <= i < j < |rest| && rest[i].isActive && rest[j].isActive ensures rest[i].userId != rest[j].userId {
        var i' := if i < k then i else i + 1;
        var j' := if j < k then j else j + 1;
        assert rest[i] == rows[i'] && rest[j] == rows[j'];
      }
    }
    if rows[k].isActive && Latest(rest, u).Some? {
      var l := Latest(rest, u).value;
      forall j | 0 <= j < |rest| && j != l && rest[j].userId == u ensures !rest[j].isActive {
        var j' := if j < k then j else j + 1;
        assert rest[j] == rows[j'] && j' != k;
      }
      ActivateKeepsOneActive(rest, l, Activated(rest[l], now));
      ActiveOfUnique(DeleteRows(rows, u, k, now), u, l);
    }
  }

  /** When exactly one schedule of the user is active, it is the one found. */
  lemma ActiveOfUnique(rows: seq<Schedule>, u: string, l: nat)
    requires l < |rows| && rows[l].userId == u && rows[l].isActive
    requires forall j :: 0 <= j < |rows| && j != l && rows[j].userId == u ==> !rows[j].isActive
    ensures ActiveOf(rows, u) == Some(l)
  {
    var r := ActiveOf(rows, u);
    assert r.Some?;
  }

  /** The schedules table. */
  class ScheduleStore {
    var rows: seq<Schedule>

    predicate Valid()
      reads this
    {
      AtMostOneActive(rows) && DistinctIds(rows)
    }

    constructor ()
      ensures rows == [] && Valid()
    {
      rows := [];
    }

    /**
     * POST: 401 without a user, 400 without a name; otherwise the schedule is created, active
     * exactly when the user had no schedules, with no items unless some are given, and 201.
     * `newId` is the id the database assigns, not in use yet.
     */
    method Post(userId: Option<string>, defaultUserId: Option<string>, body: PostBody, newId: string, now: int)
      returns (reply: Reply)
      requires Valid()
      requires forall j :: 0 <= j < |rows| ==> rows[j].id != newId
      modifies this
      ensures Valid()
      ensures var u := CurrentUser(userId, defaultUserId);
        && (u.None? ==> reply == Unauthorized && rows == old(rows))
        && (u.Some? && NonEmpty(body.name).None? ==> reply == BadRequest("Schedule name is required") && rows == old(rows))
        && (u.Some? && NonEmpty(body.name).Some? ==>
             var first := forall j :: 0 <= j < |old(rows)| ==> old(rows)[j].userId != u.value;
             && reply == Created(NewSchedule(newId, u.value, body, first, now))
             && rows == old(rows) + [reply.schedule])
    {
      var u := CurrentUser(userId, defaultUserId);
      if u.None? {
        return Unauthorized;
      }
      if NonEmpty(body.name).None? {
        return BadRequest("Schedule name is required");
      }
      var user := u.value;
      var existing := Filter(rows, (s: Schedule) => s.userId == user);
      FilterMembers(rows, (s: Schedule) => s.userId == user);
      var first := |existing| == 0;
      assert first <==> forall j :: 0 <= j < |rows| ==> rows[j].userId != user by {
        if |existing| > 0 {
          assert existing[0] in existing;
        } else {
          forall j | 0 <= j < |rows| ensures rows[j].userId != user {
            assert rows[j] in rows;
          }
        }
      }
      var s := NewSchedule(newId, user, body, first, now);
      AppendKeepsOneActive(rows, s);
      rows := rows + [s];
      return Created(s);
    }

    /**
     * PUT: 401 without a user, 400 without an id, 404 unless the user owns a schedule with that
     * id; otherwise, when the body activates an inactive schedule, all the user's schedules are
     * first deactivated, and the schedule takes every field the body gives.
     */
    method Put(userId: Option<string>, defaultUserId: Option<string>, body: PutBody, now: int)
      returns (reply: Reply)
      requires Valid()
      modifies this
      ensures Valid()
      ensures var u := CurrentUser(userId, defaultUserId);
        && (u.None? ==> reply == Unauthorized && rows == old(rows))
        && (u.Some? && NonEmpty(body.id).None? ==> reply == BadRequest("Schedule ID is required") && rows == old(rows))
        && (u.Some? && NonEmpty(body.id).Some? && FindOwned(old(rows), body.id.value, u.value).None? ==>
             reply == NotFound && rows == old(rows))
        && (u.Some? && NonEmpty(body.id).Some? && FindOwned(old(rows), body.id.value, u.value).Some? ==>
             var k := FindOwned(old(rows), body.id.value, u.value).value;
             && reply == Saved(Updated(old(rows)[k], body, now))
             && rows == PutRows(old(rows), u.value, k, body, now))
    {
      var u := CurrentUser(userId, defaultUserId);
      if u.None? {
        return Unauthorized;
      }
      if NonEmpty(body.id).None? {
        return BadRequest("Schedule ID is required");
      }
      var found := FindOwned(rows, body.id.value, u.value);
      if found.None? {
        return NotFound;
      }
      var k := found.value;
      var schedule := rows[k];
      PutKeepsOneActive(rows, u.value, k, body, now);
      PutKeepsIds(rows, u.value, k, body, now);
      if body.isActive == Some(true) && !schedule.isActive {
        rows := Deactivated(rows, u.value, now);
      }
      var saved := Updated(schedule, body, now);
      rows := rows[k := saved];
      return Saved(saved);
    }

    /**
     * DELETE: 401 without a user, 400 without an id, 404 unless the user owns a schedule with
     * that id; otherwise it is destroyed and, when it was the active one, the user's most
     * recently updated remaining schedule becomes active.
     */
    method Delete(userId: Option<string>, defaultUserId: Option<string>, id: Option<string>, now: int)
      returns (reply: Reply)
      requires Valid()
      modifies this
      ensures Valid()
      ensures var u := CurrentUser(userId, defaultUserId);
        && (u.None? ==> reply == Unauthorized && rows == old(rows))
        && (u.Some? && NonEmpty(id).None? ==> reply == BadRequest("Schedule ID is required") && rows == old(rows))
        && (u.Some? && NonEmpty(id).Some? && FindOwned(old(rows), id.value, u.value).None? ==>
             reply == NotFound && rows == old(rows))
        && (u.Some? && NonEmpty(id).Some? && FindOwned(old(rows), id.value, u.value).Some? ==>
             reply == Deleted && rows == DeleteRows(old(rows), u.value, FindOwned(old(rows), id.value, u.value).value, now))
    {
      var u := CurrentUser(userId, defaultUserId);
      if u.None? {
        return Unauthorized;
      }
      if NonEmpty(id).None? {
        return BadRequest("Schedule ID is required");
      }
      var found := FindOwned(rows, id.value, u.value);
      if found.None? {
        return NotFound;
      }
      var k := found.value;
      var schedule := rows[k];
      DeleteKeepsOneActive(rows, u.value, k, now);
      DeleteKeepsIds(rows, u.value, k, now);
      rows := Without(rows, k);
      if schedule.isActive {
        var remaining := Latest(rows, u.value);
        if remaining.Some? {
          rows := rows[remaining.value := Activated(rows[remaining.value], now)];
        }
      }
      return Deleted;
    }

    /**
     * GET of the active schedule: 401 without a user; the user's active schedule when there is
     * one; otherwise the most recently updated schedule, made active; nothing when the user has
     * no schedules.
     */
    method GetActive(userId: Option<string>, defaultUserId: Option<string>, now: int) returns (reply: Reply)
      requires Valid()
      modifies this
      ensures Valid()
      ensures var u := CurrentUser(userId, defaultUserId);
        && (u.None? ==> reply == Unauthorized && rows == old(rows))
        && (u.Some? && ActiveOf(old(rows), u.value).Some? ==>
             reply == ActiveSchedule(Some(old(rows)[ActiveOf(old(rows), u.value).value])) && rows == old(rows))
        && (u.Some? && ActiveOf(old(rows), u.value).None? && Latest(old(rows), u.value).None? ==>
             reply == ActiveSchedule(None) && rows == old(rows))
        && (u.Some? && ActiveOf(old(rows), u.value).None? && Latest(old(rows), u.value).Some? ==>
             var l := Latest(old(rows), u.value).value;
             && reply == ActiveSchedule(Some(Activated(old(rows)[l], now)))
             && rows == old(rows)[l := Activated(old(rows)[l], now)])
      ensures CurrentUser(userId, defaultUserId).Some? && Latest(old(rows), CurrentUser(userId, defaultUserId).value).Some? ==>
        reply.ActiveSchedule? && reply.active.Some? && reply.active.value.isActive
    {
      var u := CurrentUser(userId, defaultUserId);
      if u.None? {
        return Unauthorized;
      }
      var active := ActiveOf(rows, u.value);
      if active.Some? {
        return ActiveSchedule(Some(rows[active.value]));
      }
      var latest := Latest(rows, u.value);
      if latest.None? {
        return ActiveSchedule(None);
      }
      var l := latest.value;
      ActivateKeepsOneActive(rows, l, Activated(rows[l], now));
      ActivateKeepsIds(rows, l, Activated(rows[l], now));
      rows := rows[l := Activated(rows[l], now)];
      return ActiveSchedule(Some(rows[l]));
    }
  }

  /** Replacing a row by one with the same id keeps the ids distinct. */
  lemma ActivateKeepsIds(rows: seq<Schedule>, k: nat, s: Schedule)
    requires DistinctIds(rows) && k < |rows| && s.id == rows[k].id
    ensures DistinctIds(rows[k := s])
  {
  }

  lemma PutKeepsIds(rows: seq<Schedule>, u: string, k: nat, body: PutBody, now: int)
    requires DistinctIds(rows) && k < |rows|
    ensures DistinctIds(PutRows(rows, u, k, body, now))
  {
    var base := if body.isActive == Some(true) && !rows[k].isActive then Deactivated(rows, u, now) else rows;
    assert DistinctIds(base);
    ActivateKeepsIds(base, k, Updated(rows[k], body, now));
  }

  lemma DeleteKeepsIds(rows: seq<Schedule>, u: string, k: nat, now: int)
    requires DistinctIds(rows) && k < |rows|
    ensures DistinctIds(DeleteRows(rows, u, k, now))
  {
    var rest := Without(rows, k);
    assert DistinctIds(rest) by {
      forall i, j | 0 <= i < j < |rest| ensures rest[i].id != rest[j].id {
        var i' := if i < k then i else i + 1;
        var j' := if j < k then j else j + 1;
        assert rest[i] == rows[i'] && rest[j] == rows[j'];
      }
    }
    if rows[k].isActive && Latest(rest, u).Some? {
      ActivateKeepsIds(rest, Latest(rest, u).value, Activated(rest[Latest(rest, u).value], now));
    }
  }
}
