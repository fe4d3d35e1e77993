/**
 * The observation to-do list: the sort control, the tab and type filters, the comparator of
 * the sorted view, the per-object edits, the list of object types and the CSV export.
 */
module TodoList {
  import opened Wrappers
  import opened Text
  import opened Seqs
  import opened Sorting
  import opened TodoTypes
  import AstronomyUtils
  import ImportDialog

  // ---------------------------------------------------------------------------------------------
  // The sort control

  datatype SortField = Name | Magnitude | Size | Altitude | Azimuth | GoalTime | MaxTime
  datatype Direction = Asc | Desc

  /** The field and direction shown in the list header; both are unset when the list is unsorted. */
  datatype SortState = SortState(field: Option<SortField>, direction: Option<Direction>)
  {
    predicate Consistent() { field.None? <==> direction.None? }
  }

  /**
   * `handleSort` as a transition: the same field cycles ascending, descending, unsorted;
   * another field starts ascending.
   */
  function NextSort(s: SortState, f: SortField): (r: SortState)
    ensures s.Consistent() ==> r.Consistent()
  {
    if s.field == Some(f) then
      match s.direction
      case Some(Asc) => SortState(s.field, Some(Desc))
      case Some(Desc) => SortState(None, None)
      case None => SortState(s.field, Some(Asc))
    else SortState(Some(f), Some(Asc))
  }

  /** The sort control of the list, updated in place by a click on a column. */
  class SortControl {
    var state: SortState

    constructor ()
      ensures state == SortState(None, None)
    {
      state := SortState(None, None);
    }

    method HandleSort(f: SortField)
      modifies this
      ensures state == NextSort(old(state), f)
    {
      if state.field == Some(f) {
        if state.direction == Some(Asc) {
          state := state.(direction := Some(Desc));
        } else if state.direction == Some(Desc) {
          state := SortState(None, None);
        } else {
          state := state.(direction := Some(Asc));
        }
      } else {
        state := SortState(Some(f), Some(Asc));
      }
    }
  }

  /**
   * Three clicks on one field from any state where another field (or none) is sorted go
   * ascending, descending and back to unsorted; a click on another field always gives ascending.
   */
  lemma SortCycle(s: SortState, f: SortField)
    requires s.field != Some(f)
    ensures NextSort(s, f) == SortState(Some(f), Some(Asc))
    ensures NextSort(NextSort(s, f), f) == SortState(Some(f), Some(Desc))
    ensures NextSort(NextSort(NextSort(s, f), f), f) == SortState(None, None)
  {
  }

  // ---------------------------------------------------------------------------------------------
  // Filters

  /** `handleTypeFilterChange`: a selected type is removed (every copy), another one is appended. */
  function ToggleType(selected: seq<string>, t: string): (r: seq<string>)
    ensures t in r <==> t !in selected
    ensures forall u :: u != t ==> (u in r <==> u in selected)
  {
    FilterMembers(selected, (u: string) => u != t);
    if t in selected then Filter(selected, (u: string) => u != t) else selected + [t]
  }

  /** Toggling a type twice gives back the same selection; the same list when it was not selected. */
  lemma ToggleTypeTwice(selected: seq<string>, t: string)
    ensures forall u :: u in ToggleType(ToggleType(selected, t), t) <==> u in selected
    ensures t !in selected ==> ToggleType(ToggleType(selected, t), t) == selected
  {
    if t !in selected {
      FilterSnoc(selected, t, (u: string) => u != t);
      FilterAll(selected, (u: string) => u != t);
    }
  }

  /** The type an object is filtered and listed under. */
  function TypeOf(o: AstronomyObject): string
  {
    NonEmpty(o.objectType).GetOr("Unknown")
  }

  /** The tab filter: all, pending, flagged or completed objects; an unknown tab keeps all. */
  function TabKeeps(tab: string): AstronomyObject -> bool
  {
    (o: AstronomyObject) =>
      if tab == "all" then true
      else if tab == "pending" then !o.completed
      else if tab == "flagged" then o.flagged == Some(true)
      else if tab == "completed" then o.completed
      else true
  }

  function TypeSelected(selected: seq<string>): AstronomyObject -> bool
  {
    (o: AstronomyObject) => TypeOf(o) in selected
  }

  /** The tab filter, then the type filter when some type is selected. */
  function Filtered(objects: seq<AstronomyObject>, tab: string, selected: seq<string>): seq<AstronomyObject>
  {
    var byTab := Filter(objects, TabKeeps(tab));
    if |selected| > 0 then Filter(byTab, TypeSelected(selected)) else byTab
  }

  /** The filtered list keeps the list's order and holds exactly the objects both filters pass. */
  lemma FilteredSpec(objects: seq<AstronomyObject>, tab: string, selected: seq<string>)
    ensures Subsequence(Filtered(objects, tab, selected), objects)
    ensures forall o :: o in Filtered(objects, tab, selected) <==>
      && o in objects
      && (tab == "pending" ==> !o.completed)
      && (tab == "flagged" ==> o.flagged == Some(true))
      && (tab == "completed" ==> o.completed)
      && (|selected| > 0 ==> TypeOf(o) in selected)
  {
    var byTab := Filter(objects, TabKeeps(tab));
    FilterMembers(objects, TabKeeps(tab));
    FilterSubsequence(objects, TabKeeps(tab));
    if |selected| > 0 {
      FilterMembers(byTab, TypeSelected(selected));
      FilterSubsequence(byTab, TypeSelected(selected));
      SubsequenceTransitive(Filter(byTab, TypeSelected(selected)), byTab, objects);
    }
  }

  // ---------------------------------------------------------------------------------------------
  // The comparator of the sorted view

  /**
   * What the comparator reads besides the objects: the host's `parseFloat` (`None` for NaN),
   * the current altitude and azimuth of an object (`None` when its coordinates do not parse)
   * and the cache of highest-altitude times by object id.
   */
  datatype Readings = Readings(
    parseFloat: string -> Option<real>,
    altitude: AstronomyObject -> Option<real>,
    azimuth: AstronomyObject -> Option<real>,
    maxTimes: map<string, string>)

  /** `x || d` on a number: absent and zero both give the default. */
  function OrDefault(x: Option<real>, d: real): real
  {
    if x.None? || x.value == 0.0 then d else x.value
  }

  /** The magnitude and size comparisons: NaN after every number, numbers by difference. */
  function NumberCompare(x: Option<real>, y: Option<real>): real
  {
    if x.None? && y.None? then 0.0
    else if x.None? then 1.0
    else if y.None? then -1.0
    else x.value - y.value
  }

  /** The goal-time and highest-time comparisons: a missing time after every time. */
  function TimeCompare(x: Option<string>, y: Option<string>): real
  {
    if x.None? && y.None? then 0.0
    else if x.None? then 1.0
    else if y.None? then -1.0
    else AstronomyUtils.CompareTimes(x.value, y.value) as real
  }

  /** `localeCompare` on names, taken as code-point order. */
  function NameCompare(a: string, b: string): real
  {
    if a == b then 0.0 else if StrLess(a, b) then -1.0 else 1.0
  }

  function GoalTimeOf(o: AstronomyObject): Option<string>
  {
    NonEmpty(o.goalTime)
  }

  function MaxTimeOf(rd: Readings, o: AstronomyObject): Option<string>
  {
    if o.id in rd.maxTimes then NonEmpty(Some(rd.maxTimes[o.id])) else None
  }

  function AscendingCompare(field: SortField, rd: Readings, a: AstronomyObject, b: AstronomyObject): real
  {
    match field
    case Name => NameCompare(a.name, b.name)
    case Magnitude => NumberCompare(rd.parseFloat(a.magnitude), rd.parseFloat(b.magnitude))
    case Size => NumberCompare(rd.parseFloat(a.size), rd.parseFloat(b.size))
    case Altitude => OrDefault(rd.altitude(a), -100.0) - OrDefault(rd.altitude(b), -100.0)
    case Azimuth => OrDefault(rd.azimuth(a), 999.0) - OrDefault(rd.azimuth(b), 999.0)
    case GoalTime => TimeCompare(GoalTimeOf(a), GoalTimeOf(b))
    case MaxTime => TimeCompare(MaxTimeOf(rd, a), MaxTimeOf(rd, b))
  }

  /** The time of the time fields; `None` for the other fields. */
  function TimeField(field: SortField, rd: Readings, o: AstronomyObject): Option<string>
  {
    if field == GoalTime then GoalTimeOf(o) else if field == MaxTime then MaxTimeOf(rd, o) else None
  }

  /**
   * The comparator of the sorted view. Descending negates the comparison, except that for the
   * time fields a pair with a missing time keeps the ascending answer, so missing times stay last.
   */
  function Compare(field: SortField, dir: Direction, rd: Readings, a: AstronomyObject, b: AstronomyObject): real
  {
    var c := AscendingCompare(field, rd, a, b);
    if dir == Asc then c
    else if (field == GoalTime || field == MaxTime) && (TimeField(field, rd, a).None? || TimeField(field, rd, b).None?) then c
    else -c
  }

  /** For the time fields, an object with a time comes before one without, in both directions. */
  lemma MissingTimesLast(field: SortField, dir: Direction, rd: Readings, a: AstronomyObject, b: AstronomyObject)
    requires field == GoalTime || field == MaxTime
    requires TimeField(field, rd, a).Some? && TimeField(field, rd, b).None?
    ensures Compare(field, dir, rd, a, b) < 0.0 && Compare(field, dir, rd, b, a) > 0.0
  {
  }

  /** With both times present, descending is ascending reversed. */
  lemma DescendingReversesTimes(field: SortField, rd: Readings, a: AstronomyObject, b: AstronomyObject)
    requires field == GoalTime || field == MaxTime
    requires TimeField(field, rd, a).Some? && TimeField(field, rd, b).Some?
    ensures Compare(field, Desc, rd, a, b) == -Compare(field, Asc, rd, a, b)
    ensures Compare(field, Asc, rd, a, b) < 0.0 <==>
      AstronomyUtils.TimeRank(TimeField(field, rd, a).value) < AstronomyUtils.TimeRank(TimeField(field, rd, b).value)
  {
    AstronomyUtils.CompareFollowsRank(TimeField(field, rd, a).value, TimeField(field, rd, b).value);
  }

  /** "Comes no later than" under the comparator. */
  function NotAfter(field: SortField, dir: Direction, rd: Readings): (AstronomyObject, AstronomyObject) -> bool
  {
    (a: AstronomyObject, b: AstronomyObject) => Compare(field, dir, rd, a, b) <= 0.0
  }

  /** The rank of a time in the order of the view: the night's order, reversed when descending, missing last. */
  function TimeKey(t: Option<string>, dir: Direction): int
  {
    match t
    case None => 10000
    case Some(s) => if dir == Asc then AstronomyUtils.TimeRank(s) else 0 - AstronomyUtils.TimeRank(s) as int
  }

  /** The number a numeric field is ordered by: NaN after every number, or before when descending. */
  function NumberKey(x: Option<real>): (int, real)
  {
    if x.None? then (1, 0.0) else (0, x.value)
  }

  predicate PairLe(x: (int, real), y: (int, real))
  {
    x.0 < y.0 || (x.0 == y.0 && x.1 <= y.1)
  }

  /** Each field's comparator is an order on a key of the object. */
  lemma NotAfterByKey(field: SortField, dir: Direction, rd: Readings, a: AstronomyObject, b: AstronomyObject)
    ensures NotAfter(field, dir, rd)(a, b) <==>
      match field
      case Name => if dir == Asc then StrLessEq(a.name, b.name) else StrLessEq(b.name, a.name)
      case Magnitude =>
        var ka, kb := NumberKey(rd.parseFloat(a.magnitude)), NumberKey(rd.parseFloat(b.magnitude));
        if dir == Asc then PairLe(ka, kb) else PairLe(kb, ka)
      case Size =>
        var ka, kb := NumberKey(rd.parseFloat(a.size)), NumberKey(rd.parseFloat(b.size));
        if dir == Asc then PairLe(ka, kb) else PairLe(kb, ka)
      case Altitude =>
        var ka, kb := OrDefault(rd.altitude(a), -100.0), OrDefault(rd.altitude(b), -100.0);
        if dir == Asc then ka <= kb else kb <= ka
      case Azimuth =>
        var ka, kb := OrDefault(rd.azimuth(a), 999.0), OrDefault(rd.azimuth(b), 999.0);
        if dir == Asc then ka <= kb else kb <= ka
      case GoalTime => TimeKey(GoalTimeOf(a), dir) <= TimeKey(GoalTimeOf(b), dir)
      case MaxTime => TimeKey(MaxTimeOf(rd, a), dir) <= TimeKey(MaxTimeOf(rd, b), dir)
  {
    match field
    case Name => NotAfterByName(dir, rd, a, b);
    case GoalTime => NotAfterByTime(GoalTime, dir, rd, a, b);
    case MaxTime => NotAfterByTime(MaxTime, dir, rd, a, b);
    case _ =>
  }

  lemma NotAfterByName(dir: Direction, rd: Readings, a: AstronomyObject, b: AstronomyObject)
    ensures NotAfter(Name, dir, rd)(a, b) <==>
      if dir == Asc then StrLessEq(a.name, b.name) else StrLessEq(b.name, a.name)
  {
    if a.name != b.name && !StrLess(a.name, b.name) { StrLessTotal(a.name, b.name); }
    if StrLess(a.name, b.name) { StrLessAsymmetric(a.name, b.name); }
  }

  lemma NotAfterByTime(field: SortField, dir: Direction, rd: Readings, a: AstronomyObject, b: AstronomyObject)
    requires field == GoalTime || field == MaxTime
    ensures NotAfter(field, dir, rd)(a, b) <==> TimeKey(TimeField(field, rd, a), dir) <= TimeKey(TimeField(field, rd, b), dir)
  {
    var ta, tb := TimeField(field, rd, a), TimeField(field, rd, b);
    if ta.Some? && tb.Some? {
      AstronomyUtils.CompareFollowsRank(ta.value, tb.value);
    }
  }

  /** Every comparator of the view is a total preorder, so the stable sort by it is well defined. */
  lemma NotAfterTotalPreorder(field: SortField, dir: Direction, rd: Readings)
    ensures TotalPreorder(NotAfter(field, dir, rd))
  {
    var le := NotAfter(field, dir, rd);
    forall a, b ensures le(a, b) || le(b, a) {
      NotAfterByKey(field, dir, rd, a, b);
      NotAfterByKey(field, dir, rd, b, a);
      if field == Name && a.name != b.name { StrLessTotal(a.name, b.name); }
    }
    forall a, b, c | le(a, b) && le(b, c) ensures le(a, c) {
      NotAfterByKey(field, dir, rd, a, b);
      NotAfterByKey(field, dir, rd, b, c);
      NotAfterByKey(field, dir, rd, a, c);
      if field == Name {
        if dir == Asc {
          if a.name != b.name && b.name != c.name { StrLessTransitive(a.name, b.name, c.name); }
        } else {
          if a.name != b.name && b.name != c.name { StrLessTransitive(c.name, b.name, a.name); }
        }
      }
    }
  }

  function Identity(o: AstronomyObject): AstronomyObject { o }

  /** `filteredAndSortedObjects`: filtered, then stably sorted when a field and a direction are set. */
  function View(objects: seq<AstronomyObject>, tab: string, selected: seq<string>, sort: SortState,
                rd: Readings): seq<AstronomyObject>
  {
    var r := Filtered(objects, tab, selected);
    if sort.field.Some? && sort.direction.Some? then
      SortByKey(r, Identity, NotAfter(sort.field.value, sort.direction.value, rd))
    else r
  }

  /**
   * The view holds the filtered objects, each as often as in the list; when sorted, no object
   * comes before one that the comparator puts strictly ahead of it.
   */
  lemma ViewSpec(objects: seq<AstronomyObject>, tab: string, selected: seq<string>, sort: SortState, rd: Readings)
    ensures multiset(View(objects, tab, selected, sort, rd)) == multiset(Filtered(objects, tab, selected))
    ensures sort.field.Some? && sort.direction.Some? ==>
      SortedByKey(View(objects, tab, selected, sort, rd), Identity, NotAfter(sort.field.value, sort.direction.value, rd))
  {
    if sort.field.Some? && sort.direction.Some? {
      var le := NotAfter(sort.field.value, sort.direction.value, rd);
      NotAfterTotalPreorder(sort.field.value, sort.direction.value, rd);
      SortByKeySorted(Filtered(objects, tab, selected), Identity, le);
    }
  }

  /** Sorted by a time field, in either direction, objects with a time all come before those without. */
  lemma ViewMissingTimesLast(objects: seq<AstronomyObject>, tab: string, selected: seq<string>, sort: SortState,
                             rd: Readings, i: int, j: int)
    requires sort.field == Some(GoalTime) || sort.field == Some(MaxTime)
    requires sort.direction.Some?
    requires 0 <= i < j < |View(objects, tab, selected, sort, rd)|
    requires TimeField(sort.field.value, rd, View(objects, tab, selected, sort, rd)[j]).Some?
    ensures TimeField(sort.field.value, rd, View(objects, tab, selected, sort, rd)[i]).Some?
  {
    var v := View(objects, tab, selected, sort, rd);
    ViewSpec(objects, tab, selected, sort, rd);
    assert NotAfter(sort.field.value, sort.direction.value, rd)(v[i], v[j]);
    if TimeField(sort.field.value, rd, v[i]).None? {
      MissingTimesLast(sort.field.value, sort.direction.value, rd, v[j], v[i]);
    }
  }

  // ---------------------------------------------------------------------------------------------
  // Edits of one object

  /** `objects.find(obj => obj.id === id)`. */
  function FindById(objects: seq<AstronomyObject>, id: string): (r: Option<AstronomyObject>)
    ensures r.None? <==> forall k :: 0 <= k < |objects| ==> objects[k].id != id
    ensures r.Some? ==> exists k :: 0 <= k < |objects| && objects[k] == r.value && r.value.id == id
                                   && forall j :: 0 <= j < k ==> objects[j].id != id
    decreases |objects|
  {
    if |objects| == 0 then None
    else if objects[0].id == id then Some(objects[0])
    else
      var r := FindById(objects[1..], id);
      if r.Some? then
        ghost var k :| 0 <= k < |objects[1..]| && objects[1..][k] == r.value && r.value.id == id
                       && forall j :: 0 <= j < k ==> objects[1..][j].id != id;
        assert objects[k + 1] == r.value;
        r
      else r
  }

  /**
   * `handleToggleCompletion`: the object flips `completed`; `completedAt` becomes the current
   * time when it is now completed and is cleared otherwise; nothing else changes. `now` is the
   * current time as text.
   */
  function ToggleCompletion(objects: seq<AstronomyObject>, id: string, now: string): (r: Option<AstronomyObject>)
    ensures r.Some? <==> FindById(objects, id).Some?
    ensures r.Some? ==>
      var o := FindById(objects, id).value;
      && r.value.completed == !o.completed
      && r.value.completedAt == (if r.value.completed then Some(now) else None)
      && r.value.(completed := o.completed, completedAt := o.completedAt) == o
  {
    match FindById(objects, id)
    case None => None
    case Some(o) => Some(o.(completed := !o.completed, completedAt := if !o.completed then Some(now) else None))
  }

  /** `handleToggleFlag`: the object's flag becomes the negation of its truth value. */
  function ToggleFlag(objects: seq<AstronomyObject>, id: string): (r: Option<AstronomyObject>)
    ensures r.Some? <==> FindById(objects, id).Some?
    ensures r.Some? ==>
      var o := FindById(objects, id).value;
      && r.value.flagged == Some(o.flagged != Some(true))
      && r.value.(flagged := o.flagged) == o
  {
    match FindById(objects, id)
    case None => None
    case Some(o) => Some(o.(flagged := Some(o.flagged != Some(true))))
  }

  /** Toggling the flag twice leaves the object flagged exactly when it was. */
  lemma ToggleFlagTwice(o: AstronomyObject)
    ensures var once := o.(flagged := Some(o.flagged != Some(true)));
      var twice := once.(flagged := Some(once.flagged != Some(true)));
      (twice.flagged == Some(true)) == (o.flagged == Some(true))
  {
  }

  /** `saveGoalTime`: an empty goal time clears it. */
  function SaveGoalTime(o: AstronomyObject, goal: string): (r: AstronomyObject)
    ensures r.goalTime == (if goal == "" then None else Some(goal))
    ensures r.(goalTime := o.goalTime) == o
  {
    o.(goalTime := NonEmpty(Some(goal)))
  }

  /** `saveNotes`: the notes are trimmed, and blank notes are cleared. */
  function SaveNotes(o: AstronomyObject, notes: string): (r: AstronomyObject)
    ensures r.notes == (if Trim(notes, JavaScript) == "" then None else Some(Trim(notes, JavaScript)))
    ensures r.(notes := o.notes) == o
  {
    o.(notes := NonEmpty(Some(Trim(notes, JavaScript))))
  }

  // ---------------------------------------------------------------------------------------------
  // The list of object types

  /** `filter((t, i, self) => self.indexOf(t) === i)`: the first copy of each element, in order. */
  function Dedup(s: seq<string>): (r: seq<string>)
    ensures forall x :: x in r <==> x in s
    ensures forall i, j :: 0 <= i < j < |r| ==> r[i] != r[j]
    decreases |s|
  {
    if |s| == 0 then []
    else
      var d := Dedup(s[..|s| - 1]);
      assert s == s[..|s| - 1] + [s[|s| - 1]];
      if s[|s| - 1] in s[..|s| - 1] then d else d + [s[|s| - 1]]
  }

  function TypesOf(objects: seq<AstronomyObject>): (r: seq<string>)
    ensures |r| == |objects| && forall k :: 0 <= k < |objects| ==> r[k] == TypeOf(objects[k])
  {
    if |objects| == 0 then [] else [TypeOf(objects[0])] + TypesOf(objects[1..])
  }

  function Self(s: string): string { s }

  /** `availableTypes`: each object's type once ("Unknown" for none), sorted by code point. */
  function AvailableTypes(objects: seq<AstronomyObject>): seq<string>
  {
    SortByKey(Dedup(TypesOf(objects)), Self, StringLe)
  }

  /** The available types are strictly increasing and are exactly the types of the objects. */
  lemma AvailableTypesSpec(objects: seq<AstronomyObject>)
    ensures forall t :: t in AvailableTypes(objects) <==> exists k :: 0 <= k < |objects| && TypeOf(objects[k]) == t
    ensures forall i, j :: 0 <= i < j < |AvailableTypes(objects)| ==>
      StrLess(AvailableTypes(objects)[i], AvailableTypes(objects)[j])
  {
    var d := Dedup(TypesOf(objects));
    var r := AvailableTypes(objects);
    forall t ensures t in r <==> t in d {
      assert t in r <==> t in multiset(r);
      assert t in d <==> t in multiset(d);
    }
    StringLeTotalPreorder();
    SortByKeySorted(d, Self, StringLe);
    forall i, j | 0 <= i < j < |r| ensures StrLess(r[i], r[j]) {
      assert StringLe(r[i], r[j]);
      if r[i] == r[j] {
        DistinctCount(d, r[i]);
        assert multiset(r)[r[i]] >= 2 by { TwoCopies(r, i, j); }
      }
    }
  }

  /** An element of a duplicate-free list occurs once. */
  lemma {:induction false} DistinctCount(d: seq<string>, x: string)
    requires forall i, j :: 0 <= i < j < |d| ==> d[i] != d[j]
    ensures multiset(d)[x] <= 1
    decreases |d|
  {
    if |d| > 0 {
      DistinctCount(d[1..], x);
      assert d == [d[0]] + d[1..];
      if d[0] == x { assert x !in d[1..]; }
    }
  }

  /** Two positions holding the same element make it occur twice. */
  lemma TwoCopies(r: seq<string>, i: int, j: int)
    requires 0 <= i < j < |r| && r[i] == r[j]
    ensures multiset(r)[r[i]] >= 2
  {
    assert r == r[..j] + [r[j]] + r[j + 1..];
    assert r[i] in r[..j];
  }

  // ---------------------------------------------------------------------------------------------
  // A looked-up object

  /** A name looked up under the catalogue's "NAME " prefix loses it. */
  function StripNamePrefix(name: string): (r: string)
    ensures StartsWith(name, "NAME ") ==> name == "NAME " + r
    ensures !StartsWith(name, "NAME ") ==> r == name
  {
    if StartsWith(name, "NAME ") then name[5..] else name
  }

  /** What the lookup service returns for a name. */
  datatype LookupData = LookupData(name: string, ra: Option<string>, dec: Option<string>,
                                   magnitude: Option<string>, size: Option<string>, objectType: Option<string>)

  /**
   * The object `handleLookupObject` adds: missing catalogue data shown as "N/A" (type "Unknown"),
   * not completed, notes trimmed and dropped when blank. `id` and `now` are the fresh identifier
   * and the current time.
   */
  function LookedUpObject(data: LookupData, notes: string, id: string, now: string): (o: AstronomyObject)
    ensures o.id == id && o.addedAt == now && !o.completed
    ensures o.name == StripNamePrefix(data.name)
    ensures o.ra == NonEmpty(data.ra).GetOr("N/A") && o.dec == NonEmpty(data.dec).GetOr("N/A")
    ensures o.magnitude == NonEmpty(data.magnitude).GetOr("N/A") && o.size == NonEmpty(data.size).GetOr("N/A")
    ensures o.objectType == Some(NonEmpty(data.objectType).GetOr("Unknown"))
    ensures o.notes == (if Trim(notes, JavaScript) == "" then None else Some(Trim(notes, JavaScript)))
    ensures o.completedAt.None? && o.goalTime.None? && o.flagged.None?
  {
    AstronomyObject(id, StripNamePrefix(data.name), NonEmpty(data.ra).GetOr("N/A"), NonEmpty(data.dec).GetOr("N/A"),
                    NonEmpty(data.magnitude).GetOr("N/A"), NonEmpty(data.size).GetOr("N/A"),
                    Some(NonEmpty(data.objectType).GetOr("Unknown")), now, false, None, None,
                    NonEmpty(Some(Trim(notes, JavaScript))), None)
  }

  // ---------------------------------------------------------------------------------------------
  // CSV export

  /** The header cells of the CSV export. */
  const ExportHeaders: seq<string> := ObjectHeaders + ProgressHeaders

  const ObjectHeaders: seq<string> := ["Name", "Type", "RA", "Dec", "Magnitude", "Size", "Current Altitude"]
  const ProgressHeaders: seq<string> := ["Current Direction", "Added Date", "Completed", "Completion Date", "Goal Time", "Notes"]

  /**
   * The cells an export row takes from outside the object: the altitude and direction computed
   * for now, and the dates as the browser's locale prints them.
   */
  datatype ExportContext = ExportContext(altitude: Option<string>, direction: Option<string>,
                                         addedDate: string, completionDate: Option<string>)

  /** The cells after the four quoted ones: magnitude to notes. */
  function TrailingCells(o: AstronomyObject, ctx: ExportContext): seq<string>
  {
    [o.magnitude, o.size, ctx.altitude.GetOr("N/A"), NonEmpty(ctx.direction).GetOr("N/A"),
     if o.addedAt != "" then ctx.addedDate else "",
     if o.completed then "Yes" else "No",
     if NonEmpty(o.completedAt).Some? then ctx.completionDate.GetOr("") else "",
     NonEmpty(o.goalTime).GetOr(""),
     if NonEmpty(o.notes).Some? then ImportDialog.Quote(o.notes.value) else ""]
  }

  /** A text between quotes, without doubling the quotes inside it. */
  function QuoteRaw(x: string): string
  {
    "\"" + x + "\""
  }

  /** An export row as written: name, type, right ascension and declination quoted without escaping. */
  function ExportRowAsWritten(o: AstronomyObject, ctx: ExportContext): string
  {
    Join([QuoteRaw(o.name), QuoteRaw(TypeOf(o)), QuoteRaw(o.ra), QuoteRaw(o.dec)] + TrailingCells(o, ctx), ",")
  }

  /** A name holding a quote does not survive the as-written export: `a"b` reads back as `ab`. */
  lemma ExportAsWrittenLosesQuote(name: string)
    requires name == "a\"b"
    ensures ImportDialog.Fields(QuoteRaw(name), false) == ["ab"]
    ensures ImportDialog.Fields(ImportDialog.Quote(name), false) == [name]
  {
    assert QuoteRaw(name) == "\"a\"b\"";
    assert ImportDialog.Fields("\"", false) == [""];
    assert "b\""[1..] == "\"" && ['b'] + "" == "b";
    assert ImportDialog.Fields("b\"", false) == ["b"];
    assert ImportDialog.Fields("\"b\"", true) == ["b"];
    assert "a\"b\""[1..] == "\"b\"" && ['a'] + "b" == "ab";
    assert ImportDialog.Fields("a\"b\"", true) == ["ab"];
    ImportDialog.QuotedField(name, "");
    assert ImportDialog.Quote(name) + "" == ImportDialog.Quote(name);
    assert name + "" == name;
  }

  /**
   * In a whole as-written row, a quote in the name unbalances the quoting: a name `a"b` reads back
   * as a first field that begins with `ab`, so the name is lost.
   */
  lemma ExportRowAsWrittenLosesQuote(o: AstronomyObject, ctx: ExportContext)
    requires o.name == "a\"b"
    ensures "ab" <= ImportDialog.Fields(ExportRowAsWritten(o, ctx), false)[0]
    ensures ImportDialog.Fields(ExportRowAsWritten(o, ctx), false)[0] != o.name
  {
    var row := ExportRowAsWritten(o, ctx);
    var cells := [QuoteRaw(o.name), QuoteRaw(TypeOf(o)), QuoteRaw(o.ra), QuoteRaw(o.dec)] + TrailingCells(o, ctx);
    assert Join(cells, ",") == cells[0] + "," + Join(cells[1..], ",");
    var rest := row[4..];
    assert row == "\"a\"b" + rest;
    var f := ImportDialog.Fields(rest, false);
    assert ImportDialog.Fields(row, false) == ImportDialog.Fields(row[1..], true);
    assert ImportDialog.Fields(row[1..], true) == ImportDialog.Prepend("a", ImportDialog.Fields(row[2..], true));
    assert ImportDialog.Fields(row[2..], true) == ImportDialog.Fields(row[3..], false);
    assert row[3..][1..] == rest;
    assert ImportDialog.Fields(row[3..], false) == ImportDialog.Prepend("b", f);
    ImportDialog.PrependPrepend("a", "b", f);
    assert ImportDialog.Fields(row, false)[0] == "ab" + f[0];
  }

  /** The export's header line has the name, RA and Dec columns the import dialog requires. */
  lemma ExportHeadersImport()
    ensures ImportDialog.HasRequiredColumns(ImportDialog.ColumnsOf(ImportDialog.Fields(Join(ExportHeaders, ","), false)))
  {
    ExportHeaderFields();
    ExportHeadersFound();
  }

  /** The header line reads back as the header cells. */
  lemma ExportHeaderFields()
    ensures ImportDialog.Fields(Join(ExportHeaders, ","), false) == ExportHeaders
  {
    HeadersPlain();
    NoQuotesJoin(ExportHeaders);
    ImportDialog.NoQuotesIsSplit(Join(ExportHeaders, ","));
    SplitJoin(ExportHeaders, ',');
  }

  /** A header cell is made of letters and spaces. */
  predicate PlainCell(x: string)
  {
    forall k :: 0 <= k < |x| ==> 'A' <= x[k] <= 'Z' || 'a' <= x[k] <= 'z' || x[k] == ' '
  }

  /** Header cells hold no comma and no quote. */
  predicate SeparatorFree(cells: seq<string>)
  {
    forall k :: 0 <= k < |cells| ==> ',' !in cells[k] && '"' !in cells[k]
  }

  lemma HeadersPlain()
    ensures SeparatorFree(ExportHeaders)
  {
    ObjectHeadersPlain();
    ProgressHeadersPlain();
  }

  lemma ObjectHeadersPlain()
    ensures SeparatorFree(ObjectHeaders)
  {
    assert PlainCell("Name");
    assert PlainCell("Type");
    assert PlainCell("RA");
    assert PlainCell("Dec");
    assert PlainCell("Magnitude");
    assert PlainCell("Size");
    assert PlainCell("Current Altitude");
    forall k | 0 <= k < |ObjectHeaders|
      ensures ',' !in ObjectHeaders[k] && '"' !in ObjectHeaders[k]
    {
      assert PlainCell(ObjectHeaders[k]);
    }
  }

  lemma ProgressHeadersPlain()
    ensures SeparatorFree(ProgressHeaders)
  {
    assert PlainCell("Current Direction");
    assert PlainCell("Added Date");
    assert PlainCell("Completed");
    assert PlainCell("Completion Date");
    assert PlainCell("Goal Time");
    assert PlainCell("Notes");
    forall k | 0 <= k < |ProgressHeaders|
      ensures ',' !in ProgressHeaders[k] && '"' !in ProgressHeaders[k]
    {
      assert PlainCell(ProgressHeaders[k]);
    }
  }

  lemma ExportHeadersFound()
    ensures ImportDialog.HasRequiredColumns(ImportDialog.ColumnsOf(ExportHeaders))
  {
    ImportDialog.NamedIgnoresCase("Name", "name");
    ImportDialog.NamedIgnoresCase("RA", "ra");
    ImportDialog.NamedIgnoresCase("Dec", "dec");
    ImportDialog.Found(ExportHeaders, ImportDialog.Named("name"), 0);
    ImportDialog.Found(ExportHeaders, ImportDialog.Named("ra"), 2);
    ImportDialog.Found(ExportHeaders, ImportDialog.Named("dec"), 3);
  }

  /** Joining quote-free cells with commas gives a quote-free line. */
  lemma {:induction false} NoQuotesJoin(cells: seq<string>)
    requires forall k :: 0 <= k < |cells| ==> '"' !in cells[k]
    ensures '"' !in Join(cells, ",")
    decreases |cells|
  {
    if |cells| > 1 {
      NoQuotesJoin(cells[1..]);
    }
  }

  /** The export row: the four text cells quoted with their quotes doubled. */
  function ExportRow(o: AstronomyObject, ctx: ExportContext): string
  {
    Join(ImportDialog.QuoteAll([o.name, TypeOf(o), o.ra, o.dec]), ",") + "," + Join(TrailingCells(o, ctx), ",")
  }

  /** A quoted cell and a comma read back as that cell, then the fields after the comma. */
  lemma QuotedThenComma(x: string, after: string)
    ensures ImportDialog.Fields(ImportDialog.Quote(x) + ("," + after), false) == [x] + ImportDialog.Fields(after, false)
  {
    var tail := "," + after;
    ImportDialog.QuotedField(x, tail);
    assert tail[1..] == after;
    assert ImportDialog.Fields(tail, false) == [""] + ImportDialog.Fields(after, false);
    assert x + "" == x;
  }

  lemma Regroup<T>(a: seq<T>, c: seq<T>, j: seq<T>, r: seq<T>)
    ensures a + c + j + c + r == a + (c + (j + c + r))
  {
  }

  /** The joined quoted cells open with the first cell quoted, then a comma and the others. */
  lemma JoinQuotedCells(xs: seq<string>, rest: string)
    requires |xs| > 1
    ensures Join(ImportDialog.QuoteAll(xs), ",") + "," + rest
         == ImportDialog.Quote(xs[0]) + ("," + (Join(ImportDialog.QuoteAll(xs[1..]), ",") + "," + rest))
  {
    var q := ImportDialog.QuoteAll(xs);
    assert q[1..] == ImportDialog.QuoteAll(xs[1..]);
    var j := Join(q[1..], ",");
    assert Join(q, ",") == q[0] + "," + j;
    Regroup(q[0], ",", j, rest);
  }

  /** A single quoted cell and the rest. */
  lemma JoinQuotedCell(xs: seq<string>, rest: string)
    requires |xs| == 1
    ensures Join(ImportDialog.QuoteAll(xs), ",") + "," + rest == ImportDialog.Quote(xs[0]) + ("," + rest)
  {
    var q := ImportDialog.QuoteAll(xs);
    assert Join(q, ",") == q[0];
  }

  /** Quoted cells followed by more cells read back as themselves, then the rest. */
  lemma {:induction false} QuotedCellsThenRest(xs: seq<string>, rest: string)
    requires |xs| >= 1
    ensures ImportDialog.Fields(Join(ImportDialog.QuoteAll(xs), ",") + "," + rest, false)
         == xs + ImportDialog.Fields(rest, false)
    decreases |xs|
  {
    if |xs| == 1 {
      JoinQuotedCell(xs, rest);
      QuotedThenComma(xs[0], rest);
      assert xs == [xs[0]];
    } else {
      var after := Join(ImportDialog.QuoteAll(xs[1..]), ",") + "," + rest;
      JoinQuotedCells(xs, rest);
      QuotedThenComma(xs[0], after);
      QuotedCellsThenRest(xs[1..], rest);
      ConsAppend(xs, ImportDialog.Fields(rest, false));
    }
  }

  lemma ConsAppend<T>(xs: seq<T>, f: seq<T>)
    requires |xs| > 0
    ensures [xs[0]] + (xs[1..] + f) == xs + f
  {
    assert [xs[0]] + xs[1..] == xs;
  }

  /** The exported row reads back with the object's name, type, right ascension and declination first. */
  lemma ExportRowRoundTrip(o: AstronomyObject, ctx: ExportContext)
    ensures var fields := ImportDialog.Fields(ExportRow(o, ctx), false);
      |fields| >= 4 && fields[..4] == [o.name, TypeOf(o), o.ra, o.dec]
  {
    QuotedCellsThenRest([o.name, TypeOf(o), o.ra, o.dec], Join(TrailingCells(o, ctx), ","));
  }
}
