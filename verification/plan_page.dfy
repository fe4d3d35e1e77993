/**
 * The planning page: adding a looked-up object to the night's schedule, removing an item and
 * recommending the brightest objects of the search results.
 */
module PlanPage {
  import opened Wrappers
  import opened Text
  import opened Seqs
  import opened Sorting
  import opened Schedule

  /** A search result of the page, with the catalogue metadata it may carry. */
  datatype Candidate = Candidate(
    name: string,
    displayName: Option<string>,
    otype: Option<string>,
    ra: Option<string>,
    dec: Option<string>,
    magnitude: Option<string>)

  /** The new schedule item for a candidate; `id` is the fresh identifier the page draws. */
  function NewItem(selected: Candidate, id: string, startTime: string, duration: int): (it: PlanningItem)
    ensures it.id == id && it.startTime == startTime && it.duration == duration
    ensures it.objectName == NonEmpty(selected.displayName).GetOr(selected.name)
    ensures it.ra == NonEmpty(selected.ra).GetOr("0") && it.dec == NonEmpty(selected.dec).GetOr("0")
    ensures it.magnitude == NonEmpty(selected.magnitude).GetOr("N/A")
    ensures it.objectType == NonEmpty(selected.otype)
  {
    PlanningItem(id, NonEmpty(selected.displayName).GetOr(selected.name), startTime, duration,
                 NonEmpty(selected.ra).GetOr("0"), NonEmpty(selected.dec).GetOr("0"),
                 NonEmpty(selected.magnitude).GetOr("N/A"), NonEmpty(selected.otype))
  }

  function StartTimeOf(it: PlanningItem): string { it.startTime }

  /**
   * `addToSchedule`: without a selected object or a start time the schedule stays as it is;
   * otherwise the new item joins it and the whole is sorted by start time (a stable sort,
   * `localeCompare` taken as code-point order).
   */
  function AddToSchedule(prev: seq<PlanningItem>, selected: Option<Candidate>, startTime: string,
                         duration: int, id: string): (r: seq<PlanningItem>)
    ensures selected.None? || startTime == "" ==> r == prev
    ensures selected.Some? && startTime != "" ==>
      multiset(r) == multiset(prev) + multiset{NewItem(selected.value, id, startTime, duration)}
  {
    if selected.None? || startTime == "" then prev
    else SortByKey(prev + [NewItem(selected.value, id, startTime, duration)], StartTimeOf, StringLe)
  }

  /** After an add the schedule is in start-time order. */
  lemma AddToScheduleSorted(prev: seq<PlanningItem>, selected: Candidate, startTime: string, duration: int, id: string)
    requires startTime != ""
    ensures SortedByKey(AddToSchedule(prev, Some(selected), startTime, duration, id), StartTimeOf, StringLe)
  {
    StringLeTotalPreorder();
    SortByKeySorted(prev + [NewItem(selected, id, startTime, duration)], StartTimeOf, StringLe);
  }

  /** Adding to a schedule that is in order puts the new item after every item that starts no later. */
  lemma AddToSortedSchedule(prev: seq<PlanningItem>, selected: Candidate, startTime: string, duration: int, id: string)
    requires startTime != "" && SortedByKey(prev, StartTimeOf, StringLe)
    requires forall k :: 0 <= k < |prev| ==> StringLe(prev[k].startTime, startTime)
    ensures AddToSchedule(prev, Some(selected), startTime, duration, id) == prev + [NewItem(selected, id, startTime, duration)]
  {
    var it := NewItem(selected, id, startTime, duration);
    var s := prev + [it];
    assert s[..|s| - 1] == prev;
    SortByKeyOfSorted(prev, StartTimeOf, StringLe);
    InsertAtEnd(it, prev, StartTimeOf, StringLe);
  }

  /** `removeFromSchedule`: the items with another identifier, in their order. */
  function RemoveFromSchedule(prev: seq<PlanningItem>, id: string): (r: seq<PlanningItem>)
  {
    Filter(prev, (it: PlanningItem) => it.id != id)
  }

  /**
   * Removal drops exactly the items with that identifier and keeps the others in order;
   * removing an identifier that is not scheduled changes nothing.
   */
  lemma RemoveFromScheduleSpec(prev: seq<PlanningItem>, id: string)
    ensures forall it :: it in RemoveFromSchedule(prev, id) <==> it in prev && it.id != id
    ensures Subsequence(RemoveFromSchedule(prev, id), prev)
    ensures (forall k :: 0 <= k < |prev| ==> prev[k].id != id) ==> RemoveFromSchedule(prev, id) == prev
  {
    FilterMembers(prev, (it: PlanningItem) => it.id != id);
    FilterSubsequence(prev, (it: PlanningItem) => it.id != id);
    if forall k :: 0 <= k < |prev| ==> prev[k].id != id {
      FilterAll(prev, (it: PlanningItem) => it.id != id);
    }
  }

  // ---------------------------------------------------------------------------------------------
  // Recommendations

  /** The magnitude of a candidate as `parseFloat` reads it (`None` for NaN), "99" when absent. */
  function MagnitudeOf(o: Candidate, parseFloat: string -> Option<real>): Option<real>
  {
    parseFloat(NonEmpty(o.magnitude).GetOr("99"))
  }

  /** Kept by the filter: a non-empty magnitude that reads as a number below 8. */
  function Bright(parseFloat: string -> Option<real>): Candidate -> bool
  {
    (o: Candidate) => NonEmpty(o.magnitude).Some? && MagnitudeOf(o, parseFloat).Some? && MagnitudeOf(o, parseFloat).value < 8.0
  }

  /** The sort key; every candidate that passed the filter reads as a number. */
  function MagnitudeKey(parseFloat: string -> Option<real>): Candidate -> real
  {
    (o: Candidate) => MagnitudeOf(o, parseFloat).GetOr(99.0)
  }

  /**
   * `getRecommendedObjects`: the candidates with a magnitude below 8, brightest first,
   * at most ten. `parseFloat` is the host's number reader.
   */
  function RecommendedObjects(objects: seq<Candidate>, parseFloat: string -> Option<real>): (r: seq<Candidate>)
    ensures |r| <= 10
  {
    Take(SortByKey(Filter(objects, Bright(parseFloat)), MagnitudeKey(parseFloat), RealLe), 10)
  }

  /**
   * Every recommendation is one of the candidates, has a magnitude that reads below 8, and
   * the list is in ascending magnitude.
   */
  lemma RecommendedObjectsSpec(objects: seq<Candidate>, parseFloat: string -> Option<real>)
    ensures forall o :: o in RecommendedObjects(objects, parseFloat) ==>
      o in objects && MagnitudeOf(o, parseFloat).Some? && MagnitudeOf(o, parseFloat).value < 8.0
    ensures SortedByKey(RecommendedObjects(objects, parseFloat), MagnitudeKey(parseFloat), RealLe)
  {
    var bright := Filter(objects, Bright(parseFloat));
    var sorted := SortByKey(bright, MagnitudeKey(parseFloat), RealLe);
    var r := RecommendedObjects(objects, parseFloat);
    FilterMembers(objects, Bright(parseFloat));
    forall o | o in r
      ensures o in objects && MagnitudeOf(o, parseFloat).Some? && MagnitudeOf(o, parseFloat).value < 8.0
    {
      assert o in sorted;
      assert o in multiset(sorted);
      assert o in multiset(bright);
    }
    RealLeTotalPreorder();
    SortByKeySorted(bright, MagnitudeKey(parseFloat), RealLe);
  }

  /** With ten or fewer bright candidates, every one of them is recommended. */
  lemma FewBrightAllRecommended(objects: seq<Candidate>, parseFloat: string -> Option<real>)
    requires |Filter(objects, Bright(parseFloat))| <= 10
    ensures forall o :: o in objects && Bright(parseFloat)(o) ==> o in RecommendedObjects(objects, parseFloat)
  {
    var bright := Filter(objects, Bright(parseFloat));
    var sorted := SortByKey(bright, MagnitudeKey(parseFloat), RealLe);
    FilterMembers(objects, Bright(parseFloat));
    assert RecommendedObjects(objects, parseFloat) == sorted;
    forall o | o in objects && Bright(parseFloat)(o) ensures o in sorted {
      assert o in multiset(bright);
    }
  }

  /** The bright candidates, in their order. */
  function BrightOf(objects: seq<Candidate>, parseFloat: string -> Option<real>): (r: seq<Candidate>)
    ensures forall o :: o in r <==> o in objects && Bright(parseFloat)(o)
  {
    FilterMembers(objects, Bright(parseFloat));
    Filter(objects, Bright(parseFloat))
  }

  /**
   * The recommendations are the brightest candidates: as many as ten allows, drawn from the bright
   * ones, and every bright candidate left out is no brighter than any recommended one.
   */
  lemma RecommendedAreBrightest(objects: seq<Candidate>, parseFloat: string -> Option<real>)
    ensures |RecommendedObjects(objects, parseFloat)| ==
            (if |BrightOf(objects, parseFloat)| < 10 then |BrightOf(objects, parseFloat)| else 10)
    ensures multiset(RecommendedObjects(objects, parseFloat)) <= multiset(BrightOf(objects, parseFloat))
    ensures forall o, p :: o in RecommendedObjects(objects, parseFloat)
                           && p in multiset(BrightOf(objects, parseFloat)) - multiset(RecommendedObjects(objects, parseFloat))
                           ==> MagnitudeKey(parseFloat)(o) <= MagnitudeKey(parseFloat)(p)
  {
    var key := MagnitudeKey(parseFloat);
    var bright := BrightOf(objects, parseFloat);
    var sorted := SortByKey(bright, key, RealLe);
    var r := RecommendedObjects(objects, parseFloat);
    var n := |r|;
    assert r == sorted[..n];
    assert sorted == sorted[..n] + sorted[n..];
    assert multiset(bright) - multiset(r) == multiset(sorted[n..]);
    RealLeTotalPreorder();
    SortByKeySorted(bright, key, RealLe);
    PrefixBeforeSuffix(sorted, key, n);
  }

  /** In a list sorted by `key`, every element of a prefix has a key at most that of every later element. */
  lemma PrefixBeforeSuffix<T>(sorted: seq<T>, key: T -> real, n: nat)
    requires n <= |sorted| && SortedByKey(sorted, key, RealLe)
    ensures forall o, p :: o in sorted[..n] && p in multiset(sorted[n..]) ==> key(o) <= key(p)
  {
    forall o, p | o in sorted[..n] && p in multiset(sorted[n..])
      ensures key(o) <= key(p)
    {
      var i :| 0 <= i < n && sorted[i] == o;
      assert p in sorted[n..];
      var j :| 0 <= j < |sorted| - n && sorted[n..][j] == p;
      assert sorted[n + j] == p;
    }
  }
}
