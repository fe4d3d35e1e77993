/**
 * The data-sync hook of the to-do list: the list held by the page, its copy in the browser's
 * local storage, and the add, update, delete, import, fetch and sync operations. The server
 * replies are parameters: `None` stands for a failed request.
 */
module DataSync {
  import opened Wrappers
  import opened Text
  import opened Seqs
  import opened TodoTypes

  // ---------------------------------------------------------------------------------------------
  // The list transforms

  /** `objects.map(obj => obj.id === u.id ? u : obj)`. */
  function Replaced(objects: seq<AstronomyObject>, u: AstronomyObject): (r: seq<AstronomyObject>)
    decreases |objects|
  {
    if |objects| == 0 then []
    else [if objects[0].id == u.id then u else objects[0]] + Replaced(objects[1..], u)
  }

  /**
   * An update keeps the length and every object with another identifier in its place, and puts
   * the new version at every position whose identifier matches; an update of an identifier that
   * is not listed changes nothing, and updating twice is updating once.
   */
  lemma {:induction false} ReplacedSpec(objects: seq<AstronomyObject>, u: AstronomyObject)
    ensures |Replaced(objects, u)| == |objects|
    ensures forall k :: 0 <= k < |objects| ==>
      (objects[k].id == u.id ==> Replaced(objects, u)[k] == u) &&
      (objects[k].id != u.id ==> Replaced(objects, u)[k] == objects[k])
    ensures (forall k :: 0 <= k < |objects| ==> objects[k].id != u.id) ==> Replaced(objects, u) == objects
    ensures Replaced(Replaced(objects, u), u) == Replaced(objects, u)
    decreases |objects|
  {
    if |objects| > 0 {
      ReplacedSpec(objects[1..], u);
      var r := Replaced(objects, u);
      assert r[1..] == Replaced(objects[1..], u);
      assert Replaced(r, u) == [r[0]] + Replaced(r[1..], u);
    }
  }

  /** The lower-cased names of a list. */
  function NamesOf(objects: seq<AstronomyObject>): (names: set<string>)
    ensures forall o :: o in objects ==> ToLower(o.name) in names
    ensures forall n :: n in names ==> exists o :: o in objects && ToLower(o.name) == n
  {
    set o | o in objects :: ToLower(o.name)
  }

  function NameIsNew(names: set<string>): AstronomyObject -> bool
  {
    (o: AstronomyObject) => ToLower(o.name) !in names
  }

  /** A merge import: the list, then the imported objects whose lower-cased name is not yet listed. */
  function Merged(existing: seq<AstronomyObject>, imported: seq<AstronomyObject>): seq<AstronomyObject>
  {
    existing + Filter(imported, NameIsNew(NamesOf(existing)))
  }

  /**
   * A merge keeps the list as its prefix, appends a sub-list of the import in import order, and
   * appends exactly the imported objects whose lower-cased name is not already listed.
   */
  lemma MergedSpec(existing: seq<AstronomyObject>, imported: seq<AstronomyObject>)
    ensures Merged(existing, imported)[..|existing|] == existing
    ensures Subsequence(Merged(existing, imported)[|existing|..], imported)
    ensures forall o :: o in Merged(existing, imported)[|existing|..] <==>
      o in imported && forall e :: e in existing ==> ToLower(e.name) != ToLower(o.name)
  {
    var added := Filter(imported, NameIsNew(NamesOf(existing)));
    assert Merged(existing, imported)[|existing|..] == added;
    FilterMembers(imported, NameIsNew(NamesOf(existing)));
    FilterSubsequence(imported, NameIsNew(NamesOf(existing)));
  }

  /** Imported objects that share a new name with each other are all kept. */
  lemma MergeKeepsDuplicatesOfTheImport(existing: seq<AstronomyObject>, imported: seq<AstronomyObject>)
    requires forall o :: o in imported ==> ToLower(o.name) !in NamesOf(existing)
    ensures Merged(existing, imported) == existing + imported
  {
    FilterAll(imported, NameIsNew(NamesOf(existing)));
  }

  /** Merging the same import a second time adds nothing. */
  lemma MergeTwice(existing: seq<AstronomyObject>, imported: seq<AstronomyObject>)
    ensures Merged(Merged(existing, imported), imported) == Merged(existing, imported)
  {
    var once := Merged(existing, imported);
    var added := Filter(imported, NameIsNew(NamesOf(existing)));
    FilterMembers(imported, NameIsNew(NamesOf(existing)));
    forall o | o in imported ensures ToLower(o.name) in NamesOf(once) {
      if ToLower(o.name) !in NamesOf(existing) {
        assert o in added;
        assert o in once;
      } else {
        var e :| e in existing && ToLower(e.name) == ToLower(o.name);
        assert e in once;
      }
    }
    NoneNew(imported, NamesOf(once));
    assert once + [] == once;
  }

  /** When every name is already taken, the filter of new names is empty. */
  lemma {:induction false} NoneNew(imported: seq<AstronomyObject>, names: set<string>)
    requires forall o :: o in imported ==> ToLower(o.name) in names
    ensures Filter(imported, NameIsNew(names)) == []
    decreases |imported|
  {
    if |imported| > 0 {
      assert imported[0] in imported;
      NoneNew(imported[1..], names);
    }
  }

  /** `importObjects`' new list: the import itself, or the merge. */
  function ImportedList(existing: seq<AstronomyObject>, imported: seq<AstronomyObject>, replace: bool): seq<AstronomyObject>
  {
    if replace then imported else Merged(existing, imported)
  }

  // ---------------------------------------------------------------------------------------------
  // The hook's state

  /** The page's list and the list stored in local storage under 'astronomyTodoObjects'. */
  class TodoStore {
    var objects: seq<AstronomyObject>
    /** `None` while nothing is stored. */
    var stored: Option<seq<AstronomyObject>>

    /** The stored copy is the list the page shows. */
    predicate Mirrored()
      reads this
    {
      stored == Some(objects)
    }

    constructor (initial: seq<AstronomyObject>, saved: Option<seq<AstronomyObject>>)
      ensures objects == initial && stored == saved
    {
      objects := initial;
      stored := saved;
    }

    /**
     * `fetchData`: nothing without a user; the server's list replaces the page's list and the
     * stored copy; when the request fails, the stored copy, if any, is shown.
     */
    method FetchData(signedIn: bool, fetched: Option<seq<AstronomyObject>>)
      modifies this
      ensures !signedIn ==> objects == old(objects) && stored == old(stored)
      ensures signedIn && fetched.Some? ==> objects == fetched.value && stored == fetched
      ensures signedIn && fetched.None? ==>
        stored == old(stored) && objects == (if old(stored).Some? then old(stored).value else old(objects))
      ensures signedIn && (fetched.Some? || old(stored).Some?) ==> Mirrored()
    {
      if !signedIn {
        return;
      }
      if fetched.Some? {
        stored := fetched;
        objects := fetched.value;
      } else if stored.Some? {
        objects := stored.value;
      }
    }

    /**
     * `syncData`: nothing without a user; the server's copy replaces both lists on success;
     * on failure the page keeps its list and the data sent is stored.
     */
    method SyncData(data: seq<AstronomyObject>, signedIn: bool, synced: Option<seq<AstronomyObject>>)
      modifies this
      ensures !signedIn ==> objects == old(objects) && stored == old(stored)
      ensures signedIn && synced.Some? ==> objects == synced.value && Mirrored()
      ensures signedIn && synced.None? ==> objects == old(objects) && stored == Some(data)
    {
      if !signedIn {
        return;
      }
      if synced.Some? {
        stored := synced;
        objects := synced.value;
      } else {
        stored := Some(data);
      }
    }

    /**
     * `addObject`: exactly one object is appended, the server's copy when a user is signed in and
     * the request succeeds, the local object otherwise; the result is that object.
     */
    method AddObject(o: AstronomyObject, signedIn: bool, created: Option<AstronomyObject>) returns (r: AstronomyObject)
      modifies this
      ensures r == (if signedIn && created.Some? then created.value else o)
      ensures objects == old(objects) + [r]
      ensures Mirrored()
    {
      if !signedIn {
        r := o;
      } else if created.Some? {
        r := created.value;
      } else {
        r := o;
      }
      objects := objects + [r];
      stored := Some(objects);
    }

    /**
     * `updateObject`: the page's list is updated at once and stored; the result is the server's
     * answer, or the object itself without a user or when the request fails.
     */
    method UpdateObject(u: AstronomyObject, signedIn: bool, answer: Option<AstronomyObject>) returns (r: AstronomyObject)
      modifies this
      ensures objects == Replaced(old(objects), u)
      ensures Mirrored()
      ensures r == (if signedIn && answer.Some? then answer.value else u)
    {
      objects := Replaced(objects, u);
      stored := Some(objects);
      r := if signedIn && answer.Some? then answer.value else u;
    }

    /**
     * `deleteObject`: every object with the identifier leaves the list at once; the result is
     * false only when a signed-in delete request fails.
     */
    method DeleteObject(id: string, signedIn: bool, deleted: bool) returns (r: bool)
      modifies this
      ensures objects == Filter(old(objects), (o: AstronomyObject) => o.id != id)
      ensures Mirrored()
      ensures r == (!signedIn || deleted)
    {
      objects := Filter(objects, (o: AstronomyObject) => o.id != id);
      stored := Some(objects);
      r := !signedIn || deleted;
    }

    /**
     * `importObjects`: the list becomes the import (replace) or the merge, and is stored; with a
     * user it is then synced, and the server's copy replaces it when the sync succeeds.
     */
    method ImportObjects(imported: seq<AstronomyObject>, replace: bool, signedIn: bool, synced: Option<seq<AstronomyObject>>)
      modifies this
      ensures signedIn && synced.Some? ==> objects == synced.value
      ensures !(signedIn && synced.Some?) ==> objects == ImportedList(old(objects), imported, replace)
      ensures Mirrored()
    {
      var newObjects := ImportedList(objects, imported, replace);
      objects := newObjects;
      stored := Some(newObjects);
      SyncData(newObjects, signedIn, synced);
    }
  }

  /** A delete removes exactly the objects with the identifier and keeps the others in order. */
  lemma DeleteSpec(objects: seq<AstronomyObject>, id: string)
    ensures forall o :: o in Filter(objects, (x: AstronomyObject) => x.id != id) <==> o in objects && o.id != id
    ensures Subsequence(Filter(objects, (x: AstronomyObject) => x.id != id), objects)
  {
    FilterMembers(objects, (x: AstronomyObject) => x.id != id);
    FilterSubsequence(objects, (x: AstronomyObject) => x.id != id);
  }
}
