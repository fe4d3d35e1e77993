/**
 * The `update` command: load (or start) the manifest of a directory, walk the `*.fit` files
 * found under it, describe each new one and append it, checkpointing the manifest file every
 * ten successful appends and once more at the end.
 *
 * The directory walk, the hashing, the FITS reader and the plate solver are I/O: the walk is the
 * input `found`, and the per-file work is the function `probe`, which yields `None` when
 * describing the file raises.
 */
module Ingestion {
  import opened Wrappers
  import opened Text
  import PathUtils
  import opened AlogModels

  /** The header keywords read from the primary HDU; `None` is a missing keyword. */
  datatype FitsHeader = FitsHeader(
    exptime: Option<real>,
    instrument: Option<string>,
    stackcnt: Option<int>,
    ra: Option<real>,
    dec: Option<real>,
    totalexp: Option<real>,
    naxis1: Option<real>,
    naxis2: Option<real>)

  /** What describing one file yields: its SHA-256 digest, its header and the solver's answer. */
  datatype FileFacts = FileFacts(hash: string, header: FitsHeader, solution: Option<Solution>)

  /** A file from the directory walk: its full path and its path relative to the directory. */
  datatype FoundFile = FoundFile(path: string, rel: string)

  /** The manifest file on disk: missing, holding text that does not validate, or a manifest. */
  datatype ManifestFile = Absent | Invalid | Stored(manifest: Manifest)

  /**
   * The total exposure: TOTALEXP when present and non-zero, otherwise EXPTIME times STACKCNT
   * (each missing keyword read as 0).
   */
  function TotalExposure(h: FitsHeader): (t: real)
    ensures h.totalexp.GetOr(0.0) == 0.0 ==> t == h.exptime.GetOr(0.0) * h.stackcnt.GetOr(0) as real
    ensures h.totalexp.Some? && h.totalexp.value != 0.0 ==> t == h.totalexp.value
  {
    var total := h.totalexp.GetOr(0.0);
    if total == 0.0 then h.exptime.GetOr(0.0) * h.stackcnt.GetOr(0) as real else total
  }

  /**
   * The description stored for a file: only the relative path is kept, no id is assigned, and
   * each header keyword that is missing is stored as 0 (the instrument as "").
   */
  function Describe(rel: string, facts: FileFacts): (d: FileDescription)
    ensures d.pathname == rel && d.hash == facts.hash && d.id.None? && d.solution == facts.solution
    ensures d.totalExposureTime == TotalExposure(facts.header)
    ensures d.instrument == facts.header.instrument.GetOr("")
    ensures d.stackcnt == facts.header.stackcnt.GetOr(0)
    ensures d.ra == facts.header.ra.GetOr(0.0) && d.dec == facts.header.dec.GetOr(0.0)
    ensures d.exposureTime == facts.header.exptime.GetOr(0.0)
    ensures d.axis1 == facts.header.naxis1.GetOr(0.0) && d.axis2 == facts.header.naxis2.GetOr(0.0)
  {
    var h := facts.header;
    FileDescription(None, rel, facts.hash, h.instrument.GetOr(""), TotalExposure(h),
                    h.ra.GetOr(0.0), h.dec.GetOr(0.0), h.stackcnt.GetOr(0), h.exptime.GetOr(0.0),
                    h.naxis1.GetOr(0.0), h.naxis2.GetOr(0.0), facts.solution)
  }

  /** Hidden files and anything under a `lights` directory are not ingested. */
  predicate Eligible(f: FoundFile)
  {
    !PathUtils.IsHidden(PathUtils.TextPath(f.path)) && !Contains(f.path, "/lights/")
  }

  /** Some entry already has this relative path. */
  predicate Known(files: seq<FileDescription>, rel: string)
  {
    exists i :: 0 <= i < |files| && files[i].pathname == rel
  }

  predicate UniquePathnames(files: seq<FileDescription>)
  {
    forall i, j :: 0 <= i < j < |files| ==> files[i].pathname != files[j].pathname
  }

  /** One pass of the loop: skip, fail, or append the new description. */
  function Step(files: seq<FileDescription>, f: FoundFile, probe: FoundFile -> Option<FileFacts>): seq<FileDescription>
  {
    if !Eligible(f) || Known(files, f.rel) then files
    else match probe(f)
      case None => files
      case Some(facts) => files + [Describe(f.rel, facts)]
  }

  /** The manifest's file list after the loop has visited `order`. */
  function Ingest(files: seq<FileDescription>, order: seq<FoundFile>, probe: FoundFile -> Option<FileFacts>): seq<FileDescription>
    decreases |order|
  {
    if |order| == 0 then files
    else Step(Ingest(files, order[..|order| - 1], probe), order[|order| - 1], probe)
  }

  /** The relative paths of the files whose description succeeds. */
  function Described(order: seq<FoundFile>, probe: FoundFile -> Option<FileFacts>): set<string>
    decreases |order|
  {
    if |order| == 0 then {}
    else
      var f := order[|order| - 1];
      Described(order[..|order| - 1], probe) + if Eligible(f) && probe(f).Some? then {f.rel} else {}
  }

  function Pathnames(files: seq<FileDescription>): set<string>
  {
    set i | 0 <= i < |files| :: files[i].pathname
  }

  /** A step keeps the old entries in place and adds at most one whose path was not known. */
  lemma StepExtends(files: seq<FileDescription>, f: FoundFile, probe: FoundFile -> Option<FileFacts>)
    ensures files <= Step(files, f, probe)
    ensures |Step(files, f, probe)| <= |files| + 1
    ensures |Step(files, f, probe)| == |files| + 1 <==> Eligible(f) && !Known(files, f.rel) && probe(f).Some?
    ensures |Step(files, f, probe)| == |files| + 1 ==>
              Step(files, f, probe)[|files|] == Describe(f.rel, probe(f).value)
  {
  }

  /** The loop only appends: the loaded entries stay, in place. */
  lemma {:induction false} IngestExtends(files: seq<FileDescription>, order: seq<FoundFile>, probe: FoundFile -> Option<FileFacts>)
    ensures files <= Ingest(files, order, probe)
    ensures |Ingest(files, order, probe)| <= |files| + |order|
    decreases |order|
  {
    if |order| > 0 {
      IngestExtends(files, order[..|order| - 1], probe);
      StepExtends(Ingest(files, order[..|order| - 1], probe), order[|order| - 1], probe);
    }
  }

  /** Visiting one more file extends the list visited so far. */
  lemma IngestSnoc(files: seq<FileDescription>, order: seq<FoundFile>, i: nat, probe: FoundFile -> Option<FileFacts>)
    requires i < |order|
    ensures Ingest(files, order[..i + 1], probe) == Step(Ingest(files, order[..i], probe), order[i], probe)
  {
    assert order[..i + 1][..i] == order[..i];
  }

  /** No relative path is ever entered twice. */
  lemma {:induction false} IngestKeepsUnique(files: seq<FileDescription>, order: seq<FoundFile>, probe: FoundFile -> Option<FileFacts>)
    requires UniquePathnames(files)
    ensures UniquePathnames(Ingest(files, order, probe))
    decreases |order|
  {
    if |order| > 0 {
      var before := Ingest(files, order[..|order| - 1], probe);
      IngestKeepsUnique(files, order[..|order| - 1], probe);
      StepExtends(before, order[|order| - 1], probe);
    }
  }

  /**
   * Whatever the order, the paths in the manifest afterwards are the loaded ones plus those of
   * the eligible files whose description succeeds.
   */
  lemma {:induction false} IngestPathnames(files: seq<FileDescription>, order: seq<FoundFile>, probe: FoundFile -> Option<FileFacts>)
    ensures Pathnames(Ingest(files, order, probe)) == Pathnames(files) + Described(order, probe)
    decreases |order|
  {
    if |order| > 0 {
      var init := order[..|order| - 1];
      var f := order[|order| - 1];
      var before := Ingest(files, init, probe);
      IngestPathnames(files, init, probe);
      StepExtends(before, f, probe);
      var after := Step(before, f, probe);
      if |after| == |before| + 1 {
        assert after == before + [after[|before|]];
        assert Pathnames(after) == Pathnames(before) + {f.rel} by {
          forall p | p in Pathnames(after) ensures p in Pathnames(before) + {f.rel} {
            var i :| 0 <= i < |after| && after[i].pathname == p;
            if i < |before| { assert before[i] == after[i]; }
          }
          forall p | p in Pathnames(before) ensures p in Pathnames(after) {
            var i :| 0 <= i < |before| && before[i].pathname == p;
            assert after[i] == before[i];
          }
          assert after[|before|].pathname == f.rel;
        }
      } else if Eligible(f) && probe(f).Some? {
        var i :| 0 <= i < |before| && before[i].pathname == f.rel;
        assert f.rel in Pathnames(before);
      }
    }
  }

  /**
   * After the loop, every eligible file visited is either in the manifest or its description
   * fails.
   */
  lemma {:induction false} IngestCovers(files: seq<FileDescription>, order: seq<FoundFile>, probe: FoundFile -> Option<FileFacts>)
    ensures forall f :: f in order && Eligible(f) ==> Known(Ingest(files, order, probe), f.rel) || probe(f).None?
    decreases |order|
  {
    if |order| > 0 {
      var init := order[..|order| - 1];
      var before := Ingest(files, init, probe);
      var after := Ingest(files, order, probe);
      IngestCovers(files, init, probe);
      StepExtends(before, order[|order| - 1], probe);
      forall f | f in order && Eligible(f) && probe(f).Some? ensures Known(after, f.rel) {
        if f in init {
          var i :| 0 <= i < |before| && before[i].pathname == f.rel;
          assert after[i] == before[i];
        } else {
          assert f == order[|order| - 1];
          if !Known(before, f.rel) {
            assert after[|before|].pathname == f.rel;
          } else {
            var i :| 0 <= i < |before| && before[i].pathname == f.rel;
            assert after[i] == before[i];
          }
        }
      }
    }
  }

  /** A pass in which every file is ineligible, known or failing changes nothing. */
  lemma {:induction false} IngestNothingNew(files: seq<FileDescription>, order: seq<FoundFile>, probe: FoundFile -> Option<FileFacts>)
    requires forall f :: f in order && Eligible(f) ==> Known(files, f.rel) || probe(f).None?
    ensures Ingest(files, order, probe) == files
    decreases |order|
  {
    if |order| > 0 {
      IngestNothingNew(files, order[..|order| - 1], probe);
    }
  }

  /**
   * Running again over the same files, in any order (or over any subset of them), appends
   * nothing.
   */
  lemma RerunAppendsNothing(files: seq<FileDescription>, order: seq<FoundFile>, again: seq<FoundFile>,
                            probe: FoundFile -> Option<FileFacts>)
    requires forall f :: f in again ==> f in order
    ensures Ingest(Ingest(files, order, probe), again, probe) == Ingest(files, order, probe)
  {
    IngestCovers(files, order, probe);
    IngestNothingNew(Ingest(files, order, probe), again, probe);
  }

  /**
   * Every entry the loop appends describes an eligible file of the walk whose description
   * succeeded, under its relative path.
   */
  lemma {:induction false} AppendedAreDescribed(files: seq<FileDescription>, order: seq<FoundFile>,
                                                probe: FoundFile -> Option<FileFacts>, k: nat)
    requires |files| <= k < |Ingest(files, order, probe)|
    ensures exists f :: f in order && Eligible(f) && probe(f).Some? && !Known(files, f.rel) &&
                        Ingest(files, order, probe)[k] == Describe(f.rel, probe(f).value)
    decreases |order|
  {
    var init := order[..|order| - 1];
    var f := order[|order| - 1];
    var before := Ingest(files, init, probe);
    IngestExtends(files, init, probe);
    StepExtends(before, f, probe);
    if k < |before| {
      AppendedAreDescribed(files, init, probe, k);
      var g :| g in init && Eligible(g) && probe(g).Some? && !Known(files, g.rel) &&
               before[k] == Describe(g.rel, probe(g).value);
      assert g in order;
    } else {
      assert !Known(before, f.rel);
    }
  }

  /**
   * The manifest file on disk. `saves` records every manifest written, oldest first; it exists
   * only to state the checkpoint rule.
   */
  class ManifestStore {
    var content: ManifestFile
    ghost var saves: seq<Manifest>

    constructor(content: ManifestFile)
      ensures this.content == content && saves == []
    {
      this.content := content;
      saves := [];
    }

    /** Overwrites the file with the manifest. */
    method Save(m: Manifest)
      modifies this
      ensures content == Stored(m) && saves == old(saves) + [m]
    {
      content := Stored(m);
      saves := saves + [m];
    }
  }

  /**
   * The manifests saved at the first `n` checkpoints of a run that started from `loaded`
   * entries and produced `files`: the k-th (from 1) holds the loaded entries and the first
   * 10 k appended ones.
   */
  function CheckpointSaves(files: seq<FileDescription>, loaded: nat, n: nat): (r: seq<Manifest>)
    requires loaded + 10 * n <= |files|
    ensures |r| == n
    decreases n
  {
    if n == 0 then [] else CheckpointSaves(files, loaded, n - 1) + [Manifest(files[..loaded + 10 * n])]
  }

  /** Each checkpoint is a prefix of the final list, of the length the rule says. */
  lemma {:induction false} CheckpointSavesArePrefixes(files: seq<FileDescription>, loaded: nat, n: nat, k: nat)
    requires loaded + 10 * n <= |files| && k < n
    ensures CheckpointSaves(files, loaded, n)[k] == Manifest(files[..loaded + 10 * (k + 1)])
    decreases n
  {
    if k < n - 1 {
      CheckpointSavesArePrefixes(files, loaded, n - 1, k);
    }
  }

  /** Appending to the manifest leaves the checkpoints already taken as they were. */
  lemma {:induction false} CheckpointSavesAppend(files: seq<FileDescription>, d: FileDescription, loaded: nat, n: nat)
    requires loaded + 10 * n <= |files|
    ensures CheckpointSaves(files + [d], loaded, n) == CheckpointSaves(files, loaded, n)
    decreases n
  {
    if n > 0 {
      CheckpointSavesAppend(files, d, loaded, n - 1);
      assert (files + [d])[..loaded + 10 * n] == files[..loaded + 10 * n];
    }
  }

  /** The manifest loaded at the start, or an empty one when the file is missing. */
  function Load(disk: ManifestFile): (r: Result<Manifest>)
    ensures disk.Absent? ==> r == Success(Manifest([]))
    ensures disk.Stored? ==> r == Success(disk.manifest)
    ensures disk.Invalid? <==> r.Failure?
  {
    match disk
    case Absent => Success(NewManifest())
    case Invalid => Failure("manifest.json does not validate")
    case Stored(m) => Success(m)
  }

  /**
   * `update` as written: the module imports the function `random`, so `random.shuffle` raises
   * an AttributeError once the manifest is loaded and the files are listed; no file is ever
   * described and nothing is saved.
   */
  function UpdateAsWritten(disk: ManifestFile, found: seq<FoundFile>, probe: FoundFile -> Option<FileFacts>): (r: Result<seq<FileDescription>>)
    ensures r.Failure?
  {
    match Load(disk)
    case Failure(e) => Failure(e)
    case Success(_) => Failure("'builtin_function_or_method' object has no attribute 'shuffle'")
  }

  /** One found file that describes successfully is enough to tell the two apart. */
  lemma AsWrittenAddsNothing(facts: FileFacts)
    ensures var f := FoundFile("m31.fit", "m31.fit");
            var probe := (g: FoundFile) => Some(facts);
            UpdateAsWritten(Absent, [f], probe).Failure? &&
            Ingest([], [f], probe) == [Describe("m31.fit", facts)]
  {
    var f := FoundFile("m31.fit", "m31.fit");
    PathUtils.BasenameNoSeparator("m31.fit", '/');
    assert !Contains("m31.fit", "/lights/") by {
      NotContainsLonger("m31.fit", "/lights/");
    }
    assert [f][..0] == [];
  }

  lemma NotContainsLonger(s: string, sub: string)
    requires |s| < |sub|
    ensures !Contains(s, sub)
  {
    if Contains(s, sub) {
      var i := ContainsWitness(s, sub);
    }
  }

  /**
   * The body of the loop for one file: the skip tests, then the description, which may fail.
   * `added` tells whether an entry was appended.
   */
  method Admit(files: seq<FileDescription>, f: FoundFile, probe: FoundFile -> Option<FileFacts>)
    returns (next: seq<FileDescription>, added: bool)
    ensures next == Step(files, f, probe)
    ensures added ==> probe(f).Some? && next == files + [Describe(f.rel, probe(f).value)]
    ensures !added ==> next == files
  {
    next := files;
    added := false;
    if PathUtils.IsHidden(PathUtils.TextPath(f.path)) {
      return;
    }
    if Contains(f.path, "/lights/") {
      return;
    }
    if Known(files, f.rel) {
      return;
    }
    var described := probe(f);
    if described.None? {
      return;
    }
    next := files + [Describe(f.rel, described.value)];
    added := true;
  }

  /**
   * Saves the manifest when the number of appended entries has just reached a multiple of ten.
   * `n` counts the checkpoints taken so far.
   */
  method MaybeCheckpoint(store: ManifestStore, files: seq<FileDescription>, count: nat,
                         ghost saves0: seq<Manifest>, ghost loaded: nat, ghost disk0: ManifestFile, ghost n: nat)
    returns (ghost n': nat)
    requires |files| == loaded + count && 10 * n < count <= 10 * n + 10
    requires store.saves == saves0 + CheckpointSaves(files, loaded, n)
    requires OnDisk(store.content, files, loaded, n, disk0)
    modifies store
    ensures 10 * n' <= count < 10 * n' + 10
    ensures store.saves == saves0 + CheckpointSaves(files, loaded, n')
    ensures OnDisk(store.content, files, loaded, n', disk0)
  {
    n' := n;
    if count % 10 == 0 {
      n' := n + 1;
      assert files[..loaded + 10 * n'] == files;
      store.Save(Manifest(files));
    }
  }

  /**
   * The file on disk during the loop: untouched before the first checkpoint, and the loaded
   * entries with the first `10 * n` appended ones after the `n`-th.
   */
  predicate OnDisk(content: ManifestFile, files: seq<FileDescription>, loaded: nat, n: nat, disk0: ManifestFile)
  {
    if n == 0 then content == disk0
    else loaded + 10 * n <= |files| && content == Stored(Manifest(files[..loaded + 10 * n]))
  }

  /** Appending an entry after the last checkpoint leaves the file on disk as it is. */
  lemma OnDiskAppend(content: ManifestFile, files: seq<FileDescription>, d: FileDescription, loaded: nat, n: nat, disk0: ManifestFile)
    requires OnDisk(content, files, loaded, n, disk0)
    ensures OnDisk(content, files + [d], loaded, n, disk0)
  {
    if n > 0 {
      assert (files + [d])[..loaded + 10 * n] == files[..loaded + 10 * n];
    }
  }

  /**
   * The loop of `update` over the shuffled walk: appends the new descriptions and saves the
   * manifest each time the number of appended entries reaches a multiple of ten. While fewer
   * than ten were appended, the file on disk is untouched; afterwards it holds the loaded
   * entries and the first `count - count % 10` appended ones.
   */
  method CheckpointedIngest(store: ManifestStore, loaded: seq<FileDescription>, order: seq<FoundFile>,
                            probe: FoundFile -> Option<FileFacts>)
    returns (files: seq<FileDescription>, count: nat)
    modifies store
    ensures files == Ingest(loaded, order, probe) && count == |files| - |loaded|
    ensures store.saves == old(store.saves) + CheckpointSaves(files, |loaded|, count / 10)
    ensures count < 10 ==> store.content == old(store.content)
    ensures count >= 10 ==> store.content == Stored(Manifest(files[..|loaded| + count - count % 10]))
  {
    files := loaded;
    count := 0;
    ghost var saves0 := store.saves;
    ghost var n: nat := 0;
    var i := 0;
    while i < |order|
      invariant 0 <= i <= |order|
      invariant files == Ingest(loaded, order[..i], probe)
      invariant loaded <= files && count == |files| - |loaded|
      invariant 10 * n <= count < 10 * n + 10
      invariant store.saves == saves0 + CheckpointSaves(files, |loaded|, n)
      invariant OnDisk(store.content, files, |loaded|, n, old(store.content))
    {
      IngestSnoc(loaded, order, i, probe);
      var next, added := Admit(files, order[i], probe);
      if added {
        var d := Describe(order[i].rel, probe(order[i]).value);
        CheckpointSavesAppend(files, d, |loaded|, n);
        OnDiskAppend(store.content, files, d, |loaded|, n, old(store.content));
        files := next;
        count := count + 1;
        n := MaybeCheckpoint(store, files, count, saves0, |loaded|, old(store.content), n);
      }
      i := i + 1;
    }
    assert order[..i] == order;
    assert n == count / 10 && 10 * n == count - count % 10;
  }

  /**
   * `update` with the shuffle of the walk supplied by the caller as `order`, any permutation
   * of `found`: an unreadable manifest stops it before anything is written; otherwise the
   * manifest (empty when the file is missing) is extended by the loop and saved once more.
   * Returns the number of files added.
   */
  method Update(store: ManifestStore, found: seq<FoundFile>, order: seq<FoundFile>, probe: FoundFile -> Option<FileFacts>)
    returns (r: Result<nat>)
    requires multiset(order) == multiset(found)
    modifies store
    ensures Load(old(store.content)).Failure? ==> r.Failure? && store.content == old(store.content) && store.saves == old(store.saves)
    ensures Load(old(store.content)).Success? ==>
              var loaded := Load(old(store.content)).value.files;
              var files := Ingest(loaded, order, probe);
              r == Success(|files| - |loaded|) &&
              store.content == Stored(Manifest(files)) &&
              store.saves == old(store.saves) + CheckpointSaves(files, |loaded|, (|files| - |loaded|) / 10) + [Manifest(files)]
  {
    var loaded := Load(store.content);
    if loaded.Failure? {
      return Failure(loaded.error);
    }
    var files, count := CheckpointedIngest(store, loaded.value.files, order, probe);
    store.Save(Manifest(files));
    r := Success(count);
  }
}
