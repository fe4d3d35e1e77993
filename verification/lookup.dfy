/**
 * The `lookup` command: answer from the local cache when it holds the exact query string,
 * otherwise query Simbad, derive the object record field by field (size, distance, proper
 * motion, identifiers, catalog references, common name) and write it back to the cache.
 *
 * Simbad's TAP and identifier queries, and SQLite, are I/O: their answers are inputs (`simbad`,
 * `connected`, `readOk`, `writeOk`), and the cache table is a map from query string to record.
 * JSON encoding of the record is not modelled; the cache stores the record itself.
 */
module Lookup {
  import opened Wrappers
  import opened Text
  import CatalogRefs
  import CommonName

  /** A proper-motion cell: null, masked (printed `--`), or a value. */
  datatype MotionCell = NullCell | Masked | Value(v: real)

  /** The columns of the first result row that the record uses. */
  datatype SimbadRow = SimbadRow(
    mainId: string,
    otype: Option<string>,
    ra: real,
    dec: real,
    dimensions: Option<string>,
    majAxis: Option<real>,
    minAxis: Option<real>,
    angle: Option<real>,
    plx: Option<real>,
    spType: Option<string>,
    v: Option<real>,
    pmra: MotionCell,
    pmdec: MotionCell,
    rv: Option<real>)

  /**
   * What the display text of the axes is measured in, with the values shown: the two axes and,
   * after "PA:", the position angle in degrees.
   */
  datatype AxisText =
    | Arcminutes(major: real, minor: real, angle: real)
    | Arcseconds(major: real, minor: real, angle: real)

  datatype Size =
    | Dimensions(text: string)
    | Axes(major: real, minor: real, positionAngle: real, formatted: AxisText)
    | PointSource
    | Unknown

  datatype Distance = Distance(parsecs: real, lightYears: real)

  datatype Motion = Motion(ra: real, dec: real)

  datatype ObjectRecord = ObjectRecord(
    name: string,
    otype: Option<string>,
    ra: real,
    dec: real,
    size: Size,
    distance: Option<Distance>,
    spectralType: Option<string>,
    visualMagnitude: Option<real>,
    properMotion: Option<Motion>,
    radialVelocity: Option<real>,
    alternativeNames: Option<seq<string>>,
    catalogs: Option<seq<CatalogRefs.Reference>>,
    commonName: Option<string>)

  /** The answer of the Simbad queries: a failure, no row, or the first row with the identifier list. */
  datatype QueryOutcome =
    | QueryError
    | NoResults
    | Found(row: SimbadRow, objectIds: Option<seq<string>>)

  datatype LookupOutcome = CacheHit(cached: ObjectRecord) | NotFound | Failed | Resolved(record: ObjectRecord)

  /** A non-blank dimensions string is given. */
  predicate HasDimensions(row: SimbadRow)
  {
    row.dimensions.Some? && Trim(row.dimensions.value, Python) != ""
  }

  /** A positive major axis is given. */
  predicate HasMajorAxis(row: SimbadRow)
  {
    row.majAxis.Some? && row.majAxis.value > 0.0
  }

  /** The object type names a star or a point source. */
  predicate IsStellar(row: SimbadRow)
  {
    row.otype.Some? && (Contains(row.otype.value, "Star") || '*' in row.otype.value)
  }

  /**
   * The size rule, in order of precedence: the dimensions string, else the axes (minor axis
   * defaulting to the major one, position angle to 0; the display text in arcminutes from 60
   * arcseconds up), else a point source for stars, else unknown.
   */
  predicate SizeFollowsRow(row: SimbadRow, s: Size)
  {
    (s.Dimensions? <==> HasDimensions(row)) &&
    (s.Dimensions? ==> s.text == row.dimensions.value) &&
    (s.Axes? <==> !HasDimensions(row) && HasMajorAxis(row)) &&
    (s.Axes? ==>
       var major := row.majAxis.value;
       var minor := row.minAxis.GetOr(major);
       s.major == major && s.minor == minor && s.positionAngle == row.angle.GetOr(0.0) &&
       s.formatted == (if major >= 60.0 then Arcminutes(major / 60.0, minor / 60.0, s.positionAngle)
                      else Arcseconds(major, minor, s.positionAngle))) &&
    (s.PointSource? <==> !HasDimensions(row) && !HasMajorAxis(row) && IsStellar(row)) &&
    (s.Unknown? <==> !HasDimensions(row) && !HasMajorAxis(row) && !IsStellar(row))
  }

  /** The size rule determines the size: exactly one branch applies. */
  lemma SizeRuleIsFunctional(row: SimbadRow, s1: Size, s2: Size)
    requires SizeFollowsRow(row, s1) && SizeFollowsRow(row, s2)
    ensures s1 == s2
  {
  }

  /** The size, set by three successive tests guarded by the `has_size` flag. */
  method DeriveSize(row: SimbadRow) returns (size: Size)
    ensures SizeFollowsRow(row, size)
  {
    var hasSize := false;
    size := Unknown;
    if row.dimensions.Some? {
      var dim := row.dimensions.value;
      if |dim| > 0 && Trim(dim, Python) != "" {
        size := Dimensions(dim);
        hasSize := true;
      }
    }
    if !hasSize && row.majAxis.Some? {
      var major := row.majAxis.value;
      if major > 0.0 {
        var minor := if row.minAxis.Some? then row.minAxis.value else major;
        var pa := if row.angle.Some? then row.angle.value else 0.0;
        var formatted := if major >= 60.0 then Arcminutes(major / 60.0, minor / 60.0, pa) else Arcseconds(major, minor, pa);
        size := Axes(major, minor, pa, formatted);
        hasSize := true;
      }
    }
    if !hasSize {
      if row.otype.Some? {
        var otype := row.otype.value;
        if Contains(otype, "Star") || '*' in otype {
          size := PointSource;
        } else {
          size := Unknown;
        }
      } else {
        size := Unknown;
      }
    }
  }

  /** The parsecs per unit of parallax (in milliarcseconds) and the light years per parsec. */
  const ParsecsTimesParallax: real := 1000.0
  const LightYearsPerParsec: real := 3.26156

  /** A distance is derived exactly when the parallax is present and non-zero; it is its inverse. */
  function DistanceOf(plx: Option<real>): (d: Option<Distance>)
    ensures d.Some? <==> plx.Some? && plx.value != 0.0
    ensures d.Some? ==> d.value.parsecs * plx.value == ParsecsTimesParallax
    ensures d.Some? ==> d.value.lightYears == d.value.parsecs * LightYearsPerParsec
  {
    if plx.Some? && plx.value != 0.0 then
      var pc := ParsecsTimesParallax / plx.value;
      Some(Distance(pc, pc * LightYearsPerParsec))
    else None
  }

  /** The proper motion is kept only when both components are real values. */
  function MotionOf(pmra: MotionCell, pmdec: MotionCell): (m: Option<Motion>)
    ensures m.Some? <==> pmra.Value? && pmdec.Value?
    ensures m.Some? ==> m.value == Motion(pmra.v, pmdec.v)
  {
    if pmra.Value? && pmdec.Value? then Some(Motion(pmra.v, pmdec.v)) else None
  }

  /** Every name offered to the two extractors, none of them missing. */
  function AsPresent(names: seq<string>): (r: seq<Option<string>>)
    ensures |r| == |names| && forall i :: 0 <= i < |names| ==> r[i] == Some(names[i])
  {
    seq(|names|, i requires 0 <= i < |names| => Some(names[i]))
  }

  /** The identifier list offered to the extractors: the main id, then the alternative ids. */
  function NamesOf(row: SimbadRow, alt: seq<string>): seq<Option<string>>
  {
    AsPresent([row.mainId] + alt)
  }

  /** The alternative identifiers: the list returned, when it is not empty. */
  function AltNames(ids: Option<seq<string>>): (alt: seq<string>)
    ensures ids.Some? && |ids.value| > 0 ==> alt == ids.value
    ensures !(ids.Some? && |ids.value| > 0) ==> alt == []
  {
    if ids.Some? && |ids.value| > 0 then ids.value else []
  }

  /** What the record holds for a row, field by field; optional keys only when non-empty. */
  ghost predicate RecordFollowsRow(row: SimbadRow, ids: Option<seq<string>>, rules: seq<CommonName.NameRule>, rec: ObjectRecord)
  {
    var alt := AltNames(ids);
    var names := NamesOf(row, alt);
    rec.name == row.mainId && rec.otype == row.otype && rec.ra == row.ra && rec.dec == row.dec &&
    SizeFollowsRow(row, rec.size) &&
    rec.distance == DistanceOf(row.plx) &&
    rec.spectralType == row.spType &&
    rec.visualMagnitude == row.v &&
    rec.properMotion == MotionOf(row.pmra, row.pmdec) &&
    rec.radialVelocity == row.rv &&
    AltFollows(alt, rec.alternativeNames) &&
    CatalogsFollow(names, rec.catalogs) &&
    CommonFollows(rules, names, rec.commonName)
  }

  /** The alternative names, kept only when there are some. */
  predicate AltFollows(alt: seq<string>, field: Option<seq<string>>)
  {
    (field.Some? <==> |alt| > 0) && (field.Some? ==> field.value == alt)
  }

  /** The catalogue references of the names, each match once, kept only when there are some. */
  ghost predicate CatalogsFollow(names: seq<Option<string>>, field: Option<seq<CatalogRefs.Reference>>)
  {
    (field.Some? <==> CatalogRefs.AllMatches(names) != {}) &&
    (field.Some? ==> CatalogRefs.RefPairs(field.value) == CatalogRefs.AllMatches(names) &&
                     CatalogRefs.DistinctPairs(field.value))
  }

  /** The first best common name of the names, kept only when there is one. */
  ghost predicate CommonFollows(rules: seq<CommonName.NameRule>, names: seq<Option<string>>, field: Option<string>)
  {
    (field.Some? <==> |CommonName.Candidates(rules, names)| > 0) &&
    (field.Some? ==> CommonName.Accepted(field.value) &&
                     exists i :: CommonName.IsFirstBest(CommonName.Candidates(rules, names), i) &&
                                 CommonName.Candidates(rules, names)[i].name == field.value)
  }

  /** The record of a resolved object. */
  method BuildRecord(row: SimbadRow, ids: Option<seq<string>>, rules: seq<CommonName.NameRule>)
    returns (rec: ObjectRecord)
    ensures RecordFollowsRow(row, ids, rules, rec)
  {
    var size := DeriveSize(row);
    var alt: seq<string> := [];
    var altField: Option<seq<string>> := None;
    if ids.Some? && |ids.value| > 0 {
      alt := ids.value;
      altField := Some(alt);
    }
    assert alt == AltNames(ids) && AltFollows(alt, altField);
    var names := AsPresent([row.mainId] + alt);
    var catalogs := CatalogsField(names);
    var commonField := CommonField(rules, names);
    rec := ObjectRecord(row.mainId, row.otype, row.ra, row.dec, size, DistanceOf(row.plx), row.spType,
                        row.v, MotionOf(row.pmra, row.pmdec), row.rv, altField, catalogs, commonField);
  }

  /** The `catalogs` field: the references found in the names, when there are some. */
  method CatalogsField(names: seq<Option<string>>) returns (catalogs: Option<seq<CatalogRefs.Reference>>)
    ensures CatalogsFollow(names, catalogs)
  {
    var refs := CatalogRefs.ExtractCatalogReferences(names);
    catalogs := None;
    if |refs| > 0 {
      catalogs := Some(refs);
      assert (refs[0].catalog, refs[0].id) in CatalogRefs.RefPairs(refs);
    } else {
      assert CatalogRefs.RefPairs(refs) == {};
    }
  }

  /** The `commonName` field: the common name found in the names, when it is not empty. */
  method CommonField(rules: seq<CommonName.NameRule>, names: seq<Option<string>>) returns (commonField: Option<string>)
    ensures CommonFollows(rules, names, commonField)
  {
    var common := CommonName.ExtractCommonName(rules, names);
    commonField := None;
    if common.Some? && |common.value| > 0 {
      commonField := common;
    }
  }

  /** The cache table: query string to record. */
  class ObjectCache {
    var entries: map<string, ObjectRecord>

    constructor()
      ensures entries == map[]
    {
      entries := map[];
    }

    /** `INSERT OR REPLACE`: the last write for a key wins, other keys are untouched. */
    method Put(key: string, rec: ObjectRecord)
      modifies this
      ensures entries == old(entries)[key := rec]
    {
      entries := entries[key := rec];
    }
  }

  /**
   * A lookup. With caching on and the cache readable, an exact hit answers without a query.
   * Otherwise the query decides: no row or an error caches nothing; a resolved record is
   * written under the exact query string when caching is on, connected and the write succeeds.
   */
  method Lookup(objectName: string, useCache: bool, cache: ObjectCache, connected: bool, readOk: bool,
                writeOk: bool, simbad: QueryOutcome, rules: seq<CommonName.NameRule>)
    returns (out: LookupOutcome)
    modifies cache
    ensures useCache && connected && readOk && objectName in old(cache.entries) ==>
              out == CacheHit(old(cache.entries)[objectName]) && cache.entries == old(cache.entries)
    ensures !(useCache && connected && readOk && objectName in old(cache.entries)) ==>
              (simbad.QueryError? ==> out == Failed && cache.entries == old(cache.entries)) &&
              (simbad.NoResults? ==> out == NotFound && cache.entries == old(cache.entries)) &&
              (simbad.Found? ==>
                 out.Resolved? && RecordFollowsRow(simbad.row, simbad.objectIds, rules, out.record) &&
                 cache.entries == if useCache && connected && writeOk
                                  then old(cache.entries)[objectName := out.record]
                                  else old(cache.entries))
  {
    if useCache && connected && readOk {
      if objectName in cache.entries {
        return CacheHit(cache.entries[objectName]);
      }
    }
    match simbad {
      case QueryError =>
        out := Failed;
      case NoResults =>
        out := NotFound;
      case Found(row, ids) =>
        var rec := BuildRecord(row, ids, rules);
        if useCache && connected && writeOk {
          cache.Put(objectName, rec);
        }
        out := Resolved(rec);
    }
  }
}
