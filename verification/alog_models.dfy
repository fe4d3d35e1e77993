/**
 * The records of the observation log: a manifest of FITS files, the description of one file,
 * the rectangle an image covers on the sky, and an observing session.
 * Floating-point fields are modelled as `real`.
 */
module AlogModels {
  import opened Wrappers

  /** The plate-solving result of the external solver; its contents are not part of this model. */
  datatype Solution = Solution(raw: string)

  /** All six fields are required. */
  datatype ImageRectangle = ImageRectangle(x: real, y: real, width: real, height: real,
                                           rotation: real, totalExposureTime: real)

  datatype FileDescription = FileDescription(
    id: Option<string>,
    pathname: string,
    hash: string,
    instrument: string,
    totalExposureTime: real,
    ra: real,
    dec: real,
    stackcnt: int,
    exposureTime: real,
    axis1: real,
    axis2: real,
    solution: Option<Solution>)

  datatype Manifest = Manifest(files: seq<FileDescription>)

  datatype Session = Session(
    startDate: string,
    name: Option<string>,
    description: Option<string>,
    commentary: Option<string>,
    manifest: Option<Manifest>)

  /** A description built from only the two required fields: every other field takes its default. */
  function NewFileDescription(pathname: string, hash: string): (d: FileDescription)
    ensures d.pathname == pathname && d.hash == hash
    ensures d.id.None? && d.solution.None? && d.instrument == ""
    ensures d.totalExposureTime == 0.0 && d.ra == 0.0 && d.dec == 0.0 && d.stackcnt == 0
    ensures d.exposureTime == 0.0 && d.axis1 == 0.0 && d.axis2 == 0.0
  {
    FileDescription(None, pathname, hash, "", 0.0, 0.0, 0.0, 0, 0.0, 0.0, 0.0, None)
  }

  /** A manifest built without arguments lists no files. */
  function NewManifest(): (m: Manifest)
    ensures |m.files| == 0
  {
    Manifest([])
  }

  /** A session built from only its start date: every other field is absent. */
  function NewSession(startDate: string): (s: Session)
    ensures s.startDate == startDate
    ensures s.name.None? && s.description.None? && s.commentary.None? && s.manifest.None?
  {
    Session(startDate, None, None, None, None)
  }
}
