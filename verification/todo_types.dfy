/** The item of the astronomy to-do list, shared by the list, the import dialog and the data sync. */
module TodoTypes {
  import opened Wrappers

  datatype AstronomyObject = AstronomyObject(
    id: string,
    name: string,
    ra: string,
    dec: string,
    magnitude: string,
    size: string,
    objectType: Option<string>,
    addedAt: string,
    completed: bool,
    completedAt: Option<string>,
    goalTime: Option<string>,
    notes: Option<string>,
    flagged: Option<bool>)
}
