/** The values the geocode map component works with: the address a
    geocode lookup yields and the saved objects kept in the collection. */
module Records {

  datatype Option<+T> = None | Some(value: T)

  /** A coordinate pair as the map reports it (latitude, longitude). The
      component never computes with the numbers, so they are kept abstract
      as reals; only presence matters to the core. */
  type Coordinates = seq<real>

  /** `IAddress`: both fields are always present once an address exists. */
  datatype Address = Address(location: string, route: string)

  /** `ISavedObject`, plus the `key` property that loading adds to each
      item (None on a record that has never been through a load). */
  datatype SavedObject = SavedObject(
    id: string,
    address: Option<Address>,
    coordinates: Option<Coordinates>,
    key: Option<string>)

  /** Some record of `objs` carries identifier `id`. */
  predicate HasId(objs: seq<SavedObject>, id: string)
  {
    exists i :: 0 <= i < |objs| && objs[i].id == id
  }

  /** No two records of `objs` share an identifier. */
  predicate UniqueIds(objs: seq<SavedObject>)
  {
    forall i, j :: 0 <= i < j < |objs| ==> objs[i].id != objs[j].id
  }
}
