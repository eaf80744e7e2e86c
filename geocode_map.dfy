/** The `GeocodeMap` component's state and event handlers: the selection
    (clicked coordinates, resolved address, panorama availability), the
    published collection `objArray`, and the browser storage it persists to. */
module GeocodeMapComponent {
  import opened Records
  import opened Geocode
  import opened Collection

  /** The storage key the collection is kept under. */
  const SlotKey: string := "yandexAddressObjects"

  class GeocodeMap {
    // The selection.
    var coordinates: Option<Coordinates>
    var address: Option<Address>
    var hasPanorama: bool
    // The collection as published to the table and the overview map.
    var objArray: seq<SavedObject>
    // The browser's key-value storage, every key of it.
    var storage: map<string, Stored>

    /** A freshly mounted component over the storage as the browser has it. */
    constructor (initialStorage: map<string, Stored>)
      ensures coordinates == None && address == None && !hasPanorama
      ensures objArray == [] && storage == initialStorage
    {
      coordinates, address, hasPanorama := None, None, false;
      objArray, storage := [], initialStorage;
    }

    /** The list a save or a load reads back from the slot. */
    function StoredObjects(): seq<SavedObject>
      reads this
    {
      StoredList(storage, SlotKey)
    }

    /** The slot holds exactly the published list. */
    predicate InSync()
      reads this
    {
      SlotKey in storage && storage[SlotKey] == Json(objArray)
    }

    /** A map click: a click that carries coordinates selects them, one that
        carries none leaves the selected coordinates alone. The address and
        panorama lookups it starts complete later, as the four events below. */
    method ClickMap(coords: Option<Coordinates>)
      modifies this`coordinates
      ensures coordinates == if coords.Some? then coords else old(coordinates)
    {
      if coords.Some? {
        coordinates := coords;
      }
    }

    /** The reverse-geocode lookup succeeded: an address is taken from the
        first geo object; with no geo object the previous address stays. */
    method GeocodeResolved(result: GeocodeResult)
      modifies this`address
      ensures result != [] ==> address == HandleGeoResult(result) && address.Some?
      ensures result == [] ==> address == old(address)
    {
      var resolved := HandleGeoResult(result);
      if resolved.Some? {
        address := resolved;
      }
    }

    /** The reverse-geocode lookup failed: the address is cleared. */
    method GeocodeFailed()
      modifies this`address
      ensures address == None
    {
      address := None;
    }

    /** The panorama lookup returned a list of `length` panoramas. */
    method PanoramaLocated(length: nat)
      modifies this`hasPanorama
      ensures hasPanorama <==> length > 0
    {
      hasPanorama := length != 0;
    }

    /** The panorama lookup failed. */
    method PanoramaFailed()
      modifies this`hasPanorama
      ensures !hasPanorama
    {
      hasPanorama := false;
    }

    /** The save button: only shown while an address is selected. The new
        record goes at the end of the list read from the slot (not of the
        published list), the slot is rewritten with the result, and the
        result is published. `newId` stands for the generated identifier. */
    method SaveAddress(newId: string)
      requires address.Some?
      requires !HasId(StoredObjects(), newId)
      modifies this`objArray, this`storage
      ensures objArray == old(StoredObjects()) + [SavedObject(newId, address, coordinates, None)]
      ensures storage == old(storage)[SlotKey := Json(objArray)]
      ensures InSync() && StoredObjects() == objArray
      ensures UniqueIds(old(StoredObjects())) ==> UniqueIds(objArray)
    {
      var list := StoredList(storage, SlotKey);
      var saved := SavedObject(newId, address, coordinates, None);
      list := list + [saved];
      storage := storage[SlotKey := Json(list)];
      objArray := list;
    }

    /** Delete from the table: every published record with that identifier
        is dropped, the rest keep their order, the slot is rewritten with
        the result (even when nothing matched), and the result is published. */
    method Delete(id: string)
      modifies this`objArray, this`storage
      ensures objArray == WithoutId(old(objArray), id)
      ensures storage == old(storage)[SlotKey := Json(objArray)]
      ensures InSync() && StoredObjects() == objArray
      ensures !HasId(objArray, id)
      ensures !HasId(old(objArray), id) ==> objArray == old(objArray)
      ensures UniqueIds(old(objArray)) ==> UniqueIds(objArray)
    {
      var remaining := WithoutId(objArray, id);
      WithoutIdRemovesAll(objArray, id);
      WithoutIdUnchanged(objArray, id);
      if UniqueIds(objArray) {
        WithoutIdKeepsUnique(objArray, id);
      }
      storage := storage[SlotKey := Json(remaining)];
      objArray := remaining;
    }

    /** Loading on mount: the stored list, each record given `key` equal to
        its identifier; an empty list when the slot is missing or empty. The
        slot itself is only read. */
    method LoadSavedObjects()
      modifies this`objArray
      ensures objArray == WithKeys(StoredObjects())
      ensures StoredObjects() == [] ==> objArray == []
      ensures UniqueIds(StoredObjects()) ==> UniqueIds(objArray)
    {
      objArray := WithKeys(StoredList(storage, SlotKey));
      WithKeysUnique(StoredList(storage, SlotKey));
    }
  }

  /** A session on empty storage: click a point, the lookups report
      "Moscow" / "Red Square" and one panorama, the address is saved, then
      deleted again. The selection ends as reported, and the collection and
      the slot both end empty. */
  method RedSquareSession()
    returns (coords: Option<Coordinates>, address: Option<Address>, hasPanorama: bool,
             published: seq<SavedObject>, slot: Stored)
    ensures coords == Some([55.751244, 37.618423])
    ensures address == Some(Address("Moscow", "Red Square"))
    ensures hasPanorama
    ensures published == [] && slot == Json([])
  {
    var m := new GeocodeMap(map[]);
    m.LoadSavedObjects();
    m.ClickMap(Some([55.751244, 37.618423]));
    m.PanoramaLocated(1);
    m.GeocodeResolved([GeoObject(map["description" := "Moscow", "name" := "Red Square"])]);
    m.SaveAddress("3f2c9a");
    assert m.objArray == [SavedObject("3f2c9a", m.address, m.coordinates, None)];
    m.Delete("3f2c9a");
    coords, address, hasPanorama := m.coordinates, m.address, m.hasPanorama;
    published, slot := m.objArray, m.storage[SlotKey];
  }
}
