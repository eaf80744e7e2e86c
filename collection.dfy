/** The saved collection as values: the durable slot's contents, removal
    by identifier, the keyed copy a load publishes, and the placemarks the
    overview map draws from the list. */
module Collection {
  import opened Records

  /** What a storage slot may hold. `EmptyText` is the empty string, which
      the component's truthiness test treats like a missing slot;
      `Json(records)` is a serialized list, serialization being taken as
      the identity on record sequences. */
  datatype Stored = EmptyText | Json(records: seq<SavedObject>)

  /** `localStorageObject ? JSON.parse(localStorageObject) : []` for the
      slot `slotKey` of `storage`. */
  function StoredList(storage: map<string, Stored>, slotKey: string): (objs: seq<SavedObject>)
    ensures slotKey !in storage ==> objs == []
    ensures slotKey in storage && storage[slotKey].EmptyText? ==> objs == []
    ensures slotKey in storage && storage[slotKey].Json? ==> objs == storage[slotKey].records
  {
    if slotKey in storage && storage[slotKey].Json? then storage[slotKey].records else []
  }

  // ---------------------------------------------------------------------
  // Removal by identifier: `objArray.filter(item => item.id !== id)`

  function WithoutId(objs: seq<SavedObject>, id: string): (r: seq<SavedObject>)
    ensures |r| <= |objs|
    ensures forall x :: x in r <==> x in objs && x.id != id
  {
    if objs == [] then []
    else if objs[0].id != id then [objs[0]] + WithoutId(objs[1..], id)
    else WithoutId(objs[1..], id)
  }

  /** Removal works element by element, so it keeps the relative order of
      what it keeps: filtering a concatenation filters each part. */
  lemma {:induction false} WithoutIdAppend(s: seq<SavedObject>, t: seq<SavedObject>, id: string)
    ensures WithoutId(s + t, id) == WithoutId(s, id) + WithoutId(t, id)
  {
    if s == [] {
      assert s + t == t;
    } else {
      assert (s + t)[1..] == s[1..] + t;
      WithoutIdAppend(s[1..], t, id);
    }
  }

  /** Every record survives removal as often as it occurred, unless it
      carries the removed identifier, in which case no copy survives. */
  lemma {:induction false} WithoutIdCount(s: seq<SavedObject>, id: string, x: SavedObject)
    ensures multiset(WithoutId(s, id))[x] == if x.id == id then 0 else multiset(s)[x]
  {
    if s != [] {
      assert s == [s[0]] + s[1..];
      WithoutIdCount(s[1..], id, x);
    }
  }

  /** Removing an identifier that no record carries leaves the list as it
      is, and only then. */
  lemma {:induction false} WithoutIdUnchanged(s: seq<SavedObject>, id: string)
    ensures WithoutId(s, id) == s <==> !HasId(s, id)
  {
    if s == [] {
    } else {
      WithoutIdUnchanged(s[1..], id);
      if s[0].id == id {
        assert |WithoutId(s, id)| < |s| by {
          assert WithoutId(s, id) == WithoutId(s[1..], id);
        }
      } else {
        assert HasId(s, id) <==> HasId(s[1..], id) by {
          if HasId(s, id) {
            var i :| 0 <= i < |s| && s[i].id == id;
            assert s[1..][i - 1].id == id;
          }
          if HasId(s[1..], id) {
            var i :| 0 <= i < |s[1..]| && s[1..][i].id == id;
            assert s[i + 1].id == id;
          }
        }
      }
    }
  }

  /** After removal no record carries the identifier. */
  lemma WithoutIdRemovesAll(s: seq<SavedObject>, id: string)
    ensures !HasId(WithoutId(s, id), id)
  {
    var r := WithoutId(s, id);
    forall i | 0 <= i < |r| ensures r[i].id != id {
      assert r[i] in r;
    }
  }

  /** Removing the same identifier twice gives what removing it once does. */
  lemma WithoutIdIdempotent(s: seq<SavedObject>, id: string)
    ensures WithoutId(WithoutId(s, id), id) == WithoutId(s, id)
  {
    WithoutIdRemovesAll(s, id);
    WithoutIdUnchanged(WithoutId(s, id), id);
  }

  /** Deleting the identifier of a record just appended under a fresh
      identifier gives back the list as it was before the append. */
  lemma DeleteUndoesAppend(s: seq<SavedObject>, obj: SavedObject)
    requires !HasId(s, obj.id)
    ensures WithoutId(s + [obj], obj.id) == s
  {
    WithoutIdAppend(s, [obj], obj.id);
    WithoutIdUnchanged(s, obj.id);
  }

  /** Removal never makes identifiers collide. */
  lemma {:induction false} WithoutIdKeepsUnique(s: seq<SavedObject>, id: string)
    requires UniqueIds(s)
    ensures UniqueIds(WithoutId(s, id))
  {
    if s != [] {
      assert UniqueIds(s[1..]) by {
        forall i, j | 0 <= i < j < |s[1..]| ensures s[1..][i].id != s[1..][j].id {
          assert s[1..][i] == s[i + 1] && s[1..][j] == s[j + 1];
        }
      }
      WithoutIdKeepsUnique(s[1..], id);
      if s[0].id != id {
        var rest := WithoutId(s[1..], id);
        forall k | 0 <= k < |rest| ensures rest[k].id != s[0].id {
          assert rest[k] in s[1..];
          var j :| 0 <= j < |s[1..]| && s[1..][j] == rest[k];
          assert s[j + 1] == rest[k];
        }
        assert WithoutId(s, id) == [s[0]] + rest;
      }
    }
  }

  // ---------------------------------------------------------------------
  // Loading: `parsed.map(item => ({...item, key: item.id}))`

  /** One loaded record: the stored record with `key` set to its id. */
  function Keyed(obj: SavedObject): SavedObject
  {
    obj.(key := Some(obj.id))
  }

  function WithKeys(objs: seq<SavedObject>): (r: seq<SavedObject>)
    ensures |r| == |objs|
    ensures forall i :: 0 <= i < |objs| ==>
              r[i].id == objs[i].id && r[i].address == objs[i].address &&
              r[i].coordinates == objs[i].coordinates && r[i].key == Some(objs[i].id)
  {
    if objs == [] then [] else [Keyed(objs[0])] + WithKeys(objs[1..])
  }

  /** Loading a concatenation loads each part, in order. */
  lemma {:induction false} WithKeysAppend(s: seq<SavedObject>, t: seq<SavedObject>)
    ensures WithKeys(s + t) == WithKeys(s) + WithKeys(t)
  {
    if s == [] {
      assert s + t == t;
    } else {
      assert (s + t)[1..] == s[1..] + t;
      WithKeysAppend(s[1..], t);
    }
  }

  /** Loading an already loaded list changes nothing. */
  lemma WithKeysIdempotent(s: seq<SavedObject>)
    ensures WithKeys(WithKeys(s)) == WithKeys(s)
  {
    var once := WithKeys(s);
    var twice := WithKeys(once);
    forall i | 0 <= i < |s| ensures twice[i] == once[i] {
      assert twice[i].id == once[i].id;
    }
  }

  /** Loading neither adds, drops nor reorders identifiers, so a loaded
      list has unique identifiers exactly when the stored one has. */
  lemma WithKeysUnique(s: seq<SavedObject>)
    ensures UniqueIds(WithKeys(s)) <==> UniqueIds(s)
  {
  }

  /** Saving then loading: the record appended to the stored list comes
      back last, with its key, after the earlier records loaded as before. */
  lemma LoadAfterSave(s: seq<SavedObject>, obj: SavedObject)
    ensures WithKeys(s + [obj]) == WithKeys(s) + [Keyed(obj)]
  {
    WithKeysAppend(s, [obj]);
  }

  // ---------------------------------------------------------------------
  // The overview map: `objArray.map(obj => obj.coordinates && <Placemark/>)`

  /** A placemark as the overview map receives it: its React key, its
      geometry and its balloon text. */
  datatype Placemark = Placemark(key: string, geometry: Coordinates, balloon: string)

  /** What a template literal prints for `obj?.address?.location` and
      `obj?.address?.route` when the record has no address. */
  const UndefinedText: string := "undefined"

  /** `<strong>${location}<br/>${route}</strong>`: the address's two
      fields, or the text "undefined" twice for a record without address. */
  function BalloonContent(address: Option<Address>): (text: string)
    ensures address.None? ==> text == "<strong>undefined<br/>undefined</strong>"
  {
    match address
    case Some(a) => "<strong>" + a.location + "<br/>" + a.route + "</strong>"
    case None => "<strong>" + UndefinedText + "<br/>" + UndefinedText + "</strong>"
  }

  /** The placemark drawn for a record that has coordinates. */
  function PlacemarkOf(obj: SavedObject): Placemark
    requires obj.coordinates.Some?
  {
    Placemark(obj.id, obj.coordinates.value, BalloonContent(obj.address))
  }

  function Placemarks(objs: seq<SavedObject>): (r: seq<Placemark>)
    ensures |r| <= |objs|
    ensures forall p :: p in r <==>
              exists o :: o in objs && o.coordinates.Some? && p == PlacemarkOf(o)
  {
    if objs == [] then []
    else if objs[0].coordinates.Some? then [PlacemarkOf(objs[0])] + Placemarks(objs[1..])
    else Placemarks(objs[1..])
  }

  /** Placemarks follow list order: those of a concatenation are those of
      the first part followed by those of the second. */
  lemma {:induction false} PlacemarksAppend(s: seq<SavedObject>, t: seq<SavedObject>)
    ensures Placemarks(s + t) == Placemarks(s) + Placemarks(t)
  {
    if s == [] {
      assert s + t == t;
    } else {
      assert (s + t)[1..] == s[1..] + t;
      PlacemarksAppend(s[1..], t);
    }
  }

  /** The positions in the list of the records that have coordinates. */
  function PositionsWithCoordinates(objs: seq<SavedObject>): set<nat>
  {
    set i: nat | i < |objs| && objs[i].coordinates.Some?
  }

  /** There is exactly one placemark per record that has coordinates. */
  lemma {:induction false} PlacemarksCount(s: seq<SavedObject>)
    ensures |Placemarks(s)| == |PositionsWithCoordinates(s)|
  {
    if s != [] {
      var n := |s| - 1;
      var init := s[..n];
      assert s == init + [s[n]];
      PlacemarksAppend(init, [s[n]]);
      PlacemarksCount(init);
      var before := PositionsWithCoordinates(init);
      assert n !in before;
      assert [s[n]][1..] == [];
      if s[n].coordinates.Some? {
        assert PositionsWithCoordinates(s) == before + {n};
      } else {
        assert PositionsWithCoordinates(s) == before;
      }
    }
  }
}
