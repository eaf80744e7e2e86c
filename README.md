# Geocode map: address capture and saved collection

A model of the logic inside the `GeocodeMap` React component of
`src/components/layout/geocode-map.tsx`: the user clicks a point on a Yandex
map, a reverse-geocode lookup turns it into an address and a panorama lookup
says whether street-level imagery exists there; the user can save the
selection into a collection kept in the browser's `localStorage` under the
key `yandexAddressObjects`, delete saved records from a table, and see the
saved records with coordinates as placemarks on an overview map.

Files:

- `records.dfy` (module `Records`): `Address`, `SavedObject` (with the
  `key` property a load adds), `Option`, and the predicates `HasId` and
  `UniqueIds`.
- `geocode.dfy` (module `Geocode`): `handleGeoResult` as the pure function
  `HandleGeoResult`; a missing property becomes `DefaultText`, the value of
  `String({})`, i.e. `"[object Object]"`.
- `collection.dfy` (module `Collection`): what a storage slot may hold
  (`EmptyText` for the falsy empty string, `Json(records)` for a serialized
  list, serialization taken as the identity), removal by identifier
  (`WithoutId`, the `filter` of `handleDelete`), the keyed copy a load
  publishes (`WithKeys`), and the overview placemarks (`Placemarks`).
- `geocode_map.dfy` (module `GeocodeMapComponent`): class `GeocodeMap` with
  the React state (`coordinates`, `address`, `hasPanorama`, `objArray`) and
  the whole `localStorage` map as fields, one method per event handler, and
  a client method `RedSquareSession` that runs one click, the two lookups,
  a save and a delete.

The asynchronous lookups are modelled as separate completion events
(`GeocodeResolved`, `GeocodeFailed`, `PanoramaLocated`, `PanoramaFailed`)
that may arrive in any order and any number of times; each writes only its
own field, which the methods' `modifies` frames state. The identifier that
`uuidv4` generates is the `newId` parameter of `SaveAddress`, required not
to be an identifier of the stored list.

Behaviour worth noting:

- A click does not reset the selection: it only replaces `coordinates`,
  and only when the event carries them; both lookups are started even when
  it carries none.
- A successful geocode with no geo object leaves the previous address in
  place instead of clearing it; a missing property becomes
  `"[object Object]"`, not the empty string.
- There is no staleness guard: a late completion from an older click
  overwrites the selection.
- A save appends to the list read back from storage, not to the published
  list, and then publishes that list.
- Malformed stored data is not recovered from: `JSON.parse` errors are not
  caught in the code, so the model has no corrupt-slot fallback.

## Model

| member | source | states |
|---|---|---|
| `Geocode.SameTextsSameAddress` | src/components/layout/geocode-map.tsx:156-172 | two geocode results give the same address exactly when their first geo objects agree on the description and name texts (a missing property counting as the fixed text of `String({})`): the address depends on nothing else |
| `Geocode.OnlyFirstObjectCounts` | src/components/layout/geocode-map.tsx:157-159 | only the first geo object decides the address; the objects after it are never read |
| `Collection.WithoutId` | src/components/layout/geocode-map.tsx:189 | a record is kept exactly when it was in the list and its id differs from the deleted one; the list never grows |
| `Collection.WithoutIdAppend` | src/components/layout/geocode-map.tsx:189 | removal keeps the relative order of the kept records: removing from a concatenation removes from each part |
| `Collection.WithoutIdCount` | src/components/layout/geocode-map.tsx:189 | each record with another id survives as many times as it occurred; no copy of a record with the deleted id survives |
| `Collection.WithoutIdUnchanged` | src/components/layout/geocode-map.tsx:187-192 | deleting leaves the list unchanged if and only if no record carries that id |
| `Collection.WithoutIdRemovesAll` | src/components/layout/geocode-map.tsx:189 | after a delete no record carries the deleted id |
| `Collection.WithoutIdIdempotent` | src/components/layout/geocode-map.tsx:187-192 | deleting the same id twice gives the same list as deleting it once |
| `Collection.WithoutIdKeepsUnique` | src/components/layout/geocode-map.tsx:189 | a list with unique ids still has unique ids after a delete |
| `Collection.DeleteUndoesAppend` | src/components/layout/geocode-map.tsx:174-192 | appending a record under a fresh id and then deleting that id gives back the original list |
| `Collection.WithKeys` | src/components/layout/geocode-map.tsx:200-203 | the loaded list has the stored records in the same order with the same id, address and coordinates, each with `key` equal to its id |
| `Collection.WithKeysAppend` | src/components/layout/geocode-map.tsx:200-203 | loading a concatenation loads each part, in order |
| `Collection.WithKeysIdempotent` | src/components/layout/geocode-map.tsx:200-203 | adding keys to an already loaded list changes nothing |
| `Collection.WithKeysUnique` | src/components/layout/geocode-map.tsx:200-203 | a loaded list has unique ids exactly when the stored list has |
| `Collection.LoadAfterSave` | src/components/layout/geocode-map.tsx:174-204 | loading a list a save has appended to gives the earlier records as before, followed by the saved record with its key |
| `Collection.Placemarks` | src/components/layout/geocode-map.tsx:287-290 | a placemark is drawn exactly for each record with coordinates, carrying its id, coordinates and balloon text (which reads "undefined" for both fields of a record without address); never more placemarks than records |
| `Collection.PlacemarksAppend` | src/components/layout/geocode-map.tsx:287-290 | placemarks follow list order |
| `Collection.PlacemarksCount` | src/components/layout/geocode-map.tsx:287-290 | the number of placemarks equals the number of list positions holding a record with coordinates |
| `GeocodeMapComponent.GeocodeMap.constructor` | src/components/layout/geocode-map.tsx:118-122 | the initial selection is no coordinates, no address, no panorama, and the published list is empty |
| `GeocodeMapComponent.GeocodeMap.ClickMap` | src/components/layout/geocode-map.tsx:128-134 | a click with coordinates replaces the selected coordinates, one without leaves them; address, panorama flag, list and storage are untouched |
| `GeocodeMapComponent.GeocodeMap.GeocodeResolved` | src/components/layout/geocode-map.tsx:136-141 | a result with a first geo object sets the address from it; an empty result keeps the previous address; nothing else changes |
| `GeocodeMapComponent.GeocodeMap.GeocodeFailed` | src/components/layout/geocode-map.tsx:142-145 | a failed geocode clears the address and changes nothing else |
| `GeocodeMapComponent.GeocodeMap.PanoramaLocated` | src/components/layout/geocode-map.tsx:147-148 | the panorama flag becomes true exactly when the returned list is non-empty; nothing else changes |
| `GeocodeMapComponent.GeocodeMap.PanoramaFailed` | src/components/layout/geocode-map.tsx:149-152 | a failed panorama lookup clears the flag and changes nothing else |
| `GeocodeMapComponent.GeocodeMap.SaveAddress` | src/components/layout/geocode-map.tsx:174-185 | with an address selected, exactly one record with the fresh id, the address and the (possibly absent) coordinates is appended at the end of the list read from storage; the slot and the published list then hold the same list, no other storage key changes, and unique ids stay unique |
| `GeocodeMapComponent.GeocodeMap.Delete` | src/components/layout/geocode-map.tsx:187-192 | the published list loses every record with that id and keeps the rest in order; the slot is rewritten with the same list even when nothing matched; no other storage key changes; unique ids stay unique |
| `GeocodeMapComponent.GeocodeMap.LoadSavedObjects` | src/components/layout/geocode-map.tsx:196-208 | the published list becomes the stored list with keys added, empty when the slot is missing or empty; storage is not written; unique ids in the slot stay unique in the loaded list |
| `GeocodeMapComponent.RedSquareSession` | src/components/layout/geocode-map.tsx:128-192 | on empty storage, a click, a geocode of "Moscow"/"Red Square", one panorama, a save and a delete of the saved id end with that selection and with an empty list both published and stored |

## Left out

- Rendering: styled components, the JSX layout, the table columns, the
  delete confirmation and both map widgets (lines 27-113, 214-293), except
  the placemark list of the overview map.
- `formattedCoordinates` and the coordinate column: floating-point
  formatting with `toFixed(6)`; coordinates are kept as abstract reals.
- The Yandex Maps library (`ymaps.geocode`, `ymaps.panorama.locate`,
  `useYMaps`): its outcomes are the parameters of the completion events.
  When the library is not loaded yet (`ymaps` undefined) no lookup starts,
  which the model expresses by no completion event occurring.
- `uuidv4`: replaced by the `newId` parameter with a freshness
  precondition; the generator's randomness is not modelled.
- `JSON.parse` / `JSON.stringify`: taken as the identity on record lists;
  parse errors on corrupt data are not caught by the code and not modelled.
- Asynchrony: the two lookups are independent events; their scheduling
  and the React `useEffect` that calls the load on mount are not modelled.
- `console.log` diagnostics and the `config.json` map centre and zoom.
