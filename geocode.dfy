/** Turning a reverse-geocode result into an address (`handleGeoResult`). */
module Geocode {
  import opened Records

  /** What `String({})` evaluates to: the text a missing property turns
      into, because the lookup's default value is an empty object. */
  const DefaultText: string := "[object Object]"

  /** One geo object of the result; its properties are the texts the
      geocoder attached to it, by property name. */
  datatype GeoObject = GeoObject(properties: map<string, string>)

  /** `result.geoObjects`, in the order the geocoder returned them. */
  type GeocodeResult = seq<GeoObject>

  /** `String(properties.get(name, {}))`. */
  function PropertyText(properties: map<string, string>, name: string): (text: string)
    ensures name in properties ==> text == properties[name]
    ensures name !in properties ==> text == DefaultText
  {
    if name in properties then properties[name] else DefaultText
  }

  /** The address of the first geo object, or nothing when there is none. */
  function HandleGeoResult(result: GeocodeResult): (r: Option<Address>)
    ensures r.None? <==> result == []
    ensures r.Some? ==> r.value.location == PropertyText(result[0].properties, "description")
    ensures r.Some? ==> r.value.route == PropertyText(result[0].properties, "name")
  {
    if |result| > 0 then
      var properties := result[0].properties;
      Some(Address(PropertyText(properties, "description"), PropertyText(properties, "name")))
    else
      None
  }

  /** Only the first geo object decides the address: what follows it in the
      result is never read. */
  lemma {:induction false} OnlyFirstObjectCounts(first: GeoObject, rest1: GeocodeResult, rest2: GeocodeResult)
    ensures HandleGeoResult([first] + rest1) == HandleGeoResult([first] + rest2)
    ensures HandleGeoResult([first] + rest1) == HandleGeoResult([first])
  {
    assert ([first] + rest1)[0] == first;
    assert ([first] + rest2)[0] == first;
  }

  /** The address depends on nothing but the description and name texts of
      the first geo object: two results give the same address exactly when
      their first objects agree on those two texts. */
  lemma SameTextsSameAddress(g1: GeoObject, g2: GeoObject, rest1: GeocodeResult, rest2: GeocodeResult)
    ensures HandleGeoResult([g1] + rest1) == HandleGeoResult([g2] + rest2) <==>
              PropertyText(g1.properties, "description") == PropertyText(g2.properties, "description") &&
              PropertyText(g1.properties, "name") == PropertyText(g2.properties, "name")
  {
    assert ([g1] + rest1)[0] == g1;
    assert ([g2] + rest2)[0] == g2;
  }
}
