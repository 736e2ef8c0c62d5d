/** The geocoding cache of the ingestion script: a map from address to coordinates in which a
    failed lookup is remembered as the pair `(None, None)`. */
module Geocode {
  import opened Wrappers

  /** A cached answer: coordinates, or `(None, None)` for an address the provider could not
      place. */
  datatype GeoPoint = Unresolved | At(lat: real, lon: real)

  type Cache = map<string, GeoPoint>

  /** The provider's reply for one address: `None` when it found nothing or raised. */
  function Answer(reply: Option<(real, real)>): GeoPoint {
    match reply
    case Some((lat, lon)) => At(lat, lon)
    case None => Unresolved
  }

  /** `geolocate(address)` as a value: the point returned and the cache afterwards. The
      provider `geocode` is consulted only for a non-empty address that is not cached. */
  function Resolve(cache: Cache, address: string, geocode: string -> Option<(real, real)>): (res: (GeoPoint, Cache))
    ensures address == "" ==> res == (Unresolved, cache)
    ensures address != "" && address in cache ==> res == (cache[address], cache)
    ensures address != "" && address !in cache ==> res == (Answer(geocode(address)), cache[address := res.0])
  {
    if address == "" then (Unresolved, cache)
    else if address in cache then (cache[address], cache)
    else
      var point := Answer(geocode(address));
      (point, cache[address := point])
  }

  /** The cache only grows: no entry changes, the only key that may appear is the address,
      and after a lookup of a non-empty address the address is cached with the point
      returned. */
  lemma ResolveMonotonic(cache: Cache, address: string, geocode: string -> Option<(real, real)>)
    ensures var (point, after) := Resolve(cache, address, geocode);
      && (forall a :: a in cache ==> a in after && after[a] == cache[a])
      && after.Keys <= cache.Keys + {address}
      && (address != "" ==> address in after && after[address] == point)
  {
  }

  /** A second lookup of the same address returns the same point, leaves the cache as it is,
      and does not depend on the provider at all. */
  lemma ResolveTwice(cache: Cache, address: string, geocode: string -> Option<(real, real)>, later: string -> Option<(real, real)>)
    ensures var (point, after) := Resolve(cache, address, geocode);
      Resolve(after, address, later) == (point, after)
  {
  }
}
