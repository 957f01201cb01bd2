/**
 * The per-region memo in front of the resolver. Python's `functools.cache`
 * keeps one result per argument for the whole process, remembers only calls
 * that returned (an exception is not stored), and is emptied by `cache_clear`.
 */
module LatestCache {
  import opened Wrappers
  import opened Errors
  import opened Versions
  import opened Resolver

  class Cache {
    /** The remembered results, one per region looked up since the last clear. */
    var entries: map<Region, Version>

    /**
     * Every remembered result is what the resolver answers now, for this
     * catalogue. It holds between two clears as long as the catalogue does not change.
     */
    ghost predicate ConsistentWith(catalogue: Catalogue, parse: Parser)
      reads this
    {
      forall region :: region in entries ==> ResolveLatest(catalogue, parse, region) == Ok(entries[region])
    }

    constructor ()
      ensures entries == map[]
    {
      entries := map[];
    }

    /** `latest_version.cache_clear()`. */
    method Clear()
      modifies this
      ensures entries == map[]
      ensures forall catalogue, parse :: ConsistentWith(catalogue, parse)
    {
      entries := map[];
    }

    /** A call of the memoised `latest_version(region)`. */
    method Lookup(catalogue: Catalogue, parse: Parser, region: Region) returns (r: Result<Version, Error>)
      modifies this
      ensures region in old(entries) ==> r == Ok(old(entries)[region]) && entries == old(entries)
      ensures region !in old(entries) ==> r == ResolveLatest(catalogue, parse, region)
      ensures region !in old(entries) ==>
        entries == if r.Ok? then old(entries)[region := r.value] else old(entries)
      ensures r.Ok? ==> region in entries && entries[region] == r.value
      ensures forall other :: other in old(entries) ==> other in entries && entries[other] == old(entries)[other]
      ensures old(ConsistentWith(catalogue, parse)) ==>
        ConsistentWith(catalogue, parse) && r == ResolveLatest(catalogue, parse, region)
    {
      if region in entries {
        r := Ok(entries[region]);
      } else {
        r := ResolveLatest(catalogue, parse, region);
        if r.Ok? {
          entries := entries[region := r.value];
        }
      }
    }
  }

  /** Between two clears, a second lookup of a region that resolved answers the same version. */
  method LookupTwice(cache: Cache, catalogue: Catalogue, parse: Parser, region: Region)
    returns (first: Result<Version, Error>, second: Result<Version, Error>)
    modifies cache
    ensures first.Ok? ==> second == first
    ensures old(cache.ConsistentWith(catalogue, parse)) ==> first == ResolveLatest(catalogue, parse, region)
  {
    first := cache.Lookup(catalogue, parse, region);
    second := cache.Lookup(catalogue, parse, region);
  }
}
