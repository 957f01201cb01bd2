/**
 * The cluster record built from one inventory entry, its identity-based
 * equality, and its staleness delta.
 */
module Clusters {
  import opened Wrappers
  import opened Errors
  import opened Versions
  import opened Resolver
  import opened LatestCache

  /** One inventory entry as the resource query returns it: a dictionary of strings. */
  type RawRecord = map<string, string>

  datatype Cluster = Cluster(id: string, region: Region, version: Version)

  /**
   * The one-argument constructor: `id` from "id", `region` from "location",
   * `version` parsed from "version". A missing key raises in that order, then
   * an unparsable version raises.
   */
  function FromRecord(raw: RawRecord, parse: Parser): (r: Result<Cluster, Error>)
    ensures r.Ok? <==> "id" in raw && "location" in raw && "version" in raw && parse(raw["version"]).Some?
    ensures r.Ok? ==> r.value.id == raw["id"] && r.value.region == raw["location"]
                      && Some(r.value.version) == parse(raw["version"])
    ensures r.Err? && "id" in raw && "location" in raw && "version" in raw ==>
      r.error == MalformedVersion(raw["version"])
  {
    if "id" !in raw then Err(MissingField("id"))
    else if "location" !in raw then Err(MissingField("location"))
    else if "version" !in raw then Err(MissingField("version"))
    else
      match parse(raw["version"])
      case None => Err(MalformedVersion(raw["version"]))
      case Some(v) => Ok(Cluster(raw["id"], raw["location"], v))
  }

  /** A record written from a cluster's fields, with any text that parses to its version, rebuilds that cluster. */
  lemma FromRecordRoundTrip(c: Cluster, text: string, parse: Parser)
    requires parse(text) == Some(c.version)
    ensures FromRecord(map["id" := c.id, "location" := c.region, "version" := text], parse) == Ok(c)
  {
  }

  /**
   * `[Cluster(cluster) for cluster in argResults.data]`: one cluster per record,
   * in order; the first record that fails aborts the whole list.
   */
  function BuildClusters(inventory: seq<RawRecord>, parse: Parser): (r: Result<seq<Cluster>, Error>)
    ensures r.Ok? ==> |r.value| == |inventory|
    ensures r.Ok? ==> forall i :: 0 <= i < |inventory| ==> FromRecord(inventory[i], parse) == Ok(r.value[i])
    ensures r.Err? ==> exists i :: 0 <= i < |inventory| && FromRecord(inventory[i], parse) == Err(r.error)
                                   && forall j :: 0 <= j < i ==> FromRecord(inventory[j], parse).Ok?
  {
    if inventory == [] then Ok([])
    else
      match FromRecord(inventory[0], parse)
      case Err(e) => Err(e)
      case Ok(c) =>
        match BuildClusters(inventory[1..], parse)
        case Err(e) =>
          var k :| 0 <= k < |inventory| - 1 && FromRecord(inventory[1..][k], parse) == Err(e)
                   && forall j :: 0 <= j < k ==> FromRecord(inventory[1..][j], parse).Ok?;
          assert FromRecord(inventory[k + 1], parse) == Err(e);
          assert forall j :: 1 <= j < k + 1 ==> inventory[j] == inventory[1..][j - 1];
          Err(e)
        case Ok(cs) => Ok([c] + cs)
  }

  /** The list is built exactly when every record can be constructed. */
  lemma {:induction false} BuildClustersSucceedsIff(inventory: seq<RawRecord>, parse: Parser)
    ensures BuildClusters(inventory, parse).Ok? <==>
      forall i :: 0 <= i < |inventory| ==> FromRecord(inventory[i], parse).Ok?
  {
    if inventory != [] {
      BuildClustersSucceedsIff(inventory[1..], parse);
      assert forall i :: 1 <= i < |inventory| ==> inventory[i] == inventory[1..][i - 1];
    }
  }

  /** `__eq__`: two clusters are equal exactly when their ids are. */
  predicate Equals(a: Cluster, b: Cluster): (r: bool)
    ensures r <==> a.(region := b.region, version := b.version) == b
    ensures a == b ==> r
  {
    a.id == b.id
  }

  lemma EqualsIsEquivalence(a: Cluster, b: Cluster, c: Cluster)
    ensures Equals(a, a)
    ensures Equals(a, b) ==> Equals(b, a)
    ensures Equals(a, b) && Equals(b, c) ==> Equals(a, c)
  {
  }

  /** Region and version play no part in equality. */
  lemma EqualsIgnoresRegionAndVersion(a: Cluster, region: Region, version: Version)
    ensures Equals(a, a.(region := region, version := version))
    ensures Equals(a.(region := region, version := version), a)
  {
  }

  /** Equality is coarser than structural identity: same id, different everything else. */
  lemma EqualsIsNotIdentity()
    ensures exists a: Cluster, b: Cluster :: Equals(a, b) && a != b
  {
    var a := Cluster("c", "westus", Version(1, 20, 0));
    var b := Cluster("c", "eastus", Version(1, 25, 1));
    assert Equals(a, b) && a != b;
  }

  /** `delta`: the latest minor release of the region minus the cluster's own minor release. */
  function Delta(latest: Version, c: Cluster): (d: int)
    ensures d == 0 <==> c.version.minor == latest.minor
    ensures d < 0 <==> c.version.minor > latest.minor
    ensures d <= latest.minor
  {
    latest.minor - c.version.minor
  }

  /** Major and patch components of either version play no part in the delta. */
  lemma DeltaIgnoresMajorAndPatch(latest: Version, c: Cluster, m1: nat, p1: nat, m2: nat, p2: nat)
    ensures Delta(latest.(major := m1, patch := p1), c.(version := c.version.(major := m2, patch := p2)))
         == Delta(latest, c)
  {
  }

  /** The delta is negative exactly when the cluster's minor release is ahead of the latest one. */
  lemma DeltaNegativeIffAhead(latest: Version, c: Cluster)
    ensures Delta(latest, c) < 0 <==> c.version.minor > latest.minor
  {
  }

  /**
   * Reading the `delta` property: a memoised lookup of the cluster's region,
   * then the minor difference; a failed lookup raises.
   */
  method ClusterDelta(cache: Cache, catalogue: Catalogue, parse: Parser, c: Cluster) returns (d: Result<int, Error>)
    modifies cache
    ensures c.region in old(cache.entries) ==> d == Ok(Delta(old(cache.entries)[c.region], c))
    ensures cache.entries ==
      if c.region in old(cache.entries) then old(cache.entries)
      else match ResolveLatest(catalogue, parse, c.region)
           case Ok(v) => old(cache.entries)[c.region := v]
           case Err(_) => old(cache.entries)
    ensures d.Ok? <==> c.region in cache.entries
    ensures forall other :: other in old(cache.entries) ==>
      other in cache.entries && cache.entries[other] == old(cache.entries)[other]
    ensures old(cache.ConsistentWith(catalogue, parse)) ==> cache.ConsistentWith(catalogue, parse)
    ensures old(cache.ConsistentWith(catalogue, parse)) ==>
      d == match ResolveLatest(catalogue, parse, c.region)
           case Ok(latest) => Ok(Delta(latest, c))
           case Err(e) => Err(e)
  {
    var latest := cache.Lookup(catalogue, parse, c.region);
    match latest
    case Ok(v) => d := Ok(Delta(v, c));
    case Err(e) => d := Err(e);
  }
}
