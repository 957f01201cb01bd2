/**
 * The latest-version resolver: the non-preview orchestrator releases a region
 * offers, parsed, and the greatest of them. The catalogue of orchestrator
 * listings is an input (one listing per region it knows).
 */
module Resolver {
  import opened Wrappers
  import opened Errors
  import opened Versions

  /** One entry of a region's orchestrator listing. */
  datatype Orchestrator = Orchestrator(orchestratorVersion: string, isPreview: bool)

  /** What the orchestrator listing call answers, per region; a region it lacks makes the call raise. */
  type Catalogue = map<Region, seq<Orchestrator>>

  /** The entries that are not previews, in listing order. */
  function NonPreview(entries: seq<Orchestrator>): (r: seq<Orchestrator>)
    ensures forall e :: e in r <==> e in entries && !e.isPreview
    ensures |r| <= |entries|
  {
    if entries == [] then []
    else if entries[0].isPreview then NonPreview(entries[1..])
    else [entries[0]] + NonPreview(entries[1..])
  }

  /** Every non-preview entry's version parses. */
  ghost predicate ParsesAll(entries: seq<Orchestrator>, parse: Parser)
  {
    forall e :: e in entries && !e.isPreview ==> parse(e.orchestratorVersion).Some?
  }

  /** Entry `i` is the first non-preview entry whose version does not parse. */
  ghost predicate FirstMalformedAt(entries: seq<Orchestrator>, parse: Parser, i: int)
  {
    && 0 <= i < |entries|
    && !entries[i].isPreview
    && parse(entries[i].orchestratorVersion).None?
    && forall j :: 0 <= j < i && !entries[j].isPreview ==> parse(entries[j].orchestratorVersion).Some?
  }

  /**
   * The list comprehension over the listing: every non-preview entry's version,
   * parsed in listing order; the first one that does not parse raises. Preview
   * entries are skipped before their version is parsed.
   */
  function StableVersions(entries: seq<Orchestrator>, parse: Parser): (r: Result<seq<Version>, Error>)
    ensures r.Ok? <==> ParsesAll(entries, parse)
    ensures r.Ok? ==> |r.value| == |NonPreview(entries)|
    ensures r.Err? ==> r.error.MalformedVersion?
  {
    if entries == [] then Ok([])
    else
      var e := entries[0];
      assert forall x :: x in entries <==> x == e || x in entries[1..];
      if e.isPreview then StableVersions(entries[1..], parse)
      else
        match parse(e.orchestratorVersion)
        case None => Err(MalformedVersion(e.orchestratorVersion))
        case Some(v) =>
          match StableVersions(entries[1..], parse)
          case Err(err) => Err(err)
          case Ok(vs) => Ok([v] + vs)
  }

  /** The parsed list holds exactly the versions of the non-preview entries. */
  lemma {:induction false} StableVersionsMembers(entries: seq<Orchestrator>, parse: Parser, v: Version)
    requires StableVersions(entries, parse).Ok?
    ensures v in StableVersions(entries, parse).value <==>
      exists e :: e in entries && !e.isPreview && parse(e.orchestratorVersion) == Some(v)
  {
    if entries != [] {
      StableVersionsMembers(entries[1..], parse, v);
      assert forall x :: x in entries <==> x == entries[0] || x in entries[1..];
    }
  }

  /** A failing parse reports the version string of the first malformed non-preview entry. */
  lemma {:induction false} StableVersionsFirstFailure(entries: seq<Orchestrator>, parse: Parser)
    requires StableVersions(entries, parse).Err?
    ensures exists i :: (FirstMalformedAt(entries, parse, i)
                         && StableVersions(entries, parse).error == MalformedVersion(entries[i].orchestratorVersion))
  {
    var e := entries[0];
    if e.isPreview || parse(e.orchestratorVersion).Some? {
      StableVersionsFirstFailure(entries[1..], parse);
      var k :| FirstMalformedAt(entries[1..], parse, k)
        && StableVersions(entries[1..], parse).error == MalformedVersion(entries[1..][k].orchestratorVersion);
      assert FirstMalformedAt(entries, parse, k + 1);
    } else {
      assert FirstMalformedAt(entries, parse, 0);
    }
  }

  /** `max(versions)`: fails on an empty list, as Python's `max` raises. */
  function Latest(entries: seq<Orchestrator>, parse: Parser): (r: Result<Version, Error>)
    ensures r.Err? ==> r.error == NoStableVersion || r.error.MalformedVersion?
  {
    match StableVersions(entries, parse)
    case Err(e) => Err(e)
    case Ok(vs) => if |vs| == 0 then Err(NoStableVersion) else Ok(MaxOf(vs))
  }

  /**
   * Reference definition of the latest release: every non-preview entry parses,
   * none is above `v`, and `v` is one of them.
   */
  ghost predicate IsLatest(entries: seq<Orchestrator>, parse: Parser, v: Version)
  {
    && (forall e :: e in entries && !e.isPreview ==>
          parse(e.orchestratorVersion).Some? && AtMost(parse(e.orchestratorVersion).value, v))
    && (exists e :: e in entries && !e.isPreview && parse(e.orchestratorVersion) == Some(v))
  }

  lemma LatestIsGreatestStable(entries: seq<Orchestrator>, parse: Parser, v: Version)
    ensures Latest(entries, parse) == Ok(v) <==> IsLatest(entries, parse, v)
  {
    var stable := StableVersions(entries, parse);
    if Latest(entries, parse) == Ok(v) {
      StableVersionsMembers(entries, parse, v);
      forall e | e in entries && !e.isPreview
        ensures parse(e.orchestratorVersion).Some? && AtMost(parse(e.orchestratorVersion).value, v)
      {
        StableVersionsMembers(entries, parse, parse(e.orchestratorVersion).value);
      }
    }
    if IsLatest(entries, parse, v) {
      StableVersionsMembers(entries, parse, v);
      forall w | w in stable.value ensures AtMost(w, v) {
        StableVersionsMembers(entries, parse, w);
      }
      MaxOfIsTheUpperBoundInList(stable.value, v);
    }
  }

  lemma {:induction false} NonPreviewConcat(a: seq<Orchestrator>, b: seq<Orchestrator>)
    ensures NonPreview(a + b) == NonPreview(a) + NonPreview(b)
  {
    if a == [] {
      assert a + b == b;
    } else {
      assert (a + b)[0] == a[0];
      assert (a + b)[1..] == a[1..] + b;
      NonPreviewConcat(a[1..], b);
      if !a[0].isPreview {
        assert [a[0]] + (NonPreview(a[1..]) + NonPreview(b)) == ([a[0]] + NonPreview(a[1..])) + NonPreview(b);
      }
    }
  }

  lemma {:induction false} StableVersionsOfNonPreview(entries: seq<Orchestrator>, parse: Parser)
    ensures StableVersions(NonPreview(entries), parse) == StableVersions(entries, parse)
  {
    if entries != [] {
      StableVersionsOfNonPreview(entries[1..], parse);
      if !entries[0].isPreview {
        assert ([entries[0]] + NonPreview(entries[1..]))[1..] == NonPreview(entries[1..]);
      }
    }
  }

  lemma {:induction false} NonPreviewOfPreviews(previews: seq<Orchestrator>)
    requires forall p :: p in previews ==> p.isPreview
    ensures NonPreview(previews) == []
  {
    if previews != [] {
      NonPreviewOfPreviews(previews[1..]);
    }
  }

  /** Preview entries never affect the result: only the non-preview entries matter. */
  lemma LatestDependsOnlyOnNonPreview(a: seq<Orchestrator>, b: seq<Orchestrator>, parse: Parser)
    requires NonPreview(a) == NonPreview(b)
    ensures Latest(a, parse) == Latest(b, parse)
  {
    StableVersionsOfNonPreview(a, parse);
    StableVersionsOfNonPreview(b, parse);
  }

  /** Adding preview entries anywhere in a listing leaves the latest version unchanged. */
  lemma LatestIgnoresAddedPreviews(front: seq<Orchestrator>, previews: seq<Orchestrator>,
                                   back: seq<Orchestrator>, parse: Parser)
    requires forall p :: p in previews ==> p.isPreview
    ensures Latest(front + previews + back, parse) == Latest(front + back, parse)
  {
    NonPreviewOfPreviews(previews);
    NonPreviewConcat(front + previews, back);
    NonPreviewConcat(front, previews);
    NonPreviewConcat(front, back);
    assert NonPreview(front + previews) == NonPreview(front);
    LatestDependsOnlyOnNonPreview(front + previews + back, front + back, parse);
  }

  /** The resolver fails with `max` of an empty list exactly when every entry is a preview. */
  lemma NoStableVersionExactlyWhenAllPreview(entries: seq<Orchestrator>, parse: Parser)
    ensures Latest(entries, parse) == Err(NoStableVersion) <==> NonPreview(entries) == []
  {
    var stable := StableVersions(entries, parse);
    if NonPreview(entries) == [] {
      assert stable.Ok?;
    }
  }

  /** `latest_version(region)`: ask the catalogue for the region's listing, then take the latest. */
  function ResolveLatest(catalogue: Catalogue, parse: Parser, region: Region): (r: Result<Version, Error>)
    ensures r == Err(UnknownRegion(region)) <==> region !in catalogue
    ensures r.Ok? ==> region in catalogue && IsLatest(catalogue[region], parse, r.value)
  {
    if region in catalogue then
      var r := Latest(catalogue[region], parse);
      assert r.Ok? ==> IsLatest(catalogue[region], parse, r.value) by {
        if r.Ok? { LatestIsGreatestStable(catalogue[region], parse, r.value); }
      }
      r
    else Err(UnknownRegion(region))
  }
}
