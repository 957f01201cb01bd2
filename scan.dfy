/**
 * One scheduled evaluation: clear the memo, build the clusters from the
 * inventory, log a summary, then log one classification per cluster.
 * Log output is a sequence of entries; message text is not modelled.
 */
module Scan {
  import opened Wrappers
  import opened Errors
  import opened Versions
  import opened Resolver
  import opened LatestCache
  import opened Clusters

  datatype Level = Debug | Info | Warning

  datatype Status = UpToDate | AboutToRunOutOfDate | OutOfDate

  /** The level and message kind chosen for one cluster. */
  datatype Verdict = Verdict(level: Level, status: Status)

  datatype LogEntry =
    /** "Found N clusters". */
    | FoundClusters(count: nat)
    /** The representation of the whole cluster list. */
    | ClusterListing(clusters: seq<Cluster>)
    /** One cluster's classification. */
    | ClusterStatus(verdict: Verdict, id: string)
  {
    function Severity(): Level
    {
      match this
      case ClusterStatus(v, _) => v.level
      case _ => Info
    }
  }

  /** The entries one evaluation logs, and the error that ended it early, if any. */
  datatype ScanResult = ScanResult(entries: seq<LogEntry>, failure: Option<Error>)

  /**
   * The branches as written: `delta > 2` is tested first, so the `delta > 3`
   * branch that would log a warning is never taken.
   */
  function Classify(delta: int): (v: Verdict)
    ensures v.level != Warning && v.status != OutOfDate
    ensures v.level == Info <==> delta > 2
    ensures v.status == AboutToRunOutOfDate <==> delta > 2
    ensures v.level == Debug <==> v.status == UpToDate
  {
    if delta > 2 then Verdict(Info, AboutToRunOutOfDate)
    else if delta > 3 then Verdict(Warning, OutOfDate)
    else Verdict(Debug, UpToDate)
  }

  /** The branches in the evidently intended order: the wider gap is tested first. */
  function ClassifyIntended(delta: int): (v: Verdict)
    ensures v.status == OutOfDate <==> delta > 3
    ensures v.status == AboutToRunOutOfDate <==> delta == 3
    ensures v.status == UpToDate <==> delta <= 2
    ensures v.level == Warning <==> v.status == OutOfDate
    ensures v.level == Info <==> v.status == AboutToRunOutOfDate
  {
    if delta > 3 then Verdict(Warning, OutOfDate)
    else if delta > 2 then Verdict(Info, AboutToRunOutOfDate)
    else Verdict(Debug, UpToDate)
  }

  /** The two orders disagree exactly on the clusters more than three minor releases behind. */
  lemma ClassifyDiffersOnlyPastThree(delta: int)
    ensures Classify(delta) != ClassifyIntended(delta) <==> delta > 3
  {
  }

  /** A cluster four minor releases behind is logged as "about to run out of date" at info level. */
  lemma FourBehindIsNotWarned()
    ensures Classify(4) == Verdict(Info, AboutToRunOutOfDate)
    ensures ClassifyIntended(4) == Verdict(Warning, OutOfDate)
  {
  }

  /**
   * The per-cluster pass of the loop: each cluster's delta against the
   * latest version of its region, classified; the first region that cannot
   * be resolved raises and ends the pass.
   */
  function ScanLog(clusters: seq<Cluster>, catalogue: Catalogue, parse: Parser,
                   classify: int -> Verdict): (r: ScanResult)
    ensures |r.entries| <= |clusters|
    ensures r.failure.None? <==> |r.entries| == |clusters|
  {
    if clusters == [] then ScanResult([], None)
    else
      match ResolveLatest(catalogue, parse, clusters[0].region)
      case Err(e) => ScanResult([], Some(e))
      case Ok(latest) =>
        var rest := ScanLog(clusters[1..], catalogue, parse, classify);
        ScanResult([ClusterStatus(classify(Delta(latest, clusters[0])), clusters[0].id)] + rest.entries,
                   rest.failure)
  }

  /** Cluster `i` is logged with its own id and the verdict on its delta. */
  ghost predicate LoggedAt(entries: seq<LogEntry>, clusters: seq<Cluster>, catalogue: Catalogue,
                           parse: Parser, classify: int -> Verdict, i: int)
    requires 0 <= i < |entries| && i < |clusters|
  {
    var latest := ResolveLatest(catalogue, parse, clusters[i].region);
    latest.Ok? && entries[i] == ClusterStatus(classify(Delta(latest.value, clusters[i])), clusters[i].id)
  }

  /**
   * One entry per cluster in order, each the classification of that cluster's
   * delta, up to the first cluster whose region does not resolve.
   */
  lemma {:induction false} ScanLogShape(clusters: seq<Cluster>, catalogue: Catalogue, parse: Parser,
                                        classify: int -> Verdict)
    ensures |ScanLog(clusters, catalogue, parse, classify).entries| <= |clusters|
    ensures ScanLog(clusters, catalogue, parse, classify).failure.None? <==>
      |ScanLog(clusters, catalogue, parse, classify).entries| == |clusters|
    ensures ScanLog(clusters, catalogue, parse, classify).failure.None? <==>
      forall i :: 0 <= i < |clusters| ==> ResolveLatest(catalogue, parse, clusters[i].region).Ok?
    ensures forall i :: 0 <= i < |ScanLog(clusters, catalogue, parse, classify).entries| ==>
      LoggedAt(ScanLog(clusters, catalogue, parse, classify).entries, clusters, catalogue, parse, classify, i)
    ensures ScanLog(clusters, catalogue, parse, classify).failure.Some? ==>
      var n := |ScanLog(clusters, catalogue, parse, classify).entries|;
      n < |clusters| &&
      ResolveLatest(catalogue, parse, clusters[n].region) == Err(ScanLog(clusters, catalogue, parse, classify).failure.value)
  {
    if clusters != [] {
      var tail := clusters[1..];
      ScanLogShape(tail, catalogue, parse, classify);
      assert forall i :: 1 <= i < |clusters| ==> clusters[i] == tail[i - 1];
      var s := ScanLog(clusters, catalogue, parse, classify);
      var latest := ResolveLatest(catalogue, parse, clusters[0].region);
      if latest.Ok? {
        var rest := ScanLog(tail, catalogue, parse, classify);
        forall i | 0 <= i < |s.entries|
          ensures LoggedAt(s.entries, clusters, catalogue, parse, classify, i)
        {
          if i > 0 {
            assert s.entries[i] == rest.entries[i - 1];
            assert LoggedAt(rest.entries, tail, catalogue, parse, classify, i - 1);
          }
        }
      }
    }
  }

  /** The pass from cluster `i` on, unrolled once. */
  lemma ScanLogStep(clusters: seq<Cluster>, i: nat, catalogue: Catalogue, parse: Parser, classify: int -> Verdict)
    requires i < |clusters|
    ensures var rest := ScanLog(clusters[i + 1..], catalogue, parse, classify);
      ScanLog(clusters[i..], catalogue, parse, classify) ==
        match ResolveLatest(catalogue, parse, clusters[i].region)
        case Err(e) => ScanResult([], Some(e))
        case Ok(latest) =>
          ScanResult([ClusterStatus(classify(Delta(latest, clusters[i])), clusters[i].id)] + rest.entries,
                     rest.failure)
  {
    assert clusters[i..][0] == clusters[i];
    assert clusters[i..][1..] == clusters[i + 1..];
  }

  /** What one evaluation logs for an inventory, and how it ends. */
  function TickLog(inventory: seq<RawRecord>, catalogue: Catalogue, parse: Parser,
                   classify: int -> Verdict): (r: ScanResult)
    ensures r.entries == [] <==> BuildClusters(inventory, parse).Err?
    ensures r.entries == [] ==> r.failure.Some?
    ensures r.entries != [] ==> |r.entries| >= 2 && r.entries[0] == FoundClusters(|inventory|)
    ensures |r.entries| <= |inventory| + 2
  {
    match BuildClusters(inventory, parse)
    case Err(e) => ScanResult([], Some(e))
    case Ok(clusters) =>
      var scan := ScanLog(clusters, catalogue, parse, classify);
      ScanResult([FoundClusters(|clusters|), ClusterListing(clusters)] + scan.entries, scan.failure)
  }

  /** The regions of a list of clusters. */
  ghost function Regions(clusters: seq<Cluster>): set<Region>
  {
    set c | c in clusters :: c.region
  }

  lemma RegionsExtend(clusters: seq<Cluster>, i: nat)
    requires i < |clusters|
    ensures Regions(clusters[..i + 1]) == Regions(clusters[..i]) + {clusters[i].region}
  {
    assert clusters[..i + 1] == clusters[..i] + [clusters[i]];
  }

  /** The loop's account of the pass so far, after one more cluster whose region resolves. */
  lemma ScanLogAdvances(clusters: seq<Cluster>, i: nat, emitted: seq<LogEntry>, catalogue: Catalogue,
                        parse: Parser, classify: int -> Verdict)
    requires i < |clusters|
    requires ResolveLatest(catalogue, parse, clusters[i].region).Ok?
    requires ScanLog(clusters, catalogue, parse, classify)
          == ScanResult(emitted + ScanLog(clusters[i..], catalogue, parse, classify).entries,
                        ScanLog(clusters[i..], catalogue, parse, classify).failure)
    ensures var latest := ResolveLatest(catalogue, parse, clusters[i].region).value;
      var entry := ClusterStatus(classify(Delta(latest, clusters[i])), clusters[i].id);
      ScanLog(clusters, catalogue, parse, classify)
        == ScanResult((emitted + [entry]) + ScanLog(clusters[i + 1..], catalogue, parse, classify).entries,
                      ScanLog(clusters[i + 1..], catalogue, parse, classify).failure)
  {
    ScanLogStep(clusters, i, catalogue, parse, classify);
    var latest := ResolveLatest(catalogue, parse, clusters[i].region).value;
    var entry := ClusterStatus(classify(Delta(latest, clusters[i])), clusters[i].id);
    assert (emitted + [entry]) + ScanLog(clusters[i + 1..], catalogue, parse, classify).entries
        == emitted + ([entry] + ScanLog(clusters[i + 1..], catalogue, parse, classify).entries);
  }

  /** The loop's account of the pass so far, when the next cluster's region does not resolve. */
  lemma ScanLogStops(clusters: seq<Cluster>, i: nat, emitted: seq<LogEntry>, catalogue: Catalogue,
                     parse: Parser, classify: int -> Verdict)
    requires i < |clusters|
    requires ResolveLatest(catalogue, parse, clusters[i].region).Err?
    requires ScanLog(clusters, catalogue, parse, classify)
          == ScanResult(emitted + ScanLog(clusters[i..], catalogue, parse, classify).entries,
                        ScanLog(clusters[i..], catalogue, parse, classify).failure)
    ensures ScanLog(clusters, catalogue, parse, classify)
         == ScanResult(emitted, Some(ResolveLatest(catalogue, parse, clusters[i].region).error))
  {
    ScanLogStep(clusters, i, catalogue, parse, classify);
    assert emitted + [] == emitted;
  }

  /** The `for cluster in clusters` loop: logs entry by entry through the memoised resolver. */
  method LogClusters(cache: Cache, catalogue: Catalogue, parse: Parser, clusters: seq<Cluster>,
                     classify: int -> Verdict)
    returns (emitted: seq<LogEntry>, failure: Option<Error>)
    requires cache.ConsistentWith(catalogue, parse)
    modifies cache
    ensures ScanResult(emitted, failure) == ScanLog(clusters, catalogue, parse, classify)
    ensures cache.ConsistentWith(catalogue, parse)
    ensures |emitted| <= |clusters|
    ensures cache.entries.Keys == old(cache.entries).Keys + Regions(clusters[..|emitted|])
    ensures forall region :: region in old(cache.entries) ==>
      region in cache.entries && cache.entries[region] == old(cache.entries)[region]
  {
    emitted, failure := [], None;
    assert clusters[0..] == clusters;
    assert Regions(clusters[..0]) == {};
    for i := 0 to |clusters|
      invariant cache.ConsistentWith(catalogue, parse)
      invariant |emitted| == i
      invariant cache.entries.Keys == old(cache.entries).Keys + Regions(clusters[..i])
      invariant forall region :: region in old(cache.entries) ==>
        region in cache.entries && cache.entries[region] == old(cache.entries)[region]
      invariant ScanLog(clusters, catalogue, parse, classify)
             == ScanResult(emitted + ScanLog(clusters[i..], catalogue, parse, classify).entries,
                           ScanLog(clusters[i..], catalogue, parse, classify).failure)
    {
      var d := ClusterDelta(cache, catalogue, parse, clusters[i]);
      if d.Err? {
        ScanLogStops(clusters, i, emitted, catalogue, parse, classify);
        return emitted, Some(d.error);
      }
      var entry := ClusterStatus(classify(d.value), clusters[i].id);
      ScanLogAdvances(clusters, i, emitted, catalogue, parse, classify);
      RegionsExtend(clusters, i);
      emitted := emitted + [entry];
    }
    assert clusters[|clusters|..] == [];
  }

  /** `main`: clear the memo, build the clusters, log the summary, then classify each cluster. */
  method RunTick(cache: Cache, catalogue: Catalogue, parse: Parser, inventory: seq<RawRecord>,
                 classify: int -> Verdict)
    returns (log: seq<LogEntry>, failure: Option<Error>)
    modifies cache
    ensures ScanResult(log, failure) == TickLog(inventory, catalogue, parse, classify)
    ensures cache.ConsistentWith(catalogue, parse)
    ensures BuildClusters(inventory, parse).Err? ==> cache.entries == map[]
    ensures BuildClusters(inventory, parse).Ok? ==>
      cache.entries.Keys == Regions(BuildClusters(inventory, parse).value[..|log| - 2])
  {
    cache.Clear();
    var built := BuildClusters(inventory, parse);
    if built.Err? {
      return [], Some(built.error);
    }
    var clusters := built.value;
    log := [FoundClusters(|clusters|), ClusterListing(clusters)];
    var emitted;
    emitted, failure := LogClusters(cache, catalogue, parse, clusters, classify);
    log := log + emitted;
    assert |log| - 2 == |emitted|;
  }

  /** No evaluation, whatever its inputs, ever logs at warning level. */
  lemma TickNeverWarns(inventory: seq<RawRecord>, catalogue: Catalogue, parse: Parser)
    ensures forall e :: e in TickLog(inventory, catalogue, parse, Classify).entries ==> e.Severity() != Warning
  {
    var built := BuildClusters(inventory, parse);
    if built.Ok? {
      var clusters := built.value;
      var entries := ScanLog(clusters, catalogue, parse, Classify).entries;
      ScanLogShape(clusters, catalogue, parse, Classify);
      forall e | e in entries ensures e.Severity() != Warning {
        var i :| 0 <= i < |entries| && entries[i] == e;
        assert LoggedAt(entries, clusters, catalogue, parse, Classify, i);
      }
    }
  }

  /** With the branches in the intended order, exactly the clusters more than three minor releases behind are warned about. */
  lemma TickIntendedWarnsPastThree(inventory: seq<RawRecord>, catalogue: Catalogue, parse: Parser)
    requires BuildClusters(inventory, parse).Ok?
    ensures var clusters := BuildClusters(inventory, parse).value;
      var entries := ScanLog(clusters, catalogue, parse, ClassifyIntended).entries;
      forall i :: 0 <= i < |entries| && i < |clusters| ==>
        && ResolveLatest(catalogue, parse, clusters[i].region).Ok?
        && (entries[i].Severity() == Warning <==>
              Delta(ResolveLatest(catalogue, parse, clusters[i].region).value, clusters[i]) > 3)
  {
    var clusters := BuildClusters(inventory, parse).value;
    var entries := ScanLog(clusters, catalogue, parse, ClassifyIntended).entries;
    ScanLogShape(clusters, catalogue, parse, ClassifyIntended);
    forall i | 0 <= i < |entries| && i < |clusters|
      ensures ResolveLatest(catalogue, parse, clusters[i].region).Ok?
      ensures entries[i].Severity() == Warning <==>
              Delta(ResolveLatest(catalogue, parse, clusters[i].region).value, clusters[i]) > 3
    {
      assert LoggedAt(entries, clusters, catalogue, parse, ClassifyIntended, i);
    }
  }

  /**
   * A malformed version string in the inventory aborts the evaluation before
   * anything is logged, summary included.
   */
  lemma TickAbortsOnMalformedVersion(inventory: seq<RawRecord>, catalogue: Catalogue, parse: Parser,
                                     classify: int -> Verdict, k: nat)
    requires k < |inventory| && "version" in inventory[k] && parse(inventory[k]["version"]).None?
    ensures TickLog(inventory, catalogue, parse, classify).entries == []
    ensures TickLog(inventory, catalogue, parse, classify).failure.Some?
  {
    BuildClustersSucceedsIff(inventory, parse);
  }

  /**
   * The summary counts the inventory, and a completed evaluation logs one
   * entry per inventory record, in inventory order, carrying that record's id.
   */
  lemma TickSummaryAndOneEntryPerCluster(inventory: seq<RawRecord>, catalogue: Catalogue, parse: Parser,
                                         classify: int -> Verdict)
    requires BuildClusters(inventory, parse).Ok?
    ensures var log := TickLog(inventory, catalogue, parse, classify);
      && |log.entries| >= 2
      && log.entries[0] == FoundClusters(|inventory|)
      && (log.failure.None? ==>
            && |log.entries| == |inventory| + 2
            && forall i :: 0 <= i < |inventory| ==>
                 log.entries[i + 2].ClusterStatus? && log.entries[i + 2].id == inventory[i]["id"])
  {
    var clusters := BuildClusters(inventory, parse).value;
    var scan := ScanLog(clusters, catalogue, parse, classify);
    var log := TickLog(inventory, catalogue, parse, classify);
    assert log.entries == [FoundClusters(|clusters|), ClusterListing(clusters)] + scan.entries;
    ScanLogShape(clusters, catalogue, parse, classify);
    forall i | 0 <= i < |scan.entries|
      ensures log.entries[i + 2] == scan.entries[i]
      ensures scan.entries[i].ClusterStatus? && scan.entries[i].id == inventory[i]["id"]
    {
      assert LoggedAt(scan.entries, clusters, catalogue, parse, classify, i);
      assert FromRecord(inventory[i], parse) == Ok(clusters[i]);
    }
  }

  /** A parser that knows four version strings, for the scenario below. */
  function ScenarioParse(text: string): Option<Version>
  {
    if text == "1.20.0" then Some(Version(1, 20, 0))
    else if text == "1.25.1" then Some(Version(1, 25, 1))
    else if text == "1.23.0" then Some(Version(1, 23, 0))
    else if text == "1.25.5" then Some(Version(1, 25, 5))
    else None
  }

  /** Region A offers 1.23.0 and a 1.24 preview; region B offers 1.25.5 and 1.25.1. */
  function ScenarioCatalogue(): Catalogue
  {
    map["regionA" := [Orchestrator("1.23.0", false), Orchestrator("1.24.0-rc", true)],
        "regionB" := [Orchestrator("1.25.5", false), Orchestrator("1.25.1", false)]]
  }

  function ScenarioInventory(): seq<RawRecord>
  {
    [map["id" := "a", "location" := "regionA", "version" := "1.20.0"],
     map["id" := "b", "location" := "regionB", "version" := "1.25.1"]]
  }

  lemma ScenarioParses()
    ensures ScenarioParse("1.20.0") == Some(Version(1, 20, 0))
    ensures ScenarioParse("1.25.1") == Some(Version(1, 25, 1))
    ensures ScenarioParse("1.23.0") == Some(Version(1, 23, 0))
    ensures ScenarioParse("1.25.5") == Some(Version(1, 25, 5))
  {
    assert "1.25.1"[3] != "1.20.0"[3];
    assert "1.23.0"[3] != "1.20.0"[3] && "1.23.0"[3] != "1.25.1"[3];
    assert "1.25.5"[3] != "1.20.0"[3] && "1.25.5"[5] != "1.25.1"[5] && "1.25.5"[3] != "1.23.0"[3];
  }

  lemma ScenarioClustersBuilt()
    ensures BuildClusters(ScenarioInventory(), ScenarioParse)
         == Ok([Cluster("a", "regionA", Version(1, 20, 0)), Cluster("b", "regionB", Version(1, 25, 1))])
  {
    ScenarioParses();
    var inventory := ScenarioInventory();
    var a := Cluster("a", "regionA", Version(1, 20, 0));
    var b := Cluster("b", "regionB", Version(1, 25, 1));
    assert FromRecord(inventory[0], ScenarioParse) == Ok(a);
    assert FromRecord(inventory[1], ScenarioParse) == Ok(b);
    var rest := inventory[1..];
    assert rest[0] == inventory[1] && rest[1..] == [];
    assert BuildClusters(rest[1..], ScenarioParse) == Ok([]);
    assert [b] + [] == [b];
    assert BuildClusters(rest, ScenarioParse) == Ok([b]);
    assert [a] + [b] == [a, b];
  }

  lemma ScenarioRegionsResolve()
    ensures ResolveLatest(ScenarioCatalogue(), ScenarioParse, "regionA") == Ok(Version(1, 23, 0))
    ensures ResolveLatest(ScenarioCatalogue(), ScenarioParse, "regionB") == Ok(Version(1, 25, 5))
  {
    ScenarioParses();
    var entriesA := ScenarioCatalogue()["regionA"];
    assert entriesA[1..][1..] == [];
    assert StableVersions(entriesA[1..][1..], ScenarioParse) == Ok([]);
    assert StableVersions(entriesA[1..], ScenarioParse) == Ok([]);
    assert [Version(1, 23, 0)] + [] == [Version(1, 23, 0)];
    assert StableVersions(entriesA, ScenarioParse) == Ok([Version(1, 23, 0)]);
    var entriesB := ScenarioCatalogue()["regionB"];
    assert entriesB[1..][1..] == [];
    assert StableVersions(entriesB[1..][1..], ScenarioParse) == Ok([]);
    assert entriesB[1..][0] == Orchestrator("1.25.1", false);
    assert [Version(1, 25, 1)] + [] == [Version(1, 25, 1)];
    assert StableVersions(entriesB[1..], ScenarioParse) == Ok([Version(1, 25, 1)]);
    assert [Version(1, 25, 5)] + [Version(1, 25, 1)] == [Version(1, 25, 5), Version(1, 25, 1)];
    assert StableVersions(entriesB, ScenarioParse) == Ok([Version(1, 25, 5), Version(1, 25, 1)]);
    assert [Version(1, 25, 5), Version(1, 25, 1)][..1] == [Version(1, 25, 5)];
  }

  /**
   * Two clusters: one three minor releases behind the latest release of its
   * region, one on the latest minor release of its region. As written, the
   * first is logged "about to run out of date" at info level and the second
   * "up to date" at debug level, after the summary of two clusters.
   */
  lemma TwoClusterScenario()
    ensures TickLog(ScenarioInventory(), ScenarioCatalogue(), ScenarioParse, Classify)
         == ScanResult([FoundClusters(2),
                        ClusterListing([Cluster("a", "regionA", Version(1, 20, 0)),
                                        Cluster("b", "regionB", Version(1, 25, 1))]),
                        ClusterStatus(Verdict(Info, AboutToRunOutOfDate), "a"),
                        ClusterStatus(Verdict(Debug, UpToDate), "b")], None)
  {
    ScenarioClustersBuilt();
    ScenarioScan();
  }

  lemma ScenarioScan()
    ensures var a := Cluster("a", "regionA", Version(1, 20, 0));
      var b := Cluster("b", "regionB", Version(1, 25, 1));
      ScanLog([a, b], ScenarioCatalogue(), ScenarioParse, Classify)
        == ScanResult([ClusterStatus(Verdict(Info, AboutToRunOutOfDate), "a"),
                       ClusterStatus(Verdict(Debug, UpToDate), "b")], None)
  {
    ScenarioRegionsResolve();
    ScenarioScanSecond();
    var a := Cluster("a", "regionA", Version(1, 20, 0));
    var b := Cluster("b", "regionB", Version(1, 25, 1));
    assert Delta(Version(1, 23, 0), a) == 3;
    assert [a, b][1..] == [b];
  }

  lemma ScenarioScanSecond()
    ensures ScanLog([Cluster("b", "regionB", Version(1, 25, 1))], ScenarioCatalogue(), ScenarioParse, Classify)
         == ScanResult([ClusterStatus(Verdict(Debug, UpToDate), "b")], None)
  {
    ScenarioRegionsResolve();
    var b := Cluster("b", "regionB", Version(1, 25, 1));
    assert Delta(Version(1, 25, 5), b) == 0;
    assert [b][1..] == [];
  }
}
