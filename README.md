# Staleness evaluator of the AKS update notifier, in Dafny

The notifier is a scheduled function. On each tick it lists the managed Kubernetes
clusters of a subscription and compares each cluster's minor Kubernetes version with
the latest non-preview version offered in the cluster's region. It then logs, per
cluster, whether the cluster is up to date or about to run out of date.

This project models that evaluator:

- `versions.dfy` (`Versions`): versions as parsed `(major, minor, patch)` triples and
  their precedence. `MaxOf` is Python's `max` over a non-empty list. The semantic-version
  parser is a parameter `parse: string -> Option<Version>` that may fail.
- `resolver.dfy` (`Resolver`): `latest_version`. The orchestrator catalogue is an input
  map from region to listing; a region missing from the map stands for a listing call
  that raises. `StableVersions` is the list comprehension that skips previews and parses
  the rest. `Latest` takes their maximum.
- `latest_cache.dfy` (`LatestCache`): the `functools.cache` memo as a class `Cache`.
  It has a map field `entries`, a `Lookup` method that fills a missing region and stores
  only results that did not raise, and a `Clear` method.
- `clusters.dfy` (`Clusters`): the `Cluster` record, its construction from a raw
  inventory record, its id-only equality `Equals`, and its `delta`.
- `scan.dfy` (`Scan`): the classification of a delta and the per-cluster loop
  (`LogClusters`). `RunTick` is `main`: it clears the memo, builds the clusters, logs the
  summary, then runs the loop. `TickLog` is the functional specification of one tick.

Log output is a sequence of `LogEntry` values: a "found N clusters" summary, the cluster
list, and one `(level, status, id)` entry per cluster. Errors are values of `Errors.Error`
and end the tick. Entries logged before the error stay logged.

The loop is parameterised by its classifier. `Classify` is the rule as written and
`ClassifyIntended` the corrected rule (see "## Findings"). The loop lemmas hold for any
classifier. `TickNeverWarns` applies them to the rule as written, and
`TickIntendedWarnsPastThree` applies them to the corrected rule.

The code (ScanClusters/main.py:78-83) logs a delta above 2 as "about to run out of
date" at info level and everything else as "up to date" at debug level. It never logs
a warning.

## Model

| member | source | states |
|---|---|---|
| `Versions.Below` | ScanClusters/main.py:36 | the strict precedence `max` compares by: a differing major decides, and a version is never below itself |
| `Versions.AtMost` | ScanClusters/main.py:36 | `a` is at most `b` exactly when `b` is not below `a` |
| `Versions.AtMostIsTotalOrder` | ScanClusters/main.py:36 | version precedence (major, then minor, then patch) is reflexive, total, antisymmetric and transitive, so `max` is well defined |
| `Versions.Max` | ScanClusters/main.py:36 | the larger of two versions bounds both and is one of them |
| `Versions.MaxOf` | ScanClusters/main.py:36 | `max` of a non-empty list is an element of the list and no element is above it |
| `Versions.MaxOfIsTheUpperBoundInList` | ScanClusters/main.py:36 | any upper bound that belongs to the list is the value `max` returns |
| `Resolver.NonPreview` | ScanClusters/main.py:33-34 | the filtered listing holds exactly the entries not flagged `is_preview` |
| `Resolver.StableVersions` | ScanClusters/main.py:31-35 | the comprehension succeeds exactly when every non-preview entry parses, and then yields one version per non-preview entry |
| `Resolver.StableVersionsMembers` | ScanClusters/main.py:31-35 | the parsed list holds exactly the parsed versions of the non-preview entries |
| `Resolver.StableVersionsFirstFailure` | ScanClusters/main.py:31-35 | a failed comprehension reports the version string of the first non-preview entry that does not parse; preview entries are never parsed |
| `Resolver.Latest` | ScanClusters/main.py:31-36 | the resolver fails only with a malformed version or with `max` of an empty list |
| `Resolver.LatestIsGreatestStable` | ScanClusters/main.py:31-36 | the resolver returns `v` if and only if every non-preview entry parses, none is above `v`, and `v` is one of them |
| `Resolver.NonPreviewConcat` | ScanClusters/main.py:33-34 | filtering out previews distributes over concatenation of listings |
| `Resolver.NonPreviewOfPreviews` | ScanClusters/main.py:34 | a listing of previews only filters to nothing |
| `Resolver.StableVersionsOfNonPreview` | ScanClusters/main.py:31-35 | the comprehension gives the same result on the listing and on its non-preview entries alone |
| `Resolver.LatestDependsOnlyOnNonPreview` | ScanClusters/main.py:34 | two listings with the same non-preview entries resolve to the same result |
| `Resolver.LatestIgnoresAddedPreviews` | ScanClusters/main.py:34 | inserting preview entries anywhere in a listing leaves the result unchanged |
| `Resolver.NoStableVersionExactlyWhenAllPreview` | ScanClusters/main.py:36 | the resolver raises the empty-`max` error exactly when the region has no non-preview entry |
| `Resolver.ResolveLatest` | ScanClusters/main.py:18-36 | a region the catalogue lacks raises the listing error, and only then; a success is the greatest non-preview version of the region |
| `LatestCache.Cache.constructor` | ScanClusters/main.py:17 | the memo starts empty |
| `LatestCache.Cache.Clear` | ScanClusters/main.py:65 | after `cache_clear` the map is empty and hence agrees with any catalogue |
| `LatestCache.Cache.Lookup` | ScanClusters/main.py:17-18 | a cached region answers its stored version and changes nothing; an uncached one is resolved and stored only on success; other regions' entries are kept; with an unchanged catalogue the answer is the resolver's |
| `LatestCache.LookupTwice` | ScanClusters/main.py:17 | between two clears, a second lookup of a region that resolved returns the same version |
| `Clusters.FromRecord` | ScanClusters/main.py:45-48 | construction succeeds exactly when the keys `id`, `location`, `version` are present and the version parses, and takes id, region and version from those keys |
| `Clusters.FromRecordRoundTrip` | ScanClusters/main.py:45-48 | a record written from a cluster's fields rebuilds that cluster |
| `Clusters.BuildClusters` | ScanClusters/main.py:74 | the list has one cluster per record in order, each the record's construction; a failure is the error of the first record that fails |
| `Clusters.BuildClustersSucceedsIff` | ScanClusters/main.py:74 | the list is built exactly when every record constructs |
| `Clusters.Equals` | ScanClusters/main.py:56-57 | two clusters are equal exactly when they agree on everything but region and version, i.e. on the id; identical clusters are equal |
| `Clusters.EqualsIsEquivalence` | ScanClusters/main.py:56-57 | id equality is reflexive, symmetric and transitive |
| `Clusters.EqualsIgnoresRegionAndVersion` | ScanClusters/main.py:56-57 | changing region and version keeps a cluster equal to itself |
| `Clusters.EqualsIsNotIdentity` | ScanClusters/main.py:56-57 | some two clusters are equal by id yet structurally different |
| `Clusters.Delta` | ScanClusters/main.py:61 | the delta is zero exactly when both minors agree, negative exactly when the cluster is ahead, and never above the latest minor |
| `Clusters.DeltaIgnoresMajorAndPatch` | ScanClusters/main.py:59-61 | the delta depends only on the two minor components |
| `Clusters.DeltaNegativeIffAhead` | ScanClusters/main.py:59-61 | the delta is an integer that is negative exactly when the cluster's minor is ahead of the latest |
| `Clusters.ClusterDelta` | ScanClusters/main.py:59-61 | reading `delta` through the memo gives latest minor minus own minor, or the resolver's error; the memo afterwards is the old one plus the region when it was missing and resolved, and holds the region exactly when the read succeeded; it stays consistent |
| `Scan.Classify` | ScanClusters/main.py:77-83 | as written: info "about to run out of date" exactly when delta > 2, debug "up to date" otherwise, never a warning |
| `Scan.ClassifyIntended` | ScanClusters/main.py:77-83 | corrected order: warning "out of date" exactly when delta > 3, info "about to" exactly when delta is 3, debug otherwise |
| `Scan.ClassifyDiffersOnlyPastThree` | ScanClusters/main.py:78-81 | the two orders disagree exactly when delta > 3 |
| `Scan.FourBehindIsNotWarned` | ScanClusters/main.py:78-81 | a delta of 4 is logged at info as "about to run out of date" rather than warned about |
| `Scan.ScanLog` | ScanClusters/main.py:77-83 | the pass logs at most one entry per cluster, and one for every cluster exactly when nothing raised |
| `Scan.ScanLogShape` | ScanClusters/main.py:77-83 | one entry per cluster in order, each with the cluster's id and the verdict on its delta, up to the first cluster whose region fails, which is the reported error |
| `Scan.TickLog` | ScanClusters/main.py:64-83 | a tick logs nothing, and fails, exactly when the cluster list cannot be built; otherwise it starts with the summary counting the inventory; at most two entries beyond one per record |
| `Scan.LogClusters` | ScanClusters/main.py:77-83 | the loop emits exactly the entries `ScanLog` specifies and ends with its error; the memo afterwards holds its old entries unchanged plus exactly the regions of the clusters logged |
| `Scan.RunTick` | ScanClusters/main.py:64-83 | one tick logs exactly what `TickLog` specifies; the memo afterwards is empty if the clusters could not be built and otherwise holds exactly the regions of the clusters logged, each consistent with the catalogue |
| `Scan.TickNeverWarns` | ScanClusters/main.py:77-83 | no tick ever logs at warning level |
| `Scan.TickIntendedWarnsPastThree` | ScanClusters/main.py:78-81 | under the corrected order a cluster's entry is a warning exactly when its delta exceeds 3 |
| `Scan.TickAbortsOnMalformedVersion` | ScanClusters/main.py:74 | a record whose version does not parse aborts the tick before any entry, summary included |
| `Scan.TickSummaryAndOneEntryPerCluster` | ScanClusters/main.py:74-75 | the summary counts the inventory, and a completed tick logs one entry per record, in order, with that record's id |
| `Scan.TwoClusterScenario` | ScanClusters/main.py:64-83 | a cluster three minors behind is logged "about to run out of date" at info level, and one on the latest minor "up to date" at debug level |

## Left out

- TimerTrigger/__init__.py is not part of this model. It lists subscriptions and calls the Azure CLI, and has no logic of its own.
- Credentials, the subscription lookup (`next(sub_list)`), the orchestrator listing call and the Resource Graph query are external calls. The catalogue and the inventory are inputs. A failure of the listing call is a region missing from the catalogue. Failures of the other calls are not modelled.
- The `semver` parser is a parameter that may fail. Pre-release and build-metadata precedence is not modelled: versions are `(major, minor, patch)` triples.
- Log handler setup and message text (`AzureLogHandler`, `__repr__`, `__str__`) are not modelled. An entry records its level, its kind and the cluster id, and the listing entry records the clusters.
- The default region `"westeurope"` is not modelled, because every lookup on the main path passes the cluster's own region.
- The three-argument `__init__` is not modelled. The one-argument definition replaces it, so it cannot be called.
- The source reads `delta` up to three times per cluster (the two tests and `__str__`). The model reads it once. The later reads hit the memo and return the same value (`LatestCache.Cache.Lookup`).
- `__eq__` against an object without an `id` attribute raises in Python. The model compares only clusters.
- A catalogue that changes within one tick is not modelled. The memo's agreement with the resolver is stated for a catalogue that is fixed between two clears.
- `Scan.LogClusters` requires the memo to agree with the catalogue. `RunTick` establishes that by clearing the memo before the loop.

## Findings

| source | as written | input that shows it | evidently intended | confidence | as-written member | corrected member |
|---|---|---|---|---|---|---|
| ScanClusters/main.py:78-81 | `if delta > 2` is tested before `elif delta > 3`, so the warning branch is dead | a cluster on minor 20 where the region's latest is minor 24 (delta 4) is logged at info as "about to run out of date" and never as "out of date" | test `delta > 3` first (warning, "out of date"), then `delta > 2` (info, "about to run out of date") | high; not executed | `Scan.TickNeverWarns` | `Scan.TickIntendedWarnsPastThree` |
