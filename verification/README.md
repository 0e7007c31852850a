# Verified model of the tool registry

A Dafny 4.11 model of `ai-tool-registry`, a Go service that registers versioned tools per tenant, resolves
the latest version of a tool to healthy instances, checks call input against a schema, routes the call to
one instance by weighted choice, and meters it asynchronously. `dafny verify dfyconfig.toml` checks all of it.

## How it is organised

| file | what it holds |
|---|---|
| `Sequences.dfy`, `Int64.dfy`, `Text.dfy` | filters, enumerations of sets, 64-bit wrap-around, split / join / trim / byte order |
| `Domain.dfy` | value types, the key `tenant/name/version` and its injectivity |
| `Versions.dfy`, `SemVer.dfy` | the version order, Semantic Versioning 2.0.0, text order |
| `ToolTable.dfy`, `Store.dfy` | what the key-value table of tools means, and the in-memory store |
| `InstanceLists.dfy`, `Discovery.dfy` | what the instance lists mean, and the in-memory instance table over slices |
| `Pick.dfy` | weighted choice |
| `Schema.dfy` | the schema validator |
| `Metering.dfy`, `Recorder.dfy` | the recorder's step system, and the recorder object |
| `RegistrySpec.dfy`, `Service.dfy`, `RegistryRuns.dfy` | the abstract registry, the service that refines it, guarantees over runs |
| `Answers.dfy` | what every operation answers, read off the history and the fields |
| `Flights.dfy`, `FlightRuns.dfy` | invocations in flight, interleaved step by step with other requests, and what every interleaving guarantees |
| `Codecs.dfy` | the array text of the SQL store and comma-separated query parameters |

Main results:

- A run of the service is a run of a registry keyed by (tenant, name, version) if and only if no registration on the
  way finds its key taken by another, which slash-free tenants and names rule out (`Service.RegistryService.Run`).
- In every run Resolve, Validate, List and Invoke answer from the registrations and instances that stand at that point
  of the history, in terms of the fields of what was registered (`Answers.ResolveAnswersStanding`,
  `Answers.ValidateAnswersStanding`, `Answers.ListAnswersStanding`, `Answers.InvokeAnswersStanding`).
- When invocations interleave with each other and with every other request, every call in the log was made by a flight
  that had looked its definition up as a latest one and its instance as a candidate, or by an uninterrupted Invoke
  (`FlightRuns.CallsAreJustified`), and the calls without a metric are exactly those of flights between the two
  (`FlightRuns.CallsAwaitMetrics`). A call need not be justified any more when it is made (`FlightRuns.StaleCall`):
  it is exactly when its definition is still a greatest standing registration and its instance still offered
  (`FlightRuns.JustifiedByHistory`). Without interleaving a flight is the Invoke of the abstract registry
  (`Flights.AloneIsInvoke`).
- The version order is a total preorder on all strings. It is semantic precedence exactly for versions whose
  numbers are int64s, and text order, by which the SQL store sorts, exactly where text follows the numbers at the
  first difference (`SemVer.TextOrderExactly`).
- The latest version is found for every iteration order of the map exactly when no empty version tops other
  members of its family; registered families always qualify, and direct saves can fail it (`ToolTable.SentinelHarms`).
- The recorder loses no taken event under any interleaving; Close flushes; without further records the worker ends.
- The weighted choice has an exact distribution, and follows the weights exactly when their sum is an int.
- The validator's verdicts are exactly those of some order of the properties; its acceptance has an order-free meaning,
  is the depth-one check on well-formed schemas and rejects no conforming input. A schema can make it panic exactly when
  an enum within reach lists an array or object that the type beside it admits (`Schema.Validator.PanicsExactly`). It is
  the documented recursive check exactly when nothing is nested, or nothing is accepted
  (`Schema.Validator.DocumentedExactly`).

## Modelling decisions

- A Go `int` has 64 bits and wraps. This is written out where it shows: version components, the weight total
  and the running sum of the choice, and the latency sum. The number of recorded events is unbounded.
- Iterating over a Go map is a loop that picks any remaining key. `sort.Slice` is a sort without stability, and a
  Go `select` takes any ready case.
- A string is its sequence of code points; on valid UTF-8 Go's byte order is code point order.
- `strings.EqualFold` on tags and the role normalization of the RBAC checker are parameters, so the results hold
  for every such function. So is the conversion of a float64 outside the range of int64, which Go leaves to
  the platform.
- What an invocation meets outside is part of its request: the value of the random source, a real in [0, 1), the
  answer of an endpoint called over HTTP, and the duration of the call. The results hold for all of them.
- Comparing two arrays or two objects with `==` panics in the enum check of the validator. The model has it as the
  verdict `Panicked`. Which of several failing properties is met first, and so whether a panic or a rejection comes out,
  depends on the order in which the map of properties is visited.
- Where code and comment disagree, the code is modelled: the validator's comment speaks of recursive properties, but
  the call for a nested object passes the `properties` map in place of the schema
  (application/schema/validator.go:84). In-memory `DeleteTool` never fails, so deregistering an absent tool succeeds.

## Model

| member | source | states |
|---|---|---|
| Domain.KeyInjective | domain/types.go:36-38 | keys of slash-free tenants and names determine all three parts |
| Domain.KeysOfTenantsDisjoint | infrastructure/store/store.go:33-42 | slash-free tenants alone keep the keys of two tenants apart, whatever the names |
| Domain.KeyAmbiguousWithSlash | infrastructure/store/store.go:33 | two registrations of one tenant, one with a slash in its name, share a key |
| Domain.OwnsKeyExactly | infrastructure/store/store.go:33 | no other identity has the key of a registration if and only if tenant, name and version hold no slash |
| Domain.SplitOfKey | application/registry/service.go:253-267 | the first two parts of a printed key are its tenant and name if and only if neither holds a slash |
| Versions.AtoiSafe | infrastructure/store/store.go:232-242 | the value of the leading digits, on a 64-bit int |
| Versions.ComponentReads | infrastructure/store/store.go:232-242 | a component is the number of its leading digits, whatever text follows them |
| SemVer.NumbersWrap | infrastructure/store/store.go:232-242 | numbers up to 9223372036854775807 are read as they are, and the next one as the least int |
| Versions.CompareVersion | infrastructure/store/store.go:207-230 | the sign of the lexicographic comparison of the component values, each side padded with zeros without end |
| Versions.OrderReflexive | infrastructure/store/store.go:207-230 | every version ties with itself, on all strings |
| Versions.OrderAntisymmetric | infrastructure/store/store.go:207-230 | exchanging the arguments negates the sign, so the order is total |
| Versions.OrderTransitive | infrastructure/store/store.go:207-230 | the order is transitive, and strict when one step is strict, though each pair is padded to its own length |
| Versions.OrderTieCongruent | infrastructure/store/store.go:207-230 | versions that tie compare alike with every third version |
| Versions.OrderTie | infrastructure/store/store.go:207-230 | versions tie exactly when all padded components coincide |
| SemVer.OrderIsPrecedence | infrastructure/store/store.go:206-230 | on X.Y.Z within int64 the order is precedence (section 11 of Semantic Versioning 2.0.0) and only equal versions tie |
| SemVer.OversizedIsMisranked | infrastructure/store/store.go:232-242 | a version with a number beyond int64 is not ranked above a fitting version that it should precede |
| SemVer.AgreesExactlyWhenFits | infrastructure/store/store.go:206-242 | an X.Y.Z version is ranked right against all fitting ones if and only if its own numbers fit int64 |
| SemVer.TextOrderExactly | infrastructure/store/postgres.go:144-152 | for dotted numerals within int64, text order is the version order if and only if at the first difference the longer numeral, cut to the width of the shorter, is no smaller text, or something other than zero follows where one version ends |
| SemVer.CoreIsComparable | infrastructure/store/postgres.go:144-152 | that covers any two X.Y.Z versions within int64, of which only equal ones tie |
| SemVer.TextOrderIsOrder | infrastructure/store/postgres.go:144-152 | for numerals of the same widths, leading zeros or not, the two orders always agree |
| SemVer.SameLatestExactly | infrastructure/store/postgres.go:144-152 | in a set of such versions without ties both stores pick the same latest version if and only if text follows the numbers between the latest and every other |
| SemVer.SameLatestVersion | infrastructure/store/postgres.go:144-152 | among versions of the same widths they always do |
| SemVer.TextOrderVaries | infrastructure/store/postgres.go:144-152 | with different widths either may happen: 10 is less text than 9 and greater text than 1 |
| ToolTable.GetRefines | infrastructure/store/store.go:44-49 | a lookup answers as the table keyed by identity if and only if no other registration holds the key |
| ToolTable.SaveOverwrites | infrastructure/store/store.go:37-42 | in every case a save inserts by identity and removes whoever else held the key |
| ToolTable.SaveRefines | infrastructure/store/store.go:37-42 | a save is an insert by identity alone if and only if no other registration holds the key |
| ToolTable.ClashLosesRegistration | infrastructure/store/store.go:37-42 | otherwise the save loses another registration |
| ToolTable.NoClash | infrastructure/store/store.go:33-42 | slash-free tenants and names leave no room for a clash |
| ToolTable.SaveKeepsOtherTenants | infrastructure/store/store.go:37-42 | a save changes no entry of another tenant when tenants are slash-free |
| ToolTable.DeleteRefines | infrastructure/store/store.go:70-79 | deleting a family removes exactly its identities, with or without slashes |
| ToolTable.EveryOrderFindsLatest | infrastructure/store/store.go:51-68 | for every visiting order: found if and only if a member exists, the result is a member, and it has the greatest version when the "" sentinel is harmless |
| ToolTable.SomeOrderMisses | infrastructure/store/store.go:51-68 | otherwise some visiting order returns a member that is not the latest |
| ToolTable.LatestExactlyWhenHarmless | infrastructure/store/store.go:51-68 | the latest is found for every order if and only if no empty version tops other members of the family |
| ToolTable.SentinelHarms | infrastructure/store/store.go:55-61 | such a family exists: an empty version beside the version 2^63, which only direct saves can bring about |
| ToolTable.OrdersTie | infrastructure/store/store.go:51-68 | two visiting orders can return only versions that tie, when the sentinel is harmless |
| ToolTable.OrdersGiveLatestExactly | infrastructure/store/store.go:51-68 | the definitions that some order returns are exactly the latest ones, save for an empty version that is not alone in its family, when the sentinel is harmless |
| ToolTable.SentinelHarmlessWithoutOverflow | infrastructure/store/store.go:55-61 | the sentinel is harmless when no component overflowed, since the empty version is then a minimum |
| ToolTable.CoreLatestIsUnique | infrastructure/store/store.go:51-68 | on X.Y.Z versions within int64 all orders return the same definition, which no member precedes |
| ToolTable.TruncatedIsListing | infrastructure/store/store.go:97-101 | sorting all matches by name and cutting at the limit keeps least names: no omitted match has a smaller name than a returned one |
| ToolTable.ListingNamesAgree | infrastructure/store/store.go:81-102 | any two results of one query show the same names in the same places |
| Store.InMemory.SaveTool | infrastructure/store/store.go:37-42 | the new table, with each definition under the key of its own fields |
| Store.InMemory.GetTool | infrastructure/store/store.go:44-49 | the entry of that identity if and only if no other registration holds the key; a miss is always a miss by identity |
| Store.InMemory.GetLatestTool | infrastructure/store/store.go:51-68 | the result is that of some visiting order, a member of exactly that family, found if and only if there is one, and the latest when the sentinel is harmless |
| Store.InMemory.DeleteTool | infrastructure/store/store.go:70-79 | exactly the entries of the family go |
| Store.InMemory.ListTools | infrastructure/store/store.go:81-102 | distinct matches of tenant, kind and tags, sorted by name, as many as the limit admits, none omitted before a greater name |
| Store.AnyTag | infrastructure/store/store.go:195-204 | true if and only if some tag had equals, up to case, some tag wanted |
| Store.SortByName | infrastructure/store/store.go:97 | any permutation in order of name, without stability |
| InstanceLists.RunReflects | infrastructure/discovery/discovery.go:23-58 | after any run a list holds exactly each endpoint's last registered value since its last removal, in order of first registration; updates of other ids do not matter |
| InstanceLists.ReflectsUnique | infrastructure/discovery/discovery.go:23-48 | that history leaves one possible list |
| InstanceLists.RunDistinctEndpoints | infrastructure/discovery/discovery.go:23-48 | no endpoint is listed twice |
| InstanceLists.ListedIsCurrent | infrastructure/discovery/discovery.go:23-58 | an instance is listed if and only if it is what its endpoint was last registered with since its last removal |
| Discovery.InMemory.RegisterInstance | infrastructure/discovery/discovery.go:23-34 | in place for a known endpoint, else appended; no other list changes |
| Discovery.InMemory.DeregisterInstance | infrastructure/discovery/discovery.go:37-48 | the list without the endpoint, in a new buffer; an unknown id gets an empty list |
| Discovery.InMemory.Instances | infrastructure/discovery/discovery.go:51-58 | a fresh copy of the list |
| Discovery.CopySurvivesUpdates | infrastructure/discovery/discovery.go:51-58 | a list handed out is unchanged by every run of updates that follows |
| Pick.Healthy | application/discovery/pick.go:13-21 | the healthy instances in their order |
| Pick.TotalWeight | application/discovery/pick.go:24-34 | the sum of the weights, non-positive ones counted as 1, on a 64-bit int |
| Pick.TotalSnoc | application/discovery/pick.go:24-34 | one instance more adds its weight, or 1 when that is not positive |
| Pick.Walk | application/discovery/pick.go:49-60 | stops at the first instance whose running sum reaches the target, before the fallback at the end |
| Pick.PickInstance | application/discovery/pick.go:38-61 | nothing if and only if nothing is healthy; else a healthy instance, the one whose interval holds the target when the weights do not overflow |
| Pick.ChosenIsCovering | application/discovery/pick.go:48-59 | the intervals partition the scale: an instance is chosen if and only if its interval holds the target |
| Pick.ReachesFirstIsChosen | application/discovery/pick.go:49-59 | without overflow the running sum stops at the interval of the target |
| Pick.FollowsWeightsExactly | application/discovery/pick.go:43-61 | the choice follows the weights for every rng value if and only if their sum is an int |
| Pick.ChosenMonotone | application/discovery/pick.go:47-59 | a greater rng value never chooses an earlier instance |
| Pick.EveryInstanceChosen | application/discovery/pick.go:47-59 | every healthy instance is chosen by some rng value |
| Pick.Distribution | application/discovery/pick.go:47-59 | over m * total evenly spaced rng values an instance is chosen m times its weight, or m times when that is not positive, one more for the first and one less for the last |
| Schema.Validator.CheckType | application/schema/validator.go:93-135 | the type check of every known type name; unknown names accept |
| Schema.Validator.ValidateNode | application/schema/validator.go:29-60 | the verdict is one that some order of the properties reaches, and accepts exactly by the recursive meaning, whatever the order |
| Schema.Validator.ValidateValue | application/schema/validator.go:62-91 | the same for one property value |
| Schema.Validator.NodeYieldsExactly | application/schema/validator.go:46-58 | the verdicts that may occur are exactly those of running the loops over all orders of the properties |
| Schema.Validator.MayAccept | application/schema/validator.go:29-60 | when one order accepts, every order does |
| Schema.Validator.PanicsExactly | application/schema/validator.go:68-79 | some input panics in some order if and only if an enum within reach lists an array or object that the type beside it admits |
| Schema.Validator.PanicHappens | application/schema/validator.go:68-79 | an enum of one array panics on that array, and beside a rejecting property the order decides between the two |
| Schema.Search | application/schema/validator.go:68-79 | panics exactly when a member and the value are both arrays or both objects, else tells membership |
| Schema.Validator.Validate | application/schema/validator.go:22-27 | the verdict at the entry point, where an empty schema passes and only schemas that can panic do |
| Schema.Validator.OnlyNamedKeysMatter | application/schema/validator.go:29-60 | data keys named neither in required nor in properties make no difference |
| Schema.Validator.PropertiesMapAcceptsAll | application/schema/validator.go:80-89 | the nested call, on a properties map of well-formed schemas, always succeeds |
| Schema.Validator.VerdictIsDepthOne | application/schema/validator.go:29-91 | on well-formed schemas the verdict is the check of required names and of each property's type and enum |
| Schema.Validator.VerdictOnKeywords | application/schema/validator.go:29-91 | on decoded values of well-formed schemas the verdict, on the keys themselves: the names in required are present, and the values described in properties have their type and are scalars in their enum |
| Schema.Validator.RequiredRejects | application/schema/validator.go:32-43 | an absent name in required rejects and nothing else happens, on any schema |
| Schema.Validator.NestedReadsPropertiesMap | application/schema/validator.go:80-89 | below an object property the properties map itself is taken as the schema, and no other property is descended into |
| Schema.Validator.TypeCheckIsHasType | application/schema/validator.go:93-135 | on decoded values the type check is that of JSON Schema Validation draft 2020-12, section 6.1.1, for known names |
| Schema.Validator.ConformingIsAccepted | application/schema/validator.go:22-91 | acceptance under the full recursive check of type, enum, required and properties implies acceptance |
| Schema.Validator.DocumentedIsAccepted | application/schema/validator.go:19-27 | what the documented recursion accepts is accepted |
| Schema.Validator.DocumentedExactlyWhenNothingNested | application/schema/validator.go:62-91 | a property check is the documented recursion on all values if and only if the property nests no requirement |
| Schema.Validator.DocumentedExactly | application/schema/validator.go:19-27 | validation is the documented recursion on all inputs if and only if no property nests a requirement or no input satisfies the required properties |
| Metering.RunKeepsInv | application/metering/recorder.go:60-102 | every run of atomic steps keeps order, capacity, sink lag and counters |
| Metering.Conservation | application/metering/recorder.go:60-102 | in every reachable state the offers are what is aggregated, in hand, queued and dropped; the queue fits; the sink log is a prefix at most one behind |
| Metering.OffersPartition | application/metering/recorder.go:60-65 | every offer is taken or dropped, never both |
| Metering.DropExactlyWhenFull | application/metering/recorder.go:60-65 | an event is dropped if and only if capacity many wait behind the worker |
| Metering.TakesUpToBuffer | application/metering/recorder.go:40-65 | a new recorder that no worker serves takes as many events as its buffer, 1024 when that is not positive, and drops all others |
| Metering.CloseFlushes | application/metering/recorder.go:67-90 | when the worker has exited, all taken before Close is aggregated and sunk in order, and at most capacity later events remain |
| Metering.CloseFlushesRun | application/metering/recorder.go:131-135 | over any run after Close that ends with the worker done, what had been taken is a prefix of the aggregated and of the sunk log |
| Metering.WorkerTerminates | application/metering/recorder.go:67-90 | without records the worker's runs are bounded by a measure, and one that cannot go on after Close is done |
| Metering.TotalsCountLog | application/metering/recorder.go:92-102 | the counters of a tool count its aggregated events and outcomes |
| Metering.LatencySum | application/metering/recorder.go:92-102 | the latency sum is the wrapped sum of the tool's latencies |
| Metering.RowCountsEvents | application/metering/recorder.go:105-129 | in every reachable state a row has calls = success + failures = the tool's aggregated events |
| Metering.RowAverage | application/metering/recorder.go:113-127 | the average is the rounded-down mean if and only if the sum fits int64, for up to 2^63 events, and is then between least and greatest latency |
| Metering.SnapshotUnique | application/metering/recorder.go:105-129 | the aggregates leave one possible snapshot, whatever the order in which the map is read |
| Metering.CountsNeverDecrease | application/metering/recorder.go:92-102 | over every run no count decreases |
| Recorder.AsyncRecorder.Record | application/metering/recorder.go:60-65 | one non-blocking step that enqueues or drops |
| Recorder.AsyncRecorder.Count | application/metering/recorder.go:92-102 | the four counter maps after one event |
| Recorder.AsyncRecorder.Work | application/metering/recorder.go:67-90 | each turn of the worker is one enabled step, whichever ready case the select takes |
| Recorder.AsyncRecorder.CloseAndWait | application/metering/recorder.go:131-135 | whatever is recorded while Close waits, it returns with everything taken before aggregated and sunk in order, and with the queue empty when nothing came in between |
| Recorder.AsyncRecorder.Snapshot | application/metering/recorder.go:105-129 | one row per counted tool in strictly increasing order of name |
| Recorder.SortedKeys | application/metering/recorder.go:108-112 | the keys in strictly increasing byte order |
| RegistrySpec.Selector | infrastructure/mcp/transport.go:73-91 | an adapter for exactly the allowed transports, the calling one only for http |
| Service.Contains | application/registry/service.go:244-251 | true if and only if the value is listed |
| Service.PassesChecks | application/registry/service.go:103-121 | true if and only if name, version and tenant are given and kind, transport and auth type are allowed |
| Service.SplitKey | application/registry/service.go:253-267 | fails if and only if there is no slash; else the first two parts of the split at slashes |
| Service.RegistryService.Register | application/registry/service.go:102-130 | the key and the new table, in which the definition took its key, or a refusal; as the abstract registry if and only if no other registration held the key |
| Service.RegistryService.Deregister | application/registry/service.go:133-142 | removes the family of the key; malformed keys are refused; an absent family is no error |
| Service.RegistryService.Allow | application/rbac/checker.go:19-29 | admin, an empty role list, or a listed role |
| Service.RegistryService.ResolveInstances | application/registry/service.go:159-171 | the healthy registered instances, else the endpoint, else none |
| Service.RegistryService.Resolve | application/registry/service.go:145-157 | not found, forbidden, or a latest definition with its candidates; nothing changes |
| Service.RegistryService.Validate | application/registry/service.go:179-191 | not found, or the outcome of a verdict that some order reaches for a latest definition; nothing changes |
| Service.RegistryService.List | application/registry/service.go:174-176 | a listing of the tenant's matching tools; nothing changes |
| Service.RegistryService.Invoke | application/registry/service.go:196-223 | every outcome when nothing runs in between: refused without a call, or one call to a picked candidate with one metric; the branch without a transport is unreachable |
| Service.RegistryService.Advance | application/registry/service.go:196-223 | each piece of an invocation is a step of a flight: lookup, choice, call or metric |
| Service.RegistryService.Meter | application/registry/service.go:232-242 | exactly one metric is offered |
| Service.RegistryService.Run | application/registry/service.go:102-223 | every finite run, interleaved with worker steps, is one in which registrations take their keys; it is a run of the registry keyed by identity if and only if no registration on the way collides, as with slash-free ones |
| Service.RegistryService.Serve | application/registry/service.go:102-223 | under every schedule of pieces of invocations and whole requests the service goes through an interleaving of flights |
| RegistrySpec.Setup.RunExactly | application/registry/service.go:102-130 | a run of the service is one of the registry keyed by identity if and only if no registration on the way finds its key taken |
| RegistrySpec.Setup.DistinctKeysRun | application/registry/service.go:102-130 | so it is when the identities registered before and during the run have different keys |
| Service.Bootstrap | cmd/main.go:51-98 | the wired service starts as the empty registry |
| RegistryRuns.ToolsAreStanding | application/registry/service.go:102-142 | at every point of every run the tools are exactly the registrations neither deregistered since nor deprived of their key |
| RegistryRuns.StandingIsLast | application/registry/service.go:102-142 | where the keys of the identities registered differ, these are the last registrations not deregistered since |
| RegistryRuns.InstancesAreUpdates | application/registry/service.go:159-167 | at every point of a run the instances are those of the updates so far |
| Answers.ResolveAnswersStanding | application/registry/service.go:145-171 | in every run Resolve answers not found if and only if nothing stands, else with a standing registration of the greatest version: forbidden unless its roles are empty or hold the role, or the role is admin, and otherwise with its instances; no other reply |
| Answers.CandidatesServe | application/registry/service.go:159-171 | these are exactly the healthy current instances by arrival when discovery is on and there are any, else the endpoint of the tool with weight 1, if it has one |
| Answers.ValidateAnswersStanding | application/registry/service.go:179-191 | in every run Validate answers not found if and only if nothing stands, else by a possible verdict for a standing registration of the greatest version: success for accepted or with checks switched off, invalid for rejected |
| Answers.ValidateTellsInput | application/registry/service.go:179-191 | each verdict has its own outcome, and a panic needs a schema that can panic |
| Answers.InvokeAnswersStanding | application/registry/service.go:196-223 | in every run Invoke of a standing registration of the greatest version is refused by role, by input or for lack of instances, or makes one call, on the instance that weights and random value choose, and one metric, and reports the answer that only an http tool has |
| Answers.RegisterStores | application/registry/service.go:102-130 | a definition with name, version, tenant and known kind, transport and auth type is stored under tenant/name/version as given, with auth type none for a missing one; only another holder of the key is lost; all others are refused |
| Answers.DeregisterAnswers | application/registry/service.go:133-142 | a text without a slash is refused and changes nothing; any other succeeds |
| Answers.ListAnswersStanding | application/registry/service.go:174-176 | in every run a listing shows, once and by name, standing registrations of the tenant, of the kind asked for and with one of the tags asked for; one is left out only when the limit is reached, and then its name is not less than any shown |
| Answers.DeregisterEmptiesFamily | application/registry/service.go:133-142 | deregistering empties exactly the family that the first two parts of the key name; the key of a registration empties its own family if and only if tenant and name are slash-free |
| RegistryRuns.InvokeCallsJustified | application/registry/service.go:196-223 | one justified and metered call on the instance drawn, or no change and an error: not found with no such tool, else a latest definition refuses the role, rejects the input or has no candidate |
| RegistryRuns.OneMetricPerCall | application/registry/service.go:214-218 | over every run calls and metrics grow in step, at most one each per operation |
| RegistryRuns.MetricTellsCall | application/registry/service.go:214-218 | the k-th new call and the k-th new metric come from one Invoke, whose tenant, name, input and outcome they carry, and the call was justified |
| Flights.AloneIsInvoke | application/registry/service.go:196-223 | the steps of a flight with nothing in between have exactly the outcomes of Invoke |
| FlightRuns.CallsAwaitMetrics | application/registry/service.go:214-218 | in every interleaving the calls exceed the metrics by the number of flights between call and metric |
| FlightRuns.CallsAreJustified | application/registry/service.go:196-216 | in every interleaving each entry of the call log is the call of a flight that had looked its definition up as a latest one, permitted, and later its instance as a candidate for valid input, or a justified call of an uninterrupted Invoke |
| FlightRuns.MetricsAreOfCalls | application/registry/service.go:214-218 | each entry of the metric log is that of an answered flight, with its tenant, name and outcome, or of an uninterrupted Invoke |
| FlightRuns.CallBehind | application/registry/service.go:196-216 | a flight that has been answered made its call as the entry of one of its own steps, and was grounded then |
| FlightRuns.SuccessBehind | application/registry/service.go:214-222 | a success has such a call behind it and then a metric, with tenant, name and success, both of its own steps |
| FlightRuns.OwnEntries | application/registry/service.go:214-218 | different steps have different entries in the logs, so each flight has its call and its metric to itself |
| FlightRuns.FailureBehind | application/registry/service.go:196-221 | a failure has the step behind it that explains it: no such tool or no permission at the lookup, invalid input or no candidate at the choice, or else a call, metered as a failure |
| FlightRuns.JustifiedExactly | application/registry/service.go:196-216 | when a flight is about to call, the call is justified if and only if its definition is still a latest one and its instance still offered; role, input and health cannot go stale |
| FlightRuns.JustifiedByHistory | application/registry/service.go:196-216 | from the empty registry that is so if and only if the definition is a greatest standing registration and the instance is what its endpoint was last registered with, or the endpoint of the tool |
| FlightRuns.UndisturbedIsJustified | application/registry/service.go:196-216 | so it is when no registration or deregistration came after the lookup and no instance update after the choice |
| FlightRuns.StaleCall | application/registry/service.go:196-216 | one interleaving from the empty registry, for every setup: the call is justified before a deregistration and not when it is made |
| FlightRuns.CallOutlivesDeregistration | application/registry/service.go:196-216 | from every state in which a flight is about to call, a deregistration of its family does not stop the call |
| FlightRuns.AnswersAmidFlights | application/registry/service.go:145-191 | in every interleaving Resolve and Validate answer from the operations before them, whatever flights there are |
| Codecs.DecodeInvertsEncodeExactly | infrastructure/store/postgres.go:85-92 | decoding the array text inverts encoding if and only if no element holds a comma, no brace is at either end, and the list is not that of one empty string |
| Codecs.UnquotedListsRoundTrip | infrastructure/store/postgres.go:122-132 | lists whose elements need no quoting (section 8.15.6 of the PostgreSQL documentation) round-trip |
| Codecs.SplitCSV | interfaces/http/handler.go:355-368 | the non-empty trimmed parts in order |
| Codecs.QueryListHoldsParts | interfaces/http/handler.go:355-368 | each part between commas that is not blank gives one element, in order, without the blanks at its ends |
| Text.SpacesByNumber | interfaces/http/handler.go:355-368 | the characters that trimming removes are the twenty-five white space code points |
| Codecs.QueryListOfJoin | interfaces/http/handler.go:355-368 | a list is read back from its own join if and only if its elements are non-empty, trimmed and comma-free |
| Codecs.QueryListIdempotent | interfaces/http/handler.go:355-368 | splitting, joining and splitting again changes nothing |

## Left out

- Versions.AtoiSafe: an int of 32 bits, on platforms where Go's int is that small.
- SemVer.TextOrderExactly: text order is that of code points; a database collation that orders digits and dots otherwise is not part of this model.
- Codecs.UnquotedListsRoundTrip: the database's own parsing and printing of the array between the two ends is taken to be the identity on such elements.
- Metering.TotalsCountLog: int64 overflow of the call counters, after 2^63 events.
- Service.RegistryService.Resolve: instance updates between its read of the store and its read of the instances; as an operation of its own it is one step, as part of a flight it is two.
- Pick.PickInstance: float64 rounding of the target and of the running sum.
- Service.RegistryService.Allow: Unicode lower-casing and trimming of the role, a parameter here.
- Collaborators left nil (schema, metering, discovery): the wiring of cmd/main.go always sets them.
- HTTP routing, JSON bodies and authentication: plumbing over libraries.
- SQL execution, migrations and the SQL store's own tag filter, which asks for all tags where the in-memory store asks for any: foreign calls.
- The Redis cache: constructed but never used.
- Skills, rules and specs: the same map pattern as tools with less logic.
- Error message texts: only codes and verdicts matter.
- NaN and infinities in JSON values: the decoder does not produce them.
