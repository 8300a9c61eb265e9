# The ingress-nginx reconciler, verified

A Dafny model of the hard part of the vendored ingress-nginx controller: the code that turns Kubernetes Ingress
objects into an nginx configuration and keeps a running nginx in step with it. `dafny verify dfyconfig.toml` checks
everything. Where the program works in place, by loops or on objects, so does the model; each such method is tied to
a specification function, and the promises are lemmas about those functions.

| files | component |
|---|---|
| `Basics`, `Buffers`, `Strings` | options, lists without repetition, parts of lists, paths, 64-bit words; the byte buffer; strings in order |
| `CleanConf`, `CleanConfProperties`, `Indentation` | the byte machine that normalises the rendered configuration text, and how its output looks byte by byte |
| `Locations`, `LocationRouting` | the compiler from Prefix and Exact paths to nginx locations, and which backend a request reaches |
| `Matching`, `MatchingProperties` | the greedy order-insensitive comparison of lists |
| `ConfigEquality`, `ConfigEqualityProperties`, `CanonicalForm` | structural equality of configurations, and exactly what it sees |
| `ReloadDecision`, `ReloadExact` | the decision whether nginx must reload, and exactly which changes make it |
| `Redirects`, `Certificates`, `CertificateProperties`, `CertificateNames` | the redirects to and from "www." names, the certificates that are posted, and the Lua code that presents one in a handshake |
| `SyncLoop`, `SyncConvergence`, `SyncRuns` | one synchronisation attempt with its failures, what attempts guarantee together, and runs from any start or with a target that moves |
| `WorkQueue`, `WorkQueueProperties`, `SkippedElements` | the timestamped work queue and its worker, as steps; that no update is lost, and which elements are skipped |
| `ServerBuilder`, `FirstClaim`, `IngressOrder`, `UpstreamNames` | upstreams, servers and locations; precedence among Ingresses, also told by positions in the input; which services have an upstream of their own |
| `CanaryMerge`, `CanaryMergeProperties`, `CanaryTargets`, `CanaryMergeFailures` | merging canary upstreams into the upstreams they shadow, where they arrive, and when the merge dereferences nil |
| `DanglingCanary`, `SharedCanaryName` | Ingresses for which the merge does harm |
| `BackendServers`, `BuiltRouting`, `Configurations` | the builder as a whole, routing from end to end, aliases and TLS passthrough |
| `Sorting`, `Ordering` | stable sorting, the sorts of the program, the status update |
| `RefMap`, `IngressStore`, `IngressStoreProperties` | the map from Secrets to Ingresses, and the event handlers of the local store |
| `HashSize`, `Decimal`, `DictSize` | hash bucket sizes, and printing and reading dictionary sizes |

## What the proofs brought to light

The code is modelled as it is. Where it does less than its documentation suggests, a lemma gives the input, and
another says exactly when the promise holds.

- A rewrite target equal to the path as written counts as no rewrite before the path is normalised and as one
  afterwards, so the server is rendered with regular expressions (`RewriteToItselfTurnsRegex`, `RegexAfterCompile`).
- Configuration.Equal does not look at stream snippets, Location.Equal not at the path type, the Ingress and the custom
  default backend, TrafficShapingPolicy.Equal not at the total weight, CookieSessionAffinity.Equal not at the paths and
  the behaviour on failure, SSLCert.Equal not at the Secret and the file name, and no comparison of a Service at its
  spec; a change only there never reaches nginx (`UnseenChanges`). Exactly what is seen is `EqualIffSameCanon`.
- The alias and passthrough tests look one way; they are symmetric on what the builder produces
  (`AliasTestExact`, `PassthroughSymmetric`, and for the builder's side `GetConfiguration`).
- If the target moves between failing attempts, a later success can leave stale backends in nginx
  (`MovingTargetDiverges`); when exactly it does not is `SuccessServesIff` for one attempt and `MovingTargetServesIff`
  for a whole run.
- No post deletes a name that is no longer configured. So the certificate of a deleted wildcard Ingress is still
  presented by a host that has none of its own (`StaleWildcardIsPresented`); which clients are safe from that is
  `IndependentIffDecided`.
- The catch-all server has two locations that no Ingress asked for, for health checks and for the status page, and they
  are plain prefixes: a request for "/healthzfoo" stays with the health check (`ShadowedGoesNowhere`,
  `RequestReachesFirstClaimant`).
- A clock set back, or a shutdown during a failing sync, loses a queued update (`ClockSetBackLoses`,
  `ShutDownLoses`).
- A comment in createServers has an Ingress with a default backend and no rules take the catch-all server. The code
  lets every later Ingress with a default backend, with or without rules, replace the backend again
  (`CatchAllExact`).
- A canary rule without an HTTP section is dereferenced (modelled as the answer false of `MergeRules`), and a canary
  upstream can be deleted although an earlier path has listed it (`DanglingAlternative`; exactly when is `DanglesIff`).
- A canary that shares its default backend with another Ingress can delete an upstream that a location still has, and
  the merge then dereferences nil (`SharedNameFails`; exactly when is `BuiltMergeFailsIff`).
- Different services can have one upstream name, because a dash can belong to the namespace or to the service
  (`DashesShareNames`); otherwise names tell services and ports apart (`PortsToldApart`, `NumbersToldApart`).
- With IgnoreIngressClass set, updates skip the class check while deletions keep it (`IgnoringClassKeepsForeign`).
- nextPowerOf2 makes five steps, enough for 32 bits only; which 64-bit sizes it rounds is `RoundUpExact`.
- Accepted dictionary sizes can overflow, to negative numbers and to small sizes (`ReadingOverflows`,
  `HugeReadAsSmall`, `ReadingClamps`); exactly which are read as they are meant is `ReadsWhatIsMeant`.
- The early break of the location search lets a server get the same path and type twice, which nginx refuses; exactly
  when is `BuiltAcceptedIff`.

## How to read the model

- What cannot be seen from the code is a parameter: readings of the clock, how a reload or a post ends (it took
  effect; it had no effect and failed; it took effect and reported failure), the verdicts of the inspector and of the
  annotation blocklist, the checksum of a configuration.
- Go maps are walked in an arbitrary order. Sorting is a stable sort by its contract, which determines the result.
- Text is a sequence of characters, ordered and counted as bytes; the cleaner works on bytes.
- Results that fix what a value means do so without the functions that compute it: bytes, letters and paths are written
  out there (`CleanIndents`, `NoReloadIff`, `CanaryListedIff`, `FirstPathWins`, `StoredExactlyWanted`).
- An Ingress, a location and a server are declared once for each component, with the fields that its code reads and
  writes. What the comparison of configurations does not look at, and a later stage reads, is
  nevertheless a field of its types.
- What nginx serves is what it was last loaded with and last told. A certificate is presented from its dictionaries,
  which also remember earlier posts; `Presented` follows the handshake, from the client's name over its wildcard to the
  default certificate.

## Model

| member | source | states |
|---|---|---|
| `Buffers.Buffer.ReadByte` | test-components/ingress-nginx/internal/ingress/controller/template/template.go:107-113 | takes the first unread byte; the end of the input is the only other outcome, so the cleaner's other error returns cannot happen |
| `Buffers.Buffer.WriteByte` | test-components/ingress-nginx/internal/ingress/controller/template/template.go:167-170 | appends one byte and never fails |
| `CleanConf.CleanConf` | test-components/ingress-nginx/internal/ingress/controller/template/template.go:101-176 | reads all input and appends exactly the line-by-line layout of it (`Layout`), which knows nothing of depth counters or flags |
| `CleanConf.Feed` | test-components/ingress-nginx/internal/ingress/controller/template/template.go:115-174 | one round of the loop: the bytes written and the four state variables afterwards, for every state and byte |
| `CleanConf.WriteIndent` | test-components/ingress-nginx/internal/ingress/controller/template/template.go:158-165 | as many tabs as the depth, none when the depth is negative |
| `CleanConf.RunIsLayout` | test-components/ingress-nginx/internal/ingress/controller/template/template.go:101-176 | the byte machine refines the reference: for every byte string its output is the rendering of the stripped, blank-collapsed lines |
| `CleanConf.StepTracks` | test-components/ingress-nginx/internal/ingress/controller/template/template.go:119-174 | the simulation step: the state always equals what the lines read so far determine (brace balance outside comments, line begun, inside a comment, last line blank) |
| `CleanConf.SuppressedStep` | test-components/ingress-nginx/internal/ingress/controller/template/template.go:131-133 | bytes that are dropped leave the whole state unchanged |
| `CleanConfProperties.CleanKeepsSkeleton` | test-components/ingress-nginx/internal/ingress/controller/template/template.go:97-176 | the stripped lines, with runs of blank lines collapsed, are the same before and after |
| `CleanConfProperties.CleanKeepsContent` | test-components/ingress-nginx/internal/ingress/controller/template/template.go:97-176 | the non-blank lines without CR and leading blanks are the same sequence before and after |
| `CleanConfProperties.CleanIdempotent` | test-components/ingress-nginx/internal/ingress/controller/template/template.go:97-176 | cleaning twice is cleaning once, for every byte string, unbalanced braces and comments included |
| `CleanConfProperties.CleanForgetsOnlyLayout` | test-components/ingress-nginx/internal/ingress/controller/template/template.go:97-176 | two texts clean to the same bytes if and only if their stripped, collapsed lines agree |
| `CleanConfProperties.CleanIsNormal` | test-components/ingress-nginx/internal/ingress/controller/template/template.go:97-176 | the output has no CR, no two blank lines in a row, and every line stands at the brace depth, a leading closing brace counted |
| `CleanConfProperties.CleanFixesExactlyNormal` | test-components/ingress-nginx/internal/ingress/controller/template/template.go:97-176 | the texts cleaning leaves alone are exactly those in normal form |
| `Indentation.TabsExact` | test-components/ingress-nginx/internal/ingress/controller/template/template.go:158-165 | an indentation is one byte 9 for every level, and nothing for no level or less |
| `Indentation.LinesExact` | test-components/ingress-nginx/internal/ingress/controller/template/template.go:115-151 | the lines are what stands between the bytes 10 of a text |
| `Indentation.CleanIndents` | test-components/ingress-nginx/internal/ingress/controller/template/template.go:97-176 | for every byte string: every line of the output, except an empty one that nothing ends, is exactly one byte 9 for every brace open before it (counted as bytes 123 and 125 before the first 35 of each line), one less for a leading 125, and then what the line says; there is no byte 13 |
| `Indentation.CollapseExact` | test-components/ingress-nginx/internal/ingress/controller/template/template.go:115-174 | of every run of blank lines the first is kept, and every other line |
| `Indentation.CleanKeepsLines` | test-components/ingress-nginx/internal/ingress/controller/template/template.go:97-176 | the lines that are kept are the same sequence before and after |
| `Indentation.CleanKeepsInk` | test-components/ingress-nginx/internal/ingress/controller/template/template.go:97-176 | no byte but tabs, line feeds, carriage returns and spaces is dropped, added or moved |
| `Locations.Normalize` | test-components/ingress-nginx/internal/ingress/controller/location.go:90-100 | the path itself or the path with one "/" appended; a path that is not empty ends in "/" |
| `Locations.UpdateLocation` | test-components/ingress-nginx/internal/ingress/controller/location.go:45-85 | updates one location object in place; it stays first in the result and anything beside it is a new object |
| `Locations.IndexExact` | test-components/ingress-nginx/internal/ingress/controller/location.go:38-43 | the index holds exactly the paths of the Exact locations |
| `Locations.UpdateServerLocations` | test-components/ingress-nginx/internal/ingress/controller/location.go:34-88 | the values of the result are the compilation of the values before; every original object is in the result and every other one is new |
| `LocationRouting.RoutingPreserved` | test-components/ingress-nginx/internal/ingress/controller/location.go:34-100 | for every server rendered without regular expressions, request path and backend: nginx (exact first, then longest string prefix) sends the compiled server's request to the backend if and only if the Ingress rules do |
| `LocationRouting.RulesToNginx` | test-components/ingress-nginx/internal/ingress/controller/location.go:34-100 | on such servers nginx's choice stands for the rules' choice, even when rules clash: it has the rule's backend, and is an exact location for an Exact rule or a request that is the rule's path, otherwise the normalised prefix |
| `LocationRouting.NginxToRules` | test-components/ingress-nginx/internal/ingress/controller/location.go:34-100 | on such servers nginx's choice stands for the rules' choice when no two rules clash |
| `LocationRouting.PrefixKeepsToSegments` | test-components/ingress-nginx/internal/ingress/controller/location.go:66-84 | a Prefix rule for /foo sends nothing of /foobar to its backend |
| `LocationRouting.NginxChoiceUnique` | test-components/ingress-nginx/internal/ingress/controller/template/template.go:524-541 | in a server without duplicate locations at most one location answers a request |
| `LocationRouting.AcceptedIffNoClash` | test-components/ingress-nginx/internal/ingress/controller/location.go:34-88 | on such servers the compiled form has no duplicate nginx location if and only if no two rules share an exact path or a normalised prefix |
| `LocationRouting.RegexAfterCompile` | test-components/ingress-nginx/internal/ingress/controller/template/template.go:498-520 | exactly when a compiled server is rendered with regular expressions: a location uses one, or rewrites to anything but its path as compiled |
| `LocationRouting.PlainIsRenderedPlain` | test-components/ingress-nginx/internal/ingress/controller/template/template.go:505-541 | the hypothesis of the routing results, which looks at the rules only, holds exactly of the servers that are rendered without regular expressions after compiling |
| `LocationRouting.RewriteToItselfTurnsRegex` | test-components/ingress-nginx/internal/ingress/controller/location.go:102-108 | a counterexample: nothing in the server is rewritten as written, and compiling turns it into one that is rendered with regular expressions |
| `LocationRouting.RootKept` | test-components/ingress-nginx/internal/ingress/controller/location.go:46-50 | a location for "/" comes out unchanged |
| `LocationRouting.CompiledStemsFrom` | test-components/ingress-nginx/internal/ingress/controller/location.go:34-100 | for any server, regular expressions included: every compiled location stems from a rule and differs at most in a final "/" or in being the exact copy of a Prefix path that no Exact rule has; it remembers the path as given |
| `LocationRouting.RegexKeptAsWritten` | test-components/ingress-nginx/internal/ingress/controller/location.go:52-64 | locations matched as regular expressions come out exactly as they went in, without normalising and without an exact copy |
| `Matching.Compare` | test-components/ingress-nginx/pkg/util/sets/match.go:26-74 | equals the greedy specification, in which every element in turn removes the first equal one; nil equals only nil, and what is no slice equals nothing |
| `Matching.StringElementsMatch` | test-components/ingress-nginx/pkg/util/sets/match.go:91-93 | the same for strings under equality |
| `MatchingProperties.CompareExact` | test-components/ingress-nginx/pkg/util/sets/match.go:26-74 | for every equivalence relation: true if and only if a bijection pairs the elements, and if and only if every class has equal counts |
| `MatchingProperties.MatchesIsEquivalence` | test-components/ingress-nginx/pkg/util/sets/match.go:26-74 | the comparison is itself reflexive, symmetric and transitive, and nil equals only nil |
| `MatchingProperties.MatchesIgnoresOrder` | test-components/ingress-nginx/pkg/util/sets/match.go:26-74 | the order of neither list matters |
| `MatchingProperties.MatchesCoarser` | test-components/ingress-nginx/pkg/util/sets/match.go:52-74 | a match for a finer relation gives a match of the images for a coarser one |
| `MatchingProperties.GreedyNeedsEquivalence` | test-components/ingress-nginx/pkg/util/sets/match.go:54-71 | without an equivalence relation the greedy search can miss a pairing that exists |
| `ConfigEquality.CompareServers` | test-components/ingress-nginx/pkg/apis/ingress/types_equals.go:268-336 | equals the comparison in which every alias of the first server occurs in the second, with equal counts, and locations agree position by position |
| `ConfigEquality.ComparePassthroughs` | test-components/ingress-nginx/pkg/apis/ingress/types_equals.go:62-77 | true if and only if the lists are as long and every entry of the first has an equal one in the second |
| `ConfigEquality.CompareConfigurations` | test-components/ingress-nginx/pkg/apis/ingress/types_equals.go:24-84 | equals the conjunction of the comparisons of certificate, backends, servers, stream services, passthrough entries and checksum |
| `ConfigEqualityProperties.StringEqualIsEquivalence` | test-components/ingress-nginx/pkg/apis/ingress/types_equals.go:217-244 | equality of endpoints (and of strings and error codes) is an equivalence relation |
| `ConfigEqualityProperties.BackendEqualIsEquivalence` | test-components/ingress-nginx/pkg/apis/ingress/types_equals.go:87-139 | Backend.Equal, with two unordered comparisons inside, is an equivalence relation |
| `ConfigEqualityProperties.L4EqualIsEquivalence` | test-components/ingress-nginx/pkg/apis/ingress/types_equals.go:506-521 | so is L4Service.Equal |
| `ConfigEqualityProperties.LocationEqualIsEquivalence` | test-components/ingress-nginx/pkg/apis/ingress/types_equals.go:339-470 | so is Location.Equal |
| `ConfigEqualityProperties.CertEqualIsEquivalence` | test-components/ingress-nginx/pkg/apis/ingress/types_equals.go:551-584 | so is SSLCert.Equal |
| `ConfigEqualityProperties.BackendOrderIrrelevant` | test-components/ingress-nginx/pkg/apis/ingress/types_equals.go:586-620 | reordering the backends, and the endpoints and alternatives inside each, changes no comparison with any other list, on either side |
| `ConfigEqualityProperties.L4OrderIrrelevant` | test-components/ingress-nginx/pkg/apis/ingress/types_equals.go:639-656 | the same for stream services and their endpoints |
| `Basics.Pigeonhole` | test-components/ingress-nginx/pkg/apis/ingress/types_equals.go:285-300 | a list without duplicates included in one as long has exactly its elements |
| `ConfigEqualityProperties.AliasTestExact` | test-components/ingress-nginx/pkg/apis/ingress/types_equals.go:285-300 | the one-way alias test means equality of sets for every other list if and only if the first list has no duplicates |
| `ConfigEqualityProperties.PassthroughSymmetric` | test-components/ingress-nginx/pkg/apis/ingress/types_equals.go:62-77 | with at most one entry per hostname the one-way passthrough test is symmetric |
| `ConfigEqualityProperties.ServerEqualReflexive` | test-components/ingress-nginx/pkg/apis/ingress/types_equals.go:268-336 | Server.Equal is reflexive |
| `ConfigEqualityProperties.ServerEqualTransitive` | test-components/ingress-nginx/pkg/apis/ingress/types_equals.go:268-336 | and transitive |
| `ConfigEqualityProperties.ServerEqualSymmetric` | test-components/ingress-nginx/pkg/apis/ingress/types_equals.go:268-336 | and symmetric for duplicate-free aliases, when it means that the alias sets are equal |
| `ConfigEqualityProperties.ConfigEqualReflexive` | test-components/ingress-nginx/pkg/apis/ingress/types_equals.go:24-84 | Configuration.Equal is reflexive |
| `ConfigEqualityProperties.ConfigEqualTransitive` | test-components/ingress-nginx/pkg/apis/ingress/types_equals.go:24-84 | and transitive |
| `ConfigEqualityProperties.ConfigEqualSymmetric` | test-components/ingress-nginx/pkg/apis/ingress/types_equals.go:24-84 | and symmetric on configurations as the builder makes them |
| `ConfigEqualityProperties.EqualDecomposes` | test-components/ingress-nginx/internal/ingress/controller/nginx.go:837-851 | two configurations are equal if and only if no reload is needed and their backends, stream services and certificates match |
| `ConfigEqualityProperties.EqualNeverReloads` | test-components/ingress-nginx/internal/ingress/controller/nginx.go:837-851 | an equal configuration never needs a reload |
| `ReloadExact.NoReloadIff` | test-components/ingress-nginx/internal/ingress/controller/nginx.go:837-851 | no reload is needed if and only if the default certificates, the servers up to their certificates, the ports and backends of the stream services, the passthrough entries and the checksum of the global settings compare equal |
| `ReloadExact.OnlyDynamicEnough` | test-components/ingress-nginx/internal/ingress/controller/nginx.go:837-851 | a target that differs only in backends, certificates of servers, and endpoints and Services of streams needs no reload |
| `ReloadExact.BackendsAreDynamic` | test-components/ingress-nginx/internal/ingress/controller/nginx.go:841-842 | in particular a change of the backends alone needs none |
| `ReloadExact.DynamicChangeNeverReloads` | test-components/ingress-nginx/internal/ingress/controller/controller.go:159-182 | an attempt at such a target leaves the loaded configuration alone, however the posts end |
| `ReloadExact.LoadsIff` | test-components/ingress-nginx/internal/ingress/controller/controller.go:159-182 | an attempt loads its target, marked with the checksum, if and only if a reload is needed and takes effect |
| `CanonicalForm.MatchesIffBags` | test-components/ingress-nginx/pkg/util/sets/match.go:26-74 | if an equality compares images, Compare answers true if and only if the images form the same multiset, with nil apart from empty |
| `CanonicalForm.BackendSeen` | test-components/ingress-nginx/pkg/apis/ingress/types_equals.go:87-139 | exactly what Backend.Equal looks at: the fields kept in the canonical form, endpoints and alternatives as multisets |
| `CanonicalForm.L4Seen` | test-components/ingress-nginx/pkg/apis/ingress/types_equals.go:506-521 | the same for L4Service.Equal |
| `CanonicalForm.LocationSeen` | test-components/ingress-nginx/pkg/apis/ingress/types_equals.go:339-470 | the same for Location.Equal |
| `CanonicalForm.CertSeen` | test-components/ingress-nginx/pkg/apis/ingress/types_equals.go:551-584 | the same for SSLCert.Equal |
| `CanonicalForm.ServerSeen` | test-components/ingress-nginx/pkg/apis/ingress/types_equals.go:268-336 | the same for Server.Equal, aliases as a set |
| `CanonicalForm.EqualIffSameCanon` | test-components/ingress-nginx/pkg/apis/ingress/types_equals.go:24-84 | on configurations as the builder makes them, Configuration.Equal answers true if and only if the canonical forms are the same: precisely which changes are seen |
| `CanonicalForm.UnseenChanges` | test-components/ingress-nginx/pkg/apis/ingress/types_equals.go:24-84 | for any configurations: those that agree once the spec of Services, cookie paths and failure behaviour, total weights, path types, Ingresses and custom default backends of locations, stream snippets, the configuration checksum, and the Secret and file name of certificates are blanked are taken for equal |
| `ReloadDecision.ConfigurationObject.Copy` | test-components/ingress-nginx/internal/ingress/controller/nginx.go:838-839 | a shallow copy: the same server objects, the same value |
| `ReloadDecision.ConfigurationObject.ClearCertificates` | test-components/ingress-nginx/internal/ingress/controller/nginx.go:798-806 | the servers become new objects that differ only in having no certificate; the old ones are untouched |
| `ReloadDecision.ConfigurationObject.ClearL4ServiceEndpoints` | test-components/ingress-nginx/internal/ingress/controller/nginx.go:810-833 | both service lists lose endpoints and Service and nothing else changes |
| `ReloadDecision.ClearL4Services` | test-components/ingress-nginx/internal/ingress/controller/nginx.go:813-821 | the cleared list, which is nil whenever there is nothing in it |
| `ReloadDecision.IsDynamicConfigurationEnough` | test-components/ingress-nginx/internal/ingress/controller/nginx.go:837-851 | true exactly when the configurations are equal after erasing backends, certificates and stream endpoints; modifies neither configuration nor any server |
| `SyncLoop.Controller.ConfigureDynamically` | test-components/ingress-nginx/internal/ingress/controller/nginx.go:855-881 | posts in order the parts that differ from the running configuration and stops at the first failure: what nginx has been told, and success |
| `SyncLoop.Controller.RetryDynamically` | test-components/ingress-nginx/internal/ingress/controller/controller.go:199-224 | repeated until one call succeeds or the tries are used up |
| `SyncLoop.Controller.LoadNginx` | test-components/ingress-nginx/internal/ingress/controller/controller.go:166-182 | the checksum is written into the new configuration before the reload, whatever becomes of the reload |
| `SyncLoop.Controller.SyncIngress` | test-components/ingress-nginx/internal/ingress/controller/controller.go:146-234 | one attempt equals its specification for every way the reload and the posts can end; the running configuration changes only when everything succeeded |
| `SyncConvergence.ServesMeansEqual` | test-components/ingress-nginx/internal/ingress/controller/controller.go:159-234 | if every part nginx serves fits a configuration, certificates host by host, the configuration assembled from those parts is equal to it |
| `SyncConvergence.SyncStep` | test-components/ingress-nginx/internal/ingress/controller/controller.go:146-234 | a failed attempt leaves the running configuration alone and every part between it and the target; a successful one serves the target |
| `SyncConvergence.RetryConverges` | test-components/ingress-nginx/internal/ingress/controller/controller.go:146-234 | after any attempts at a fixed target, failing anywhere and even misreporting failure, the first success leaves nginx serving a configuration equal to it |
| `SyncConvergence.EpisodeServes` | test-components/ingress-nginx/internal/ingress/controller/controller.go:146-234 | a successful run of attempts leaves nginx serving both the target and the recorded configuration |
| `SyncConvergence.HistoryServes` | test-components/ingress-nginx/internal/ingress/controller/controller.go:146-234 | so does every history of targets in which the target changes only after a success |
| `SyncConvergence.SuccessServesIff` | test-components/ingress-nginx/internal/ingress/controller/nginx.go:855-881 | with a moving target: a successful attempt serves its target if and only if the parts it does not touch already fitted |
| `SyncConvergence.MovingTargetDiverges` | test-components/ingress-nginx/internal/ingress/controller/nginx.go:855-881 | a counterexample at every configuration: an attempt at a target with one backend more fails after posting it; the next attempt, back at the old backends, succeeds and leaves nginx with the new one |
| `SyncConvergence.RetryPresents` | test-components/ingress-nginx/internal/ingress/controller/controller.go:146-234 | and after the first success nginx presents, whatever its dictionaries held, what the target asks for to every client whose lookup the target settles |
| `SyncConvergence.NothingFailsSucceeds` | test-components/ingress-nginx/internal/ingress/controller/controller.go:146-234 | an attempt in which nothing fails succeeds |
| `SyncRuns.FirstSuccessServesIff` | test-components/ingress-nginx/internal/ingress/controller/controller.go:146-234 | from any state of nginx: the first success at a target serves it if and only if the parts that the target shares with the running configuration already fitted before all attempts |
| `SyncRuns.ColdStartServes` | test-components/ingress-nginx/internal/ingress/controller/nginx.go:103 | cold start: from the zero configuration and any state of nginx, the first success at a target with servers and backends serves it, provided that nginx was told of no stream services or the target has some |
| `SyncRuns.FailureLeaves` | test-components/ingress-nginx/internal/ingress/controller/nginx.go:855-881 | a failing attempt leaves of each part of nginx the target's exactly if some try got so far as to post it, and took effect |
| `SyncRuns.RunLeaves` | test-components/ingress-nginx/internal/ingress/controller/controller.go:146-234 | after a run of failures at any targets each part is that of the last attempt that got it through |
| `SyncRuns.MovingTargetServesIff` | test-components/ingress-nginx/internal/ingress/controller/controller.go:146-234 | over whole runs: nginx serves the running configuration, attempts at any targets fail, one succeeds; it serves its target if and only if no part it leaves alone was last touched by an attempt whose part does not fit |
| `WorkQueue.Queue.constructor` | test-components/ingress-nginx/internal/task/queue.go:171-185 | a new queue is empty and has never synced |
| `WorkQueue.Queue.EnqueueObject` | test-components/ingress-nginx/internal/task/queue.go:76-97 | is the enqueue step of the state machine: shut down, keyless, skippable and non-skippable objects |
| `WorkQueue.Queue.TakeNext` | test-components/ingress-nginx/internal/task/queue.go:111-129 | is the get step and the begin step: reads the clock, then skips or starts to sync |
| `WorkQueue.Queue.SyncReturned` | test-components/ingress-nginx/internal/task/queue.go:129-140 | is the finish step: a failure is put back with time stamp 0, a success advances lastSync to the start of the sync |
| `WorkQueueProperties.SkipCovers` | test-components/ingress-nginx/internal/task/queue.go:121-126 | what is skipped is already covered by a sync that began later |
| `WorkQueueProperties.StepKeepsPending` | test-components/ingress-nginx/internal/task/queue.go:76-142 | no step loses the element an enqueue is waiting for, except to a sync that covers it |
| `WorkQueueProperties.StepKeepsInvariant` | test-components/ingress-nginx/internal/task/queue.go:76-142 | every step keeps the invariant: bookkeeping, clock, and each accepted enqueue pending or covered |
| `WorkQueueProperties.NoLostUpdate` | test-components/ingress-nginx/internal/task/queue.go:76-142 | at every point of every run with one worker, a clock that never goes back and no shutdown, each accepted enqueue is pending or covered by a successful sync that began no earlier |
| `WorkQueueProperties.DrainedCoversAll` | test-components/ingress-nginx/internal/task/queue.go:76-142 | a drained queue has covered every accepted enqueue |
| `SkippedElements.SkipsIff` | test-components/ingress-nginx/internal/task/queue.go:121-126 | at any point of any run an element is skipped if and only if it is no retry and a sync has succeeded that began after its time stamp |
| `SkippedElements.EnqueuedSkippedIff` | test-components/ingress-nginx/internal/task/queue.go:76-97 | the element of a skippable enqueue is skipped if and only if a sync that began after its reading has succeeded; of any other, if and only if one that began more than 24 hours after |
| `SkippedElements.NeverSkippedWithinDay` | test-components/ingress-nginx/internal/task/queue.go:82-86 | within 24 hours the worker that holds an element that must not be skipped begins to sync it |
| `SkippedElements.StaysUntilSynced` | test-components/ingress-nginx/internal/task/queue.go:76-142 | within 24 hours such an element is still there or has been taken into a sync since |
| `SkippedElements.DrainedHasSynced` | test-components/ingress-nginx/internal/task/queue.go:76-142 | a queue that is drained by then has synced it |
| `SkippedElements.ServedInOrder` | test-components/ingress-nginx/internal/task/queue.go:111-118 | elements are taken in the order in which they were queued |
| `WorkQueueProperties.ClockSetBackLoses` | test-components/ingress-nginx/internal/task/queue.go:118-126 | a counterexample: set the clock back and an enqueue is skipped and never covered |
| `WorkQueueProperties.ShutDownLoses` | test-components/ingress-nginx/internal/task/queue.go:129-133 | a counterexample: shut down during a failing sync and its retry is lost |
| `ServerBuilder.Builder.CreateForPaths` | test-components/ingress-nginx/internal/ingress/controller/controller.go:962-1029 | the upstreams of one rule's service paths are created unless they exist |
| `ServerBuilder.Builder.CreateForRules` | test-components/ingress-nginx/internal/ingress/controller/controller.go:957-1030 | the same over the rules of one Ingress |
| `ServerBuilder.Builder.CreateUpstreams` | test-components/ingress-nginx/internal/ingress/controller/controller.go:888-1034 | the upstreams are those of the list of uses, where a default backend starts its upstream afresh |
| `ServerBuilder.Builder.TakeDefaultBackend` | test-components/ingress-nginx/internal/ingress/controller/controller.go:1195-1231 | the catch-all root takes the default backend, and is closed only if the Ingress has no rules |
| `ServerBuilder.Builder.CreateServers` | test-components/ingress-nginx/internal/ingress/controller/controller.go:1166-1264 | one server for every host of an Ingress that is no canary, by the first to name it, plus the catch-all server |
| `ServerBuilder.Builder.ClaimLocation` | test-components/ingress-nginx/internal/ingress/controller/controller.go:691-748 | the first location with the path decides: another type adds a location, a default is taken over, anything else keeps the claim out |
| `ServerBuilder.Builder.ClaimPaths` | test-components/ingress-nginx/internal/ingress/controller/controller.go:670-748 | every service path of a rule claims, unless its upstream has no server; an unknown host falls back to the catch-all server |
| `ServerBuilder.Builder.ClaimLocations` | test-components/ingress-nginx/internal/ingress/controller/controller.go:612-795 | the claims are made in input order, over Ingresses, rules and paths |
| `ServerBuilder.Builder.Build` | test-components/ingress-nginx/internal/ingress/controller/controller.go:605-795 | upstreams and servers after the main loop |
| `ServerBuilder.NamesAreKeys` | test-components/ingress-nginx/internal/ingress/controller/controller.go:890-976 | every upstream is stored under its own name and the default one exists |
| `ServerBuilder.DefaultIsCreated` | test-components/ingress-nginx/internal/ingress/controller/controller.go:1203-1208 | the lookup of a default backend's upstream never misses |
| `ServerBuilder.PathsAreCreated` | test-components/ingress-nginx/internal/ingress/controller/controller.go:677-682 | the lookup of a service path's upstream never yields nil |
| `ServerBuilder.RootFirst` | test-components/ingress-nginx/internal/ingress/controller/controller.go:1136-1138 | every server starts with one Prefix location for "/", open to claims unless it is the catch-all one |
| `UpstreamNames.NumberSpelled` | test-components/ingress-nginx/internal/ingress/controller/util.go:50-60 | a port with a number is spelled namespace, service and the digits of the number, whatever the port is called |
| `UpstreamNames.NamedSpelled` | test-components/ingress-nginx/internal/ingress/controller/util.go:50-60 | a port with only a name is spelled by that; a missing service or port by "INVALID" |
| `UpstreamNames.NumbersToldApart` | test-components/ingress-nginx/internal/ingress/controller/util.go:50-60 | ports with numbers have the same upstream name if and only if the numbers and "namespace-service" are the same |
| `UpstreamNames.PortsToldApart` | test-components/ingress-nginx/internal/ingress/controller/util.go:50-60 | within a namespace and a service the name tells exactly the ports apart, and a reference with a port from one without |
| `UpstreamNames.NamespacesToldApart` | test-components/ingress-nginx/internal/ingress/controller/util.go:50-60 | and references that differ in the namespace only |
| `UpstreamNames.ServicesToldApart` | test-components/ingress-nginx/internal/ingress/controller/util.go:50-60 | and those that differ in the service only, if they have a port |
| `UpstreamNames.DashesShareNames` | test-components/ingress-nginx/internal/ingress/controller/util.go:50-60 | a family of different services with one upstream name: a dash can belong to the namespace or to the service |
| `UpstreamNames.UpstreamsExact` | test-components/ingress-nginx/internal/ingress/controller/controller.go:888-1034 | the upstreams are the default one and exactly those of the services that paths and default backends name |
| `UpstreamNames.PortsHaveUpstreams` | test-components/ingress-nginx/internal/ingress/controller/controller.go:967-1000 | two paths of a namespace that name different ports of a service have two upstreams |
| `UpstreamNames.PortsHaveBackends` | test-components/ingress-nginx/internal/ingress/controller/controller.go:677-748 | and where they are the first to ask, their locations have different backends |
| `FirstClaim.ClaimIntoEffect` | test-components/ingress-nginx/internal/ingress/controller/controller.go:691-748 | a claim changes at most the first location of its path and type, only while that is a default, and any added location has that path and type |
| `FirstClaim.FirstClaimantOwns` | test-components/ingress-nginx/internal/ingress/controller/controller.go:612-795 | after all claims a location of a path and type is there exactly if somebody claimed it (or it is the root), and it belongs to the first who did |
| `FirstClaim.FirstClaimWins` | test-components/ingress-nginx/internal/ingress/controller/controller.go:612-795 | for every service path of an Ingress that is no canary there is such a location on its host, owned by an Ingress no later in the input; only a closed catch-all root stays with its default backend |
| `FirstClaim.FirstClaimantIsFirst` | test-components/ingress-nginx/internal/ingress/controller/controller.go:612-795 | no claimant comes from an earlier Ingress than the first claimant |
| `FirstClaim.NeverRebound` | test-components/ingress-nginx/internal/ingress/controller/controller.go:703-709 | once a location is no default, no later claim changes it |
| `FirstClaim.NoServerIffCanary` | test-components/ingress-nginx/internal/ingress/controller/controller.go:1000-1002 | under name-disjointness an upstream has no server exactly if a canary asked for it |
| `FirstClaim.RootStays` | test-components/ingress-nginx/internal/ingress/controller/controller.go:612-795 | every server keeps a Prefix location for "/", in the first place |
| `FirstClaim.CatchAllExact` | test-components/ingress-nginx/internal/ingress/controller/controller.go:1203-1231 | the catch-all root is closed if and only if some Ingress has a default backend and no rules, and its backend is that of the last Ingress with a default backend |
| `IngressOrder.RefsAt` | test-components/ingress-nginx/internal/ingress/controller/controller.go:612-748 | the builder works through exactly the service paths, in the order of the input |
| `IngressOrder.FirstClaimantAsksFirst` | test-components/ingress-nginx/internal/ingress/controller/controller.go:612-748 | under name-disjointness the first claimant of a location is the first path in the input that asks for its host, path and type |
| `IngressOrder.RootsExact` | test-components/ingress-nginx/internal/ingress/controller/controller.go:1166-1264 | there is a server for "_" and for exactly the hosts of Ingresses that are no canaries; its root starts with the default backend of the first of them to name the host |
| `IngressOrder.FirstPathWins` | test-components/ingress-nginx/internal/ingress/controller/controller.go:612-795 | a location other than the Prefix root exists if and only if a path asks for it, and has the upstream of the first path in the input that asks |
| `IngressOrder.RootGoesToFirst` | test-components/ingress-nginx/internal/ingress/controller/controller.go:612-795 | the Prefix root of a host goes to the first path that asks, and unclaimed keeps its default backend |
| `IngressOrder.CatchAllGoesToFirst` | test-components/ingress-nginx/internal/ingress/controller/controller.go:1195-1231 | so does the catch-all root, unless an Ingress with a default backend and no rules closes it |
| `IngressOrder.StrayPathAsksCatchAll` | test-components/ingress-nginx/internal/ingress/controller/controller.go:618-629 | a path whose host has no server, which can only be a canary's, gets a location of the catch-all server if its upstream has a server |
| `CanaryMerge.Merger.MergeAt` | test-components/ingress-nginx/internal/ingress/controller/controller.go:1551-1571 | the walk over the locations of a server: alternatives added, upstream deleted, or a nil dereference |
| `CanaryMerge.Merger.MergeOne` | test-components/ingress-nginx/internal/ingress/controller/controller.go:1529-1571 | nothing happens when the upstream is gone or the server does not exist |
| `CanaryMerge.Merger.MergePaths` | test-components/ingress-nginx/internal/ingress/controller/controller.go:1522-1572 | the service paths of one rule, in order |
| `CanaryMerge.Merger.MergeRules` | test-components/ingress-nginx/internal/ingress/controller/controller.go:1516-1573 | the rules in order; a rule without HTTP section is dereferenced and fails |
| `CanaryMerge.Merger.MergeAlternativeBackends` | test-components/ingress-nginx/internal/ingress/controller/controller.go:1476-1574 | the default backend first, against every location of the catch-all server, then the rules |
| `CanaryMerge.Merger.MergeCanaries` | test-components/ingress-nginx/internal/ingress/controller/controller.go:797-801 | all canaries in input order, if there is any other Ingress; fails exactly where the program dereferences nil |
| `CanaryMergeProperties.ScanEffect` | test-components/ingress-nginx/internal/ingress/controller/controller.go:1551-1566 | when no location has the canary's own upstream, exactly the upstreams of matching locations gain the alternative, once |
| `CanaryMergeProperties.MergeEffect` | test-components/ingress-nginx/internal/ingress/controller/controller.go:1529-1571 | one merge deletes its upstream if and only if its server exists and no location takes it, and changes nothing else but alternatives |
| `CanaryMergeProperties.MergeKeepsIntegrity` | test-components/ingress-nginx/internal/ingress/controller/controller.go:1443-1574 | one merge keeps integrity: locations have upstreams, alternatives are distinct canaries, canaries and the default upstream have none |
| `CanaryMergeProperties.MergeAllResult` | test-components/ingress-nginx/internal/ingress/controller/controller.go:1476-1574 | any number of merges keep integrity, and both survival and listing are known exactly |
| `CanaryMergeProperties.BuiltHasIntegrity` | test-components/ingress-nginx/internal/ingress/controller/controller.go:888-1034 | under name-disjointness what the builder hands to the merge has integrity |
| `CanaryMergeProperties.CanaryMergeIntegrity` | test-components/ingress-nginx/internal/ingress/controller/controller.go:1476-1574 | the whole merge never dereferences a missing upstream; a canary upstream survives if and only if no merge of its name was harmful, and is listed if and only if one arrived while it was alive |
| `CanaryMergeProperties.DepthOne` | test-components/ingress-nginx/internal/ingress/controller/controller.go:1439-1470 | alternatives have no alternatives; nothing lists itself; only upstreams with a server, other than the default one, list any |
| `CanaryMergeProperties.MergeAllKeepsNames` | test-components/ingress-nginx/internal/ingress/controller/controller.go:1476-1574 | any merges keep every upstream under its own name |
| `CanaryMergeProperties.DanglesIff` | test-components/ingress-nginx/internal/ingress/controller/controller.go:1568-1571 | for any sequence of merges: a name stays listed although its upstream is gone if and only if a merge of the name arrived and a later one was harmful |
| `CanaryMergeProperties.BuiltDanglesIff` | test-components/ingress-nginx/internal/ingress/controller/controller.go:1476-1574 | the same for the whole builder, in terms of the canaries' merges on the servers built from the Ingresses |
| `CanaryMergeProperties.HitThenMissDangles` | test-components/ingress-nginx/internal/ingress/controller/controller.go:1568-1571 | the shortest case, from any state with integrity |
| `CanaryMergeFailures.MergeStep` | test-components/ingress-nginx/internal/ingress/controller/controller.go:1529-1571 | one merge, for arbitrary names, dereferences nil exactly if it walks into a location whose upstream has not survived |
| `CanaryMergeFailures.MergesRemain` | test-components/ingress-nginx/internal/ingress/controller/controller.go:1529-1574 | any merges, for arbitrary names: exactly when one fails, and otherwise which upstreams survive |
| `CanaryMergeFailures.BuiltMergeFailsIff` | test-components/ingress-nginx/internal/ingress/controller/controller.go:797-801 | for all Ingresses, whatever names they share: merging dereferences nil if and only if some merge walks into a location whose upstream an earlier merge deleted |
| `CanaryTargets.WalkLists` | test-components/ingress-nginx/internal/ingress/controller/controller.go:1551-1566 | one walk, whatever the names: the alternative is listed by exactly the upstreams of the locations looked at that can have alternatives, of all for a default backend, and of those of the very path and type for a path |
| `CanaryTargets.DefaultMergeLists` | test-components/ingress-nginx/internal/ingress/controller/controller.go:1480-1514 | one merge of a default backend: survival and listing, over all locations of the catch-all server |
| `CanaryTargets.PathMergeLists` | test-components/ingress-nginx/internal/ingress/controller/controller.go:1529-1571 | one merge of a path: survival and listing, over the locations of that very path and type |
| `CanaryTargets.MergesExact` | test-components/ingress-nginx/internal/ingress/controller/controller.go:1476-1550 | the merges are exactly one for every default backend of a canary, at the catch-all server, and one for every service path, at its host, path and type |
| `CanaryTargets.CanarySurvivesIff` | test-components/ingress-nginx/internal/ingress/controller/controller.go:1476-1574 | in terms of the Ingresses and the built locations: a canary's upstream survives all merges if and only if every default backend and every path of its name meets a location that can take it |
| `CanaryTargets.CanaryListedIff` | test-components/ingress-nginx/internal/ingress/controller/controller.go:1476-1574 | and it is then an alternative of exactly the upstreams of the locations it meets: all of the catch-all server for a default backend, those of its very path and type for a path |
| `DanglingCanary.DanglingAlternative` | test-components/ingress-nginx/internal/ingress/controller/controller.go:605-801 | a family of inputs: a primary Ingress for one path and a canary for that path and another, whatever the names, leave the canary's deleted upstream listed |
| `SharedCanaryName.SharedNameFails` | test-components/ingress-nginx/internal/ingress/controller/controller.go:1551-1552 | a family of inputs: a canary shares its default backend with another Ingress, and the merge dereferences nil |
| `BackendServers.GetBackendServers` | test-components/ingress-nginx/internal/ingress/controller/controller.go:605-884 | the steps together, for all Ingresses: exactly when they fail (a canary without HTTP section, or a merge into a deleted upstream, when not all are canaries), the upstream list strictly ascending by name, the server list by hostname, and integrity after the merges under name-disjointness |
| `BackendServers.RootSurvivesSorting` | test-components/ingress-nginx/internal/ingress/controller/controller.go:863-873 | every server still has its "/" location after the sorts |
| `Configurations.UniqueAliases` | test-components/ingress-nginx/internal/ingress/controller/controller.go:1377-1394 | the aliases kept, as a sorted list, are exactly those that name neither the host nor a server, each once |
| `Configurations.FirstAliasesExact` | test-components/ingress-nginx/internal/ingress/controller/controller.go:1280-1293 | the aliases of a host are those of the first of its rules that names any |
| `Configurations.CollectAliases` | test-components/ingress-nginx/internal/ingress/controller/controller.go:1280-1293 | for every host that a rule names, the first aliases that any rule asks for |
| `Configurations.AssignAliases` | test-components/ingress-nginx/internal/ingress/controller/controller.go:1372-1395 | every server gets exactly the first aliases asked for, sorted and filtered |
| `Configurations.PassthroughBackends` | test-components/ingress-nginx/internal/ingress/controller/controller.go:542-558 | one entry for every passthrough server with a root location, with backend, service and port of the first root location and the server's hostname; hostnames do not repeat |
| `Configurations.GetConfiguration` | test-components/ingress-nginx/internal/ingress/controller/controller.go:542-558 | what is generated is well-formed for the comparison, with one passthrough entry per hostname, field by field that of a root location, and its names are apart: exactly the aliases first asked for that are no host name, none repeated |
| `BuiltRouting.BuiltAcceptedIff` | test-components/ingress-nginx/internal/ingress/controller/controller.go:691-748 | nginx accepts a built, sorted and compiled server if and only if its claims keep apart: none repeats a path and type that is not the path's first, and no two Prefix claims differ by a final "/" only |
| `BuiltRouting.BuiltFollows` | test-components/ingress-nginx/internal/ingress/controller/controller.go:612-795 | which paths and types have locations, which type comes first for a path, and when a path and type has two |
| `BuiltRouting.FirstHasClaimed` | test-components/ingress-nginx/internal/ingress/controller/controller.go:612-795 | the first location of a path and type has the backend of the first claimant, or of the default for an unclaimed or closed root |
| `BuiltRouting.RequestReachesFirstClaimant` | test-components/ingress-nginx/internal/ingress/controller/controller.go:605-884 | routing from end to end, through building, sorting, compiling and nginx: a request reaches a backend if and only if that is the backend of the first claimant of the path that answers it and, on the catch-all server, no longer health-check or status path takes the request |
| `BuiltRouting.ShadowedGoesNowhere` | test-components/ingress-nginx/rootfs/etc/nginx/template/nginx.tmpl:1501-1532 | otherwise the fixed location answers and the request reaches no backend |
| `BuiltRouting.RenderedAcceptedIff` | test-components/ingress-nginx/rootfs/etc/nginx/template/nginx.tmpl:1501-1532 | nginx accepts a server as rendered, fixed locations included, if and only if its claims keep apart and the health check's path is none of the compiled prefixes and not the status path |
| `BuiltRouting.RootServed` | test-components/ingress-nginx/internal/ingress/controller/controller.go:863-873 | every server keeps its "/" location through sorting and compiling |
| `Sorting.StableSortMeets` | test-components/ingress-nginx/internal/ingress/controller/controller.go:865-881 | a sort that is stable exists |
| `Sorting.OnlyStableSort` | test-components/ingress-nginx/internal/ingress/controller/controller.go:865-881 | and the contract of a stable sort admits no other result |
| `Sorting.TwoPasses` | test-components/ingress-nginx/internal/ingress/controller/controller.go:865-871 | for any two orders, two stable sorts are one stable sort by the later order and then by the earlier |
| `Strings.StringLessIff` | test-components/ingress-nginx/internal/ingress/controller/controller.go:803-881 | the order of names is that of their bytes at the first difference, a beginning before the whole |
| `Ordering.LocationSortIsOne` | test-components/ingress-nginx/internal/ingress/controller/controller.go:863-873 | the two location sorts lose nothing, order by length and then by path, and keep the sequence of locations of one path |
| `Ordering.ListUpstreams` | test-components/ingress-nginx/internal/ingress/controller/controller.go:803-877 | whatever the order of the map, the list is strictly ascending by name and holds every upstream |
| `Ordering.ListServers` | test-components/ingress-nginx/internal/ingress/controller/controller.go:863-881 | whatever the order of the map, the list is strictly ascending by hostname and holds every server with its sorted locations |
| `Ordering.ListIsCanonical` | test-components/ingress-nginx/internal/ingress/controller/controller.go:863-881 | two such lists of the same servers are equal |
| `Ordering.IngressSliceEqual` | test-components/ingress-nginx/internal/ingress/status/status.go:322-337 | true if and only if hostnames and addresses agree position by position |
| `Ordering.SortedComparison` | test-components/ingress-nginx/internal/ingress/status/status.go:262-274 | sorting both lists and comparing them by position compares them as multisets |
| `Ordering.UpdateStatus` | test-components/ingress-nginx/internal/ingress/status/status.go:262-284 | an Ingress is skipped if and only if its (hostname, IP) pairs are, with multiplicity, the new ones |
| `RefMap.ObjectRefMap.constructor` | test-components/ingress-nginx/internal/ingress/controller/store/objectref.go:44-48 | a new map represents the empty relation |
| `RefMap.ObjectRefMap.Insert` | test-components/ingress-nginx/internal/ingress/controller/store/objectref.go:51-62 | adds exactly the pairs of the consumer with the given references; no reference is left without consumer |
| `RefMap.ObjectRefMap.Delete` | test-components/ingress-nginx/internal/ingress/controller/store/objectref.go:65-75 | removes exactly the consumer's pairs, in whatever order the map is walked; no reference is left without consumer |
| `RefMap.ObjectRefMap.Len` | test-components/ingress-nginx/internal/ingress/controller/store/objectref.go:78-80 | the number of references with at least one consumer |
| `RefMap.ObjectRefMap.Has` | test-components/ingress-nginx/internal/ingress/controller/store/objectref.go:83-91 | whether some consumer has the reference |
| `RefMap.ObjectRefMap.HasConsumer` | test-components/ingress-nginx/internal/ingress/controller/store/objectref.go:94-104 | whether the consumer has some reference |
| `RefMap.ObjectRefMap.Reference` | test-components/ingress-nginx/internal/ingress/controller/store/objectref.go:107-116 | the consumers of a reference, as a sorted list |
| `RefMap.ObjectRefMap.ReferencedBy` | test-components/ingress-nginx/internal/ingress/controller/store/objectref.go:119-130 | the references of a consumer, each once: the same relation read the other way |
| `RefMap.ObjectRefMap.Replace` | test-components/ingress-nginx/internal/ingress/controller/store/store.go:884-919 | a delete and an insert replace one consumer's references and touch no other's |
| `IngressStore.Store.GetIngressClass` | test-components/ingress-nginx/internal/ingress/controller/store/store.go:972-996 | a class is found if and only if the Ingress is accepted by class name, annotation or flag, in that order |
| `IngressStoreProperties.ClassDecided` | test-components/ingress-nginx/internal/ingress/controller/store/store.go:972-996 | the class name decides by the known IngressClasses unless the flag ignores it, then the annotation by the controller's own value, then a flag |
| `IngressStore.SetDefaultPathType` | test-components/ingress-nginx/internal/k8s/main.go:154-171 | an omitted path type and ImplementationSpecific become Prefix, in every rule with an HTTP section; nothing else changes |
| `IngressStore.Store.SyncIngress` | test-components/ingress-nginx/internal/ingress/controller/store/store.go:838-876 | a copy with its defaults filled in is stored unless the blocklist rejects the version |
| `IngressStore.Store.CollectSecrets` | test-components/ingress-nginx/internal/ingress/controller/store/store.go:887-916 | exactly the Secrets used by a TLS section or a well-formed annotation |
| `IngressStore.Store.UpdateSecretIngressMap` | test-components/ingress-nginx/internal/ingress/controller/store/store.go:880-920 | the Ingress's references become exactly those; no other Ingress's change |
| `IngressStore.Store.IngressAdded` | test-components/ingress-nginx/internal/ingress/controller/store/store.go:417-453 | store and reference map after an add event, for every combination of flags and verdicts |
| `IngressStore.Store.IngressDeleted` | test-components/ingress-nginx/internal/ingress/controller/store/store.go:374-414 | the same after a delete event |
| `IngressStore.Store.IngressUpdated` | test-components/ingress-nginx/internal/ingress/controller/store/store.go:455-509 | the same after an update event, whether the class was gained, lost or kept |
| `IngressStoreProperties.DefaultsFillIn` | test-components/ingress-nginx/internal/ingress/controller/store/store.go:852-867 | the stored copy differs from the version only in rules: every path is given and is Exact or Prefix, what was given stays, and filling in twice is filling in once |
| `IngressStoreProperties.HappenKeepsKey` | test-components/ingress-nginx/internal/ingress/controller/store/store.go:374-510 | every event keeps the invariant of every key |
| `IngressStoreProperties.StoredWasAdmitted` | test-components/ingress-nginx/internal/ingress/controller/store/store.go:374-510 | over all event sequences everything stored is a copy of a version that passed the namespace filter, class check, inspector, catch-all rule and blocklist |
| `IngressStoreProperties.GoneFromBoth` | test-components/ingress-nginx/internal/ingress/controller/store/store.go:374-510 | an object deleted, of a lost class or become a forbidden catch-all is in neither the store nor the reference map |
| `IngressStoreProperties.StoreIsExact` | test-components/ingress-nginx/internal/ingress/controller/store/store.go:374-510 | when nothing existing is rejected, the store holds exactly copies of the last versions of the live objects and the map exactly what they use |
| `IngressStoreProperties.StoredExactlyWanted` | test-components/ingress-nginx/internal/ingress/controller/store/store.go:374-510 | over all event sequences, with the conditions spelled out: of an object whose last version nobody rejects a copy is stored if and only if that version is wanted, and then exactly its Secrets are in the map, in the namespace given or its own |
| `IngressStoreProperties.StoredPassed` | test-components/ingress-nginx/internal/ingress/controller/store/store.go:374-510 | everything stored is the copy of a wanted version that neither inspector nor blocklist rejected |
| `IngressStoreProperties.RejectedUpdateKeeps` | test-components/ingress-nginx/internal/ingress/controller/store/store.go:497-508 | an update that the inspector rejects changes nothing; one that the blocklist rejects leaves the stored version |
| `IngressStoreProperties.KeysToldApart` | test-components/ingress-nginx/internal/ingress/controller/store/store.go:839 | objects share a key if and only if namespace and name are the same |
| `IngressStoreProperties.IgnoringClassKeepsForeign` | test-components/ingress-nginx/internal/ingress/controller/store/store.go:463-509 | with IgnoreIngressClass set, an update stores a version of a foreign class and its deletion leaves it behind |
| `HashSize.NextPowerOf2` | test-components/ingress-nginx/internal/ingress/controller/nginx.go:737-747 | the five shift-or steps on 64-bit words are the smearing function |
| `HashSize.SmearBits` | test-components/ingress-nginx/internal/ingress/controller/nginx.go:739-743 | the steps set exactly the bits with a set bit at most 31 positions above |
| `HashSize.RoundUpExact` | test-components/ingress-nginx/internal/ingress/controller/nginx.go:737-747 | for every size from 2 to the largest int: the result is a power of two if and only if the size is at most 2^62 and the size less one has no 32 zero bits in a row below its highest bit; then it is the least one not below the size |
| `HashSize.RoundUpSmall` | test-components/ingress-nginx/internal/ingress/controller/nginx.go:737-747 | from 1 to 2^32 the result is the least power of two not below the size |
| `HashSize.RoundUpZero` | test-components/ingress-nginx/internal/ingress/controller/nginx.go:737-747 | zero stays zero |
| `HashSize.RoundUpGap` | test-components/ingress-nginx/internal/ingress/controller/nginx.go:737-747 | a family of sizes that are not rounded to a power of two: one more than any power from 2^32 to 2^62 |
| `HashSize.RawSize` | test-components/ingress-nginx/internal/ingress/controller/nginx.go:728-731 | a multiple of 8, at least 24, at least the longest name and 18 more, at most 25 more |
| `HashSize.LongestName` | test-components/ingress-nginx/internal/ingress/controller/nginx.go:485-504 | nothing served is longer, counting "www." in front of redirecting hosts, and unless it is 0 something is that long |
| `Redirects.BuildRedirects` | test-components/ingress-nginx/internal/ingress/controller/nginx.go:1149-1203 | equals the specification: made by the first redirecting server of a name, with its certificate if that is for the other name too |
| `Redirects.RedirectsExact` | test-components/ingress-nginx/internal/ingress/controller/nginx.go:1149-1203 | exactly one redirect for every redirecting host whose other name no server has, from that name, with a certificate of a server of that host or none |
| `CertificateNames.ValidHostnameIff` | test-components/ingress-nginx/internal/net/ssl/ssl.go:474-489 | a certificate is for a name if and only if a common name is, but for case, the name itself or "*" and what follows the first label |
| `CertificateNames.WildcardCoversOneLabel` | test-components/ingress-nginx/internal/net/ssl/ssl.go:474-489 | a wildcard is for names with one label in front of the domain and not with two |
| `CertificateNames.RedirectsSpelled` | test-components/ingress-nginx/internal/ingress/controller/nginx.go:1149-1203 | every redirect comes from the host's name with "www." put in front or taken away, which no server has, and carries the certificate of a redirecting server of the host if and only if that is for both names |
| `CertificateNames.RedirectsComplete` | test-components/ingress-nginx/internal/ingress/controller/nginx.go:1149-1203 | every redirecting host whose other name no server has is redirected to from that name |
| `Certificates.ConfigureAliases` | test-components/ingress-nginx/internal/ingress/controller/nginx.go:1013-1019 | an alias is told the server's certificate only if that is valid for the alias |
| `Certificates.ConfigureCertificates` | test-components/ingress-nginx/internal/ingress/controller/nginx.go:990-1025 | the posted maps: certificates by identifier, first one wins; identifiers by name, servers before redirects |
| `CertificateNames.HostPosted` | test-components/ingress-nginx/internal/ingress/controller/nginx.go:990-1012 | for a host name its certificate's identifier is posted, or "-1" |
| `CertificateNames.AliasPosted` | test-components/ingress-nginx/internal/ingress/controller/nginx.go:1013-1019 | for an alias of one server the certificate's identifier is posted if and only if that is for the alias, otherwise "-1" |
| `CertificateNames.AliasPresents` | test-components/ingress-nginx/rootfs/etc/nginx/lua/certificate.lua:48-71 | so an alias presents the server's certificate if that is for it, whatever was held before |
| `CertificateNames.FirstPemPosted` | test-components/ingress-nginx/internal/ingress/controller/nginx.go:990-1005 | under an identifier the certificate of the first server with it is posted |
| `Certificates.Dictionaries.TakeHosts` | test-components/ingress-nginx/rootfs/etc/nginx/lua/configuration.lua:83-103 | posted names replace or, for the empty identifier, delete entries; all others stay |
| `Certificates.Dictionaries.TakeCertificates` | test-components/ingress-nginx/rootfs/etc/nginx/lua/configuration.lua:105-127 | posted certificates replace entries; all others stay |
| `Certificates.Dictionaries.HandleServers` | test-components/ingress-nginx/rootfs/etc/nginx/lua/configuration.lua:65-136 | both, in whatever order the maps are walked |
| `Certificates.Dictionaries.GetPemCert` | test-components/ingress-nginx/rootfs/etc/nginx/lua/configuration.lua:56-63 | the lookup of the status endpoint, by the exact name only; under a held name in its normal form it answers exactly what a client of that name is presented |
| `Certificates.Dictionaries.GetPemCertUid` | test-components/ingress-nginx/rootfs/etc/nginx/lua/certificate.lua:48-71 | the identifier under the first held name among the client's name, in lower case and without a final dot, and its wildcard |
| `Certificates.Lookup` | test-components/ingress-nginx/rootfs/etc/nginx/lua/certificate.lua:48-71 | the handshake asks for the client's name, its wildcard and "_", in this order; a client without a name asks for "_" |
| `CertificateNames.NormalSpelled` | test-components/ingress-nginx/rootfs/etc/nginx/lua/certificate.lua:48-53 | the client's name is looked up in lower case, letter by letter, without a final dot |
| `CertificateNames.WildcardSpelled` | test-components/ingress-nginx/rootfs/etc/nginx/lua/certificate.lua:60-68 | and then with "*" for the first of several labels |
| `Certificates.Dictionaries.Call` | test-components/ingress-nginx/rootfs/etc/nginx/lua/certificate.lua:220-243 | the certificate of the first of these names that is held; if its certificate is not there, or none is held, the fallback |
| `CertificateProperties.PostIsPresented` | test-components/ingress-nginx/rootfs/etc/nginx/lua/certificate.lua:48-71 | after a post, whatever was held before, a client is presented what the post asks for, if the post names every candidate of the lookup up to the first with a certificate |
| `CertificateProperties.IndependentIffDecided` | test-components/ingress-nginx/rootfs/etc/nginx/lua/certificate.lua:48-71 | and only then: what a client is presented depends on nothing held before if and only if the post settles the lookup in this sense |
| `CertificateProperties.NothingStaleIsPresented` | test-components/ingress-nginx/rootfs/etc/nginx/lua/certificate.lua:48-71 | for any dictionaries: candidates that the post does not name do no harm if they are not held |
| `CertificateProperties.EqualPostSame` | test-components/ingress-nginx/internal/ingress/controller/nginx.go:990-1025 | servers that compare equal host by host post the very same maps |
| `CertificateProperties.FittingIsPresented` | test-components/ingress-nginx/internal/ingress/controller/nginx.go:990-1037 | when the servers last told fit those wanted, a client is presented what the wanted ones ask for, if they settle its lookup |
| `CertificateProperties.HostPresentsItsCertificate` | test-components/ingress-nginx/internal/ingress/controller/nginx.go:990-1037 | if names are apart (as `GetConfiguration` makes them) and identifiers determine certificates, a host with a certificate presents it after the post, whatever was held, to every spelling of its name |
| `CertificateProperties.BareHostPresentsWildcard` | test-components/ingress-nginx/rootfs/etc/nginx/lua/certificate.lua:60-68 | a host without a certificate presents that of the server for its wildcard name |
| `CertificateProperties.BareHostPresentsDefault` | test-components/ingress-nginx/rootfs/etc/nginx/lua/certificate.lua:233-243 | and without one the catch-all server's, provided that no wildcard entry is left over |
| `CertificateProperties.LeftoverWildcardIsPresented` | test-components/ingress-nginx/rootfs/etc/nginx/lua/configuration.lua:83-103 | otherwise: the certificate of a wildcard server that is gone is presented, for any servers and whatever was held before |
| `CertificateProperties.StaleWildcardIsPresented` | test-components/ingress-nginx/rootfs/etc/nginx/lua/configuration.lua:83-103 | a counterexample: after a deleted Ingress for "*.x" a host "a.x" without certificate presents the deleted certificate, and the post asks for the default one |
| `HashSize.BucketHoldsEveryName` | test-components/ingress-nginx/internal/ingress/controller/nginx.go:726-733 | the bucket is a power of two, at least 32, holds every server name, alias and redirect source with 18 bytes to spare, and is less than twice what the longest name and 25 bytes need |
| `Decimal.ReadPrint` | test-components/ingress-nginx/internal/ingress/controller/template/configmap.go:476-481 | reading a printed number gives the number |
| `Decimal.PrintInjective` | test-components/ingress-nginx/internal/ingress/controller/util.go:53 | different port numbers print differently |
| `DictSize.PrintedIn` | test-components/ingress-nginx/internal/ingress/controller/template/configmap.go:476-481 | a whole number of megabytes is printed with "M", any other size in kilobytes with "K" |
| `DictSize.AcceptedIff` | test-components/ingress-nginx/internal/ingress/controller/template/configmap.go:464-469 | exactly digits with at most one of k, K, m, M after them are accepted |
| `DictSize.ReadIn` | test-components/ingress-nginx/internal/ingress/controller/template/configmap.go:469-472 | k and K are read as kilobytes; m, M and no letter as megabytes |
| `DictSize.RoundTrip` | test-components/ingress-nginx/internal/ingress/controller/template/configmap.go:464-481 | for every int: printing and reading back gives it if and only if it is at least -1 |
| `DictSize.ReadsWhatIsMeant` | test-components/ingress-nginx/internal/ingress/controller/template/configmap.go:464-474 | an accepted size string is read as the number of kilobytes it means if and only if that is an int |
| `DictSize.ReadPrintRead` | test-components/ingress-nginx/internal/ingress/controller/template/configmap.go:464-481 | reading, printing and reading again gives what is meant if and only if that is an int |
| `DictSize.ReadingWraps` | test-components/ingress-nginx/internal/ingress/controller/template/configmap.go:469-472 | what megabytes are read as, for every numeral: the product modulo 2^64 |
| `DictSize.ReadingOverflows` | test-components/ingress-nginx/internal/ingress/controller/template/configmap.go:469-472 | a first family that is read wrong: sizes below 2^64 kilobytes that become negative |
| `DictSize.HugeReadAsSmall` | test-components/ingress-nginx/internal/ingress/controller/template/configmap.go:469-472 | a second: for every small size, strings that mean 2^64 kilobytes and more are accepted as it |
| `DictSize.ReadingClamps` | test-components/ingress-nginx/internal/ingress/controller/template/configmap.go:469-472 | a third: numerals beyond the largest int |
| `DictSize.PrintedNegative` | test-components/ingress-nginx/internal/ingress/controller/template/configmap.go:476-481 | a negative size is printed as the positive one with a sign |

## Left out

- RoutingPreserved: only servers that are rendered without regular expressions (`PlainIsRenderedPlain`); how nginx orders
  regular-expression locations is not modelled. The same holds of `RulesToNginx`, `NginxToRules` and `AcceptedIffNoClash`.
- RequestReachesFirstClaimant: Ingresses without rewrite and regular-expression annotations, and claims that keep apart;
  when they do not, nginx refuses the server (`BuiltAcceptedIff`). A custom default backend can replace the backend of a
  location whose upstream has no endpoints (controller.go:836-850); endpoints are not part of the model, and the result
  speaks of the location's backend before that. The same holds of `ShadowedGoesNowhere`.
- UpdateServerLocations: the location objects of one server are required to be distinct, as the builder makes them.
- FirstClaimWins: under the hypothesis that no upstream name is computed both for a canary and for another Ingress;
  names are formatted, so different services can share one, and then an upstream without server hides the other's paths.
  The same holds of `FirstPathWins`, `RootGoesToFirst` and `CatchAllGoesToFirst`.
- CanaryMergeIntegrity: under the same hypothesis, which `SharedNameFails` shows to be needed; for arbitrary names
  `BuiltMergeFailsIff` says exactly when the merge fails. Of a canary rule without HTTP section it says nothing, because
  `GetBackendServers` has failed there already.
- NoLostUpdate: one worker, a clock that never goes back, no shutdown; `ClockSetBackLoses` and `ShutDownLoses` show
  that the last two are needed. The results on skipped elements have the same hypotheses.
- PortsToldApart: port names that are no numerals, as Kubernetes demands.
- RetryConverges: a fixed target, which `MovingTargetDiverges` shows to be needed, and a start at which nginx serves the
  running configuration; `MovingTargetServesIff` and `FirstSuccessServesIff` say exactly what holds without these.
- Certificates.Dictionaries.Call: reading the PEM text, and the errors after which the handshake ends; the option that
  rejects a handshake without a certificate of its own; OCSP stapling.
- PostIsPresented: the lookup must be settled by the post, which `IndependentIffDecided` shows to be needed. The same
  holds of `FittingIsPresented` and `RetryPresents`.
- StoredWasAdmitted: fixed flags and IngressClasses, IgnoreIngressClass off, and every event's old object is the last
  version seen; `IgnoringClassKeepsForeign` shows that the flag matters. `GoneFromBoth` and `StoreIsExact` likewise.
- BucketHoldsEveryName: for names of up to 2^32 - 25 bytes, where rounding is sound; lengths are unbounded numbers,
  and only the arithmetic of nextPowerOf2 itself is done on 64-bit words.
- CleanConf: the brace depth is an unbounded number; the flag that indents empty lines is the constant true of the source.
- Compare: nil elements, elements of another dynamic type and Go arrays (on which the original's IsNil panics).
- CompareConfigurations: pointer identity as a shortcut (and, for the field Denied, as the comparison) and nil elements;
  configurations are compared as values. The annotation settings that leaf types compare field by field are one opaque
  string each, and so are the hashes, file names and times of a certificate.
- SyncLoop.Controller.SyncIngress: the configuration is a newly built object, as getConfiguration returns it. Rate
  limiting, metrics, events, the pause before the first configuration, back-off times and the early return during
  shutdown are left out; a reload covers building, testing and writing the file.
- IngressStore.Store.SyncIngress: extraction of annotations.
- IngressStore: resynchronising Secrets, ConfigMaps, Services and endpoints, tombstones, notification of the controller.
- WorkQueue: of the Kubernetes queue only its sets, order and delayed additions; rate-limiting delays and other workers.
- Builder: Location, Server and Backend objects are values in the maps, so the sharing of one object by a map and by a
  caller is not captured; endpoints, services, ports, annotations, session affinity, certificates, server snippets and
  the client-certificate settings are left out.
- GetBackendServers: upstreams for custom default backends and the SSLPassthrough mark of an upstream.
- GetConfiguration: everything but aliases and passthrough entries is given; the set of hosts for the metrics.
- Sorting: sort.SliceStable itself, which sorts in place; the model is the function its contract determines.
- UpdateStatus: the update requests to the API server and the ports of an address.
- BuildRedirects: case folding of certificate names beyond ASCII.
- HandleServers: a dictionary that is full, and with it a post that is taken in only in part; the cache of OCSP responses.
- nginx processes, files, certificate parsing, the network, the other Lua code, template rendering, leader
  election, informers, Prometheus collectors, the command-line tools and the annotation parsers: plumbing, or libraries
  whose code is not here.
- serverNameHashMaxSize and the other sizes of the template: further uses of nextPowerOf2.
