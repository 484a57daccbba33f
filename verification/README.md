# Archetype proxy server: a verified model

The archetype proxy server is an attested reverse proxy. Clients talk to it through an attested
session; it decrypts their requests and WebSocket messages, picks an upstream by host and path from
a table that Docker and Kubernetes feed, and seals the upstream's answers. This project models the
parts of it that have state or depend on an order of events, and proves what they promise.

| file | models |
|---|---|
| `Aead.dfy`, `Bytes.dfy` | per-record nonces, big-endian fields, XOR; what is assumed of the cipher |
| `WsFrames.dfy`, `WsBridge.dfy`, `BridgeLaws.dfy` | the attested WebSocket frame and the two pump loops of the bridge |
| `StreamFrames.dfy`, `SealedStream.dfy`, `Hex.dfy` | the framed response stream, its hash chain and its decoder |
| `ResponseStream.dfy`, `RequestCap.dfy`, `Usize.dfy` | the capped response body and the request size limits, with saturating machine arithmetic |
| `Routes.dfy`, `RouteLaws.dfy`, `RouteMeaning.dfy` | the sorted route table and the route it picks |
| `Watch.dfy`, `Providers.dfy`, `RouteManager.dfy`, `Discovery.dfy` | watcher stores, provider loops, the manager, and all of them with the bounded queue as one interleaved system |
| `Labels.dfy`, `LabelLaws.dfy`, `Tokens.dfy` | container labels as routes |
| `Zones.dfy` | the DNS zone of a challenge record, with its cache |
| `CertCache.dfy`, `AcmeManager.dfy`, `Challenges.dfy` | the two-file certificate cache under crashes, issuance, and the challenge maps under concurrent tasks |
| `Metrics.dfy` | the upstream counters and the latency histogram under interleaved handlers |
| `Prelude.dfy`, `Ordered.dfy` | option and result types, subsequences, ordered-map iteration |

## How to read it

Code that updates things in place is a `method` or a `class` here, proved equal to a function of its
inputs or old state; the laws are lemmas about that function. Concurrent parts are state machines over
their atomic steps, and a law about them holds after every prefix of every sequence of steps.

The cipher is a parameter: any pair of functions `seal` and `open`. Results name what they need of it,
against the log of records the honest peer sealed: `Tagged` (16 octets longer), `Correct` (logged
records open), `Authentic` (nothing else opens). `Aeads.AssumptionsAreMet` shows the three can hold
together for every log. The hash of the response stream is a parameter too, with an assumption only on
the values the stream itself produces (`ChainDistinct`, which `CollisionFreeChain` derives from
collision-freedom on them). PEM and X.509 reading are parameters of `CertCache`.

Strings stand for their UTF-8 octets, so lengths are octet lengths as in the source. Ordered maps are
walked in ascending key order.

## Where the code does not do what it says

- src/proxy.rs promises that the size cap bounds the streamed body. With a cap of the largest `usize`
  the saturating total can never exceed it: `CapHoldsExactly` gives the exact condition,
  `CapFailsAtLargest` a body that is let through.
- src/ws.rs caps the payload outbound and the whole frame inbound with the same constant, so a mirrored
  client refuses the largest 29 payload sizes the proxy will seal (`CapsDisagree`).
- src/ws.rs refuses repeated counters per bridge. Every bridge of a session starts its counters anew under
  the same keys, so the promise does not extend to a session with several (`TwoBridgesExactly`,
  `FrameNonces`).
- src/config.rs measures a prefix with its trailing slashes but matches without them, so two different
  prefixes can tie for the same request and input order decides (`TrailingSlashesClash`). Order never
  shows if and only if every such clash is hidden by a more specific route (`OrderFreeExactly`).
- src/discovery/labels.rs says route names may not contain dots. The code splits at the last dot, so
  they may, and `RoundTrip` holds for them.
- src/discovery/k8s.rs logs, when the watch streams end, that only file and environment routes are
  served. The last Kubernetes snapshot stays live beside them, and so do Docker's routes: the line is true
  if and only if both are empty (`EndedWatchStaysLive`), and `EndedWatchServesMore` is a run in which it is
  not. src/discovery/docker.rs logs the same when it cannot connect; after a lost connection its last
  snapshot stays live too.
- src/acme.rs promises that challenge responses are torn down whatever the outcome, and that the token
  store is empty except during a challenge. An early return from the authorization loop skips the
  teardown, and a DNS record whose removal fails stays: `ClearedExactly` says exactly when responses stay,
  for all three kinds of challenge, and `ResponseLeftBehind` shows one of each kind that does.
- src/acme.rs logs that a failed renewal will be retried in the next cycle. The renewal check reads the
  cache files, not the served certificate. A failed write can leave files that read as a certificate
  with time to spare, and then no renewal is due: `RetriedExactly` says exactly when, whatever the write
  left behind, and in `FailedRenewalForgotten` the served certificate expires meanwhile. Without such a
  failure the check does follow the served certificate (`DueTracksServed`).
- src/metrics.rs calls the buckets cumulative. They are whenever no observation is part done
  (`BucketsCumulative`), and need not be otherwise (`NotCumulativeMidway`); `CumulativeExactly` has the
  condition for every state. A scrape reads requests before the count, so it can show more observations
  than requests (`ScrapedCountAhead`, exactly when in `ScrapedCountExactly`).

## Model

| member | source | states |
|---|---|---|
| `Aeads.CounterOfNonce` | src/ws.rs:114-120 | extracting the counter from the nonce built for it gives it back, for every IV and 64-bit counter |
| `Aeads.NoncesDistinct` | src/ws.rs:111-120 | two records under one key have the same nonce only if they have the same counter |
| `Aeads.NonceOctets` | src/ws.rs:111-120 | octet by octet: four of the IV as they are, eight with the counter folded in, most significant first (section 5.3 of RFC 8446) |
| `Bytes.XorBits` | src/ws.rs:116-118 | exclusive or has a bit exactly where one of the two has it |
| `Bytes.BigEndianExample` | tests/frame_helper/mod.rs:182-183 | fields are read most significant octet first |
| `WsFrames.ExtractCounter` | src/ws.rs:114-120 | the XOR loop inverts the nonce construction |
| `WsFrames.DecodeInbound` | src/ws.rs:370-402 | verdict and counter floor for every frame and every floor; an accepted frame raised the floor |
| `WsFrames.BoundKey.Seal` | src/ws.rs:359-361 | records are numbered one by one and each uses the nonce of its number; the last number is never wrapped past |
| `WsFrames.EncodeOutbound` | src/ws.rs:350-366 | the frame is the sealing of tag and payload under the next number, and 29 octets longer than the payload |
| `WsFrames.SealedFrameLength` | src/ws.rs:41-42 | no sealed frame is refused as too short |
| `WsFrames.FrameNonces` | src/ws.rs:238-246 | two frames under a session's key share a nonce if and only if they share a number, so frames of one bridge never do and equally numbered frames of two bridges always do |
| `WsFrames.DecodeSealed` | src/ws.rs:370-402 | a frame with a fresh number decodes to its message with its text or binary tag, if and only if the message is readable |
| `WsFrames.DecodedWasSent` | src/ws.rs:370-402 | whatever decodes is, octet for octet, the frame of a message the client sealed, and the floor becomes its number |
| `WsFrames.ClassifyExactly` | src/ws.rs:392-401 | a plaintext is a text exactly if it is a zero octet and UTF-8, a binary message exactly if it starts with a one, and nothing otherwise |
| `WsBridge.TakeTurn` | src/ws.rs:251-288 | one turn of the client-to-upstream loop: what it sends, the floor, whether the loop ends |
| `WsBridge.ClientToUpstream` | src/ws.rs:249-290 | the loop does the turns of its events up to the first that ends it |
| `BridgeLaws.PumpExactly` | src/ws.rs:249-290 | on any events the loop passes on, in order, the message of every frame and the data of every ping and pong before the first item that ends it, and a close that ends it; and which items end it |
| `BridgeLaws.PumpEnds` | src/ws.rs:249-290 | every run of events has such a point |
| `BridgeLaws.NeutralItem` | src/ws.rs:272-287 | a plain text, ping or pong item anywhere in a run changes neither the messages forwarded nor the counter floor nor the end |
| `WsBridge.ForwardedWasSent` | src/ws.rs:249-290 | over a network that drops, repeats, reorders or inserts frames, the forwarded messages are an in-order, duplicate-free subsequence of those the client sealed, tags included |
| `WsBridge.ForwardsOnlySent` | src/ws.rs:249-290 | the same for any decoder that accepts only the client's messages under their numbers |
| `WsBridge.FaithfulDelivery` | src/ws.rs:249-290 | faithful delivery forwards exactly the messages before the first that is too large or not UTF-8, and all of them if and only if there is none |
| `WsBridge.ForwardableExactly` | src/ws.rs:249-290 | what the bridge can forward, over all networks: exactly the in-order choices of messages that fit the frame cap and are readable |
| `WsBridge.TwoBridgesExactly` | src/ws.rs:249-250 | over two bridges of one session, order and uniqueness hold on every network if and only if no message can be delivered at all |
| `WsBridge.EarlyFloorIsHarmless` | src/ws.rs:382-390 | moving the floor before authentication sends the same messages and ends the same way on every input as moving it after |
| `WsBridge.EarlyFloorMovesUnauthenticated` | src/ws.rs:382-390 | that holds only because the loop ends: on a forged frame the two floors part, and judge an honest frame differently |
| `WsBridge.RelayTurn` | src/ws.rs:294-335 | one turn of the upstream-to-client loop: what it writes, sealed or not, the key's number, whether the loop ends |
| `WsBridge.UpstreamToClient` | src/ws.rs:293-337 | the frames written are the sealings of the messages before its end, in order, numbered from one |
| `WsBridge.MirrorReads` | src/ws.rs:425-451 | a client that mirrors the decoder reads every such frame back in turn |
| `WsBridge.RelaysMessages` | src/ws.rs:293-337 | the messages sealed are exactly the upstream messages before the first event that ends the loop, and which events end it |
| `BridgeLaws.RelayExactly` | src/ws.rs:293-337 | on any events the loop writes, in order, every message sealed under its number, every ping and pong with its data, and a close that ends it |
| `WsBridge.RelayRecovered` | src/ws.rs:293-337 | a client that runs the inbound loop on the written frames gets exactly those messages, up to the first that its frame cap or UTF-8 test refuses |
| `WsBridge.CapsDisagree` | src/ws.rs:258-260 | which payloads the outbound cap passes and the inbound cap of a mirrored peer refuses |
| `Hex.DecodeEncode` | src/envelope.rs:24-35 | decoding the hex text of any octets gives them back |
| `Hex.DecodesExactly` | src/envelope.rs:31-34 | text reads as octets if and only if it is an even number of hex digits in either case, and then as those whose hex text it is |
| `Hex.HexExample` | src/envelope.rs:27-29 | the high digit of an octet comes first, in small letters |
| `StreamFrames.FromToWire` | src/envelope.rs:13-22 | a frame survives its wire form |
| `StreamFrames.DecodeFrames` | tests/frame_helper/mod.rs:167-247 | the decoder loop ends on every buffer, reads only inside it, and computes the recursive decoder |
| `StreamFrames.AcceptsHeadThenBodies` | tests/frame_helper/mod.rs:224-238 | frames that open are accepted if and only if they are one Head and then bodies |
| `SealedStream.SealSeals` | tests/frame_helper/mod.rs:163-166 | sealing frames one after the other gives a hash-chained stream that carries them |
| `SealedStream.AcceptsExactlyPrefixes` | tests/frame_helper/mod.rs:167-247 | the decoder accepts a byte string if and only if it is the sealed stream cut after one or more whole frames |
| `SealedStream.ReadsPrefix` | tests/frame_helper/mod.rs:178-246 | an accepted cut reads as the status and headers of its Head and the bodies it holds |
| `SealedStream.CollisionFreeChain` | tests/frame_helper/mod.rs:204-211 | without collisions on the stream's own hashes no two positions of the chain share a hash |
| `ResponseStream.ScanBodies` | src/proxy.rs:495-512 | the scan's items: body, over-cap error or read error, per chunk |
| `ResponseStream.RunningIsTotal` | src/proxy.rs:498 | the saturating total is the true total cut off at the largest `usize` |
| `ResponseStream.CapHoldsExactly` | src/proxy.rs:495-512 | the bodies sealed are the longest prefix of good chunks within the cap, if and only if the cap is below the largest `usize` or the good chunks fit in it |
| `ResponseStream.CapFailsAtLargest` | src/proxy.rs:498-499 | three chunks over the largest cap that are all sealed |
| `ResponseStream.OverCapStaysOver` | src/proxy.rs:498-501 | after an over-cap chunk no chunk becomes a frame |
| `ResponseStream.ReadFailureIsForgotten` | src/proxy.rs:506-509 | after a read error one can: the body is a prefix only because sealing stops at the first error |
| `ResponseStream.EndToEnd` | src/proxy.rs:478-517 | from upstream chunks through cap, sealing, wire and decoder, the client reads exactly the response view: the refusal, or status, headers and the bodies within the cap |
| `ResponseStream.WholeBodyIffFits` | src/proxy.rs:495-512 | without read errors the client gets the whole body if and only if it fits the cap |
| `ResponseStream.TruthfulLengthNeverCut` | src/proxy.rs:478-517 | with a truthful Content-Length the client gets all of the body or the proxy's own refusal, never a part |
| `RequestCap.Admit` | src/proxy.rs:114-137 | no envelope, compact or not, makes the proxy forward a body over the limit |
| `RequestCap.ForwardsExactly` | src/proxy.rs:114-137 | for any envelope, a body is forwarded if and only if the envelope is within the cap, its hex text decrypts to it, and it is within the limit |
| `RequestCap.HonestRequest` | src/proxy.rs:114-128 | the exact verdict on the compact envelope of every body: forwarded up to the limit, refused after decryption up to 23 octets above it, before decryption beyond that unless the cap arithmetic saturated |
| `Routes.NewTableSorts` | src/config.rs:736-742 | the table is a permutation of the routes, most specific first, ties in input order |
| `Routes.SelectIsBest` | src/config.rs:736-748 | first match in any stably sorted table is the best match in the unsorted list |
| `RouteLaws.LookupIsBest` | src/config.rs:696-748 | the answer is the matching route of greatest specificity, the earliest of those, and none if and only if nothing matches |
| `RouteMeaning.HostMeans` | src/config.rs:702-704 | hosts are the same up to the case of ASCII letters |
| `RouteMeaning.PrefixMeans` | src/config.rs:712-726 | a prefix without a slash at its end matches itself and what goes on behind it with a slash, and nothing else |
| `RouteMeaning.SlashesDoNotMatter` | src/config.rs:717-720 | slashes at the end of a prefix change nothing, and slashes alone match every path |
| `RouteMeaning.MatchesMeans` | src/config.rs:701-709 | a route matches exactly the requests for its host, in any case, or any host if it has none, whose path lies under its prefix by whole segments |
| `RouteMeaning.PreferredMeans` | src/config.rs:67-72 | which of two routes is more specific: one with a host, then one with a longer prefix, then a discovered one over one from the file |
| `RouteMeaning.LookupMeans` | src/config.rs:696-748 | in these terms: the answer is the preferred route for the request, the earliest of equals, and none if and only if no route is for it |
| `RouteLaws.ClashMeansBothMatch` | src/config.rs:701-726 | equally specific routes that match one request clash |
| `RouteLaws.ClashingBothMatch` | src/config.rs:701-726 | clashing routes do match a common request |
| `RouteLaws.OrderFreeExactly` | src/config.rs:696-748 | every permutation of any number of routes gives every request the same answer, if and only if every clash of two different routes is covered by a more specific route that matches their common request |
| `RouteLaws.OrderIndependent` | src/config.rs:696-748 | so without clashes every permutation gives every request the same answer |
| `RouteLaws.PairOrderExactly` | src/config.rs:736-748 | for two routes, where nothing can cover a clash, both orders agree on all requests if and only if the routes are equal or do not clash |
| `RouteLaws.PlainRulesDoNotClash` | src/config.rs:696-726 | routes with distinct rules and no trailing slashes do not clash, so their order never shows |
| `RouteLaws.TrailingSlashesClash` | src/config.rs:698-717 | routes that clash though their prefixes differ, because of trailing slashes |
| `RouteLaws.MatchedGetsAsSpecific` | src/config.rs:696-748 | a request some route matches gets one at least as specific |
| `RouteLaws.OverriddenNeverSelected` | src/config.rs:67-72 | a file route that shares host and prefix with a discovered one is never selected |
| `Watch.AnnotationsReadBack` | src/discovery/k8s.rs:43-59 | a route written as annotations reads back, field by field |
| `Watch.OptsInExactly` | src/discovery/k8s.rs:47-50 | an object gives a route if and only if a true token opts it in and it names an upstream |
| `Watch.ObjectKeysDistinct` | src/discovery/k8s.rs:136-141 | object keys tell namespaced objects apart |
| `Watch.KindStore.Apply` | src/discovery/k8s.rs:182-213 | the new store, and that the answer is true exactly when the committed routes changed |
| `Watch.StepReflects` | src/discovery/k8s.rs:182-213 | an event keeps the store a reflection of the cluster, and which inconsistent events break it |
| `Watch.InitApplyReflects` | src/discovery/k8s.rs:188-195 | during a listing it stays one exactly when the listing does not name an opted-in object again without its opt-in |
| `Watch.StoreTracksCluster` | src/discovery/k8s.rs:153-213 | at every point of every well-formed stream, interrupted listings included, the committed routes are those of the opted-in objects known, and the buffer those of the listing |
| `Watch.ListingIsInvisible` | src/discovery/k8s.rs:184-195 | during a listing the committed routes stay at the last snapshot |
| `Providers.RunWatcher` | src/discovery/k8s.rs:267-310 | the watch loop's sends, and that what it sent last is current |
| `Providers.WatcherSendsChanges` | src/discovery/k8s.rs:296-309 | no snapshot is sent twice in a row |
| `Providers.OnOpTracks` | src/discovery/k8s.rs:283-309 | the last-sent snapshot is the current one, or nothing was sent and both stores are empty, or the current one is about to be sent |
| `Providers.RunPoller` | src/discovery/docker.rs:96-146 | the poll loop's sends |
| `Providers.ConnectedExactly` | src/discovery/docker.rs:100-143 | the loop holds a connection if and only if it connected in some turn and every poll since has succeeded |
| `Providers.PollerSendsChanges` | src/discovery/docker.rs:121-144 | across failed polls and reconnects, the last send is the newest successful poll and no snapshot is sent twice in a row |
| `RouteManagers.RouteManager.Recompute` | src/discovery/mod.rs:58-64 | the live table is the table of file routes and all snapshots |
| `RouteManagers.RouteManager.Run` | src/discovery/mod.rs:67-79 | after any updates the manager holds each provider's last snapshot and the table for them |
| `Ordered.ValuesByKey` | src/discovery/mod.rs:60 | the values of an ordered map come in the order of their keys |
| `Ordered.LessMeans` | src/discovery/mod.rs:60 | which is the order of octets: a start before what it starts, and otherwise the first difference |
| `RouteManagers.MergedTwo` | src/discovery/mod.rs:58-64 | the merged order is file routes, then Docker's, then Kubernetes' |
| `Discovery.NextInv` | src/discovery/mod.rs:58-79 | every step of watcher, poller, queue and manager keeps the system invariant |
| `Discovery.QueueCarriesTheDifference` | src/main.rs:149-156 | at every point of every interleaving the queued updates, received in order, turn the manager's snapshots into exactly those last sent |
| `Discovery.LiveTableConverges` | src/discovery/mod.rs:58-79 | whenever nothing is on its way, the live table is the table for file routes, the newest Docker poll and the opted-in cluster objects |
| `Discovery.QuietTableHolds` | src/discovery/k8s.rs:291-295 | in every such state the table holds one route for each file route, each polled route, each opted-in service and each opted-in ingress, and no other, services before equally specific ingresses |
| `Discovery.PollIsServed` | src/discovery/docker.rs:121-136 | a successful poll gets its routes served through the queue |
| `Discovery.FailureIsInvisible` | src/discovery/k8s.rs:274-280 | a watch error or failed poll anywhere in a run changes nothing |
| `Discovery.SendsWhileRoom` | src/main.rs:149 | a provider with something to send waits if and only if sixteen updates are queued |
| `Discovery.Settles` | src/main.rs:149-156 | without new events, in whatever order the sends and receives happen: no schedule has more than twenty steps, one more is possible until nothing is on its way, full queue included, and then the desired routes are served |
| `Discovery.EndedWatchStaysLive` | src/discovery/k8s.rs:310-314 | after the watch streams end the routes of the objects known then stay live in every later state with nothing on its way; the table is that of the file routes alone if and only if none of those objects was opted in and the newest Docker poll gave nothing |
| `Discovery.EndedWatchServesMore` | src/discovery/k8s.rs:310-314 | one opted-in service and then the end of the watch: more than the file routes is served |
| `Discovery.FileRoutesAlwaysServe` | src/discovery/mod.rs:58-79 | in every reachable state a request a file route matches gets a route at least as specific |
| `Discovery.DiscoveredOverridesFile` | src/config.rs:67-72 | in every reachable state a file route with the host and prefix of a live discovered route is not selected |
| `Tokens.ParseBoolMeans` | src/config.rs:75-84 | a text reads as true or false if and only if it is one of the four tokens for that, in any case, with white space around it |
| `Tokens.LowerCharTable` | src/config.rs:79 | lower case changes the capital ASCII letters and nothing else |
| `Labels.RoutesFromLabels` | src/discovery/labels.rs:32-115 | the grouping and emitting loops give the routes and warnings of the parser function, in order |
| `LabelLaws.OptsInExactly` | src/discovery/labels.rs:38-44 | a container is opted in if and only if its enable label is there and says a true token |
| `LabelLaws.NotOptedIn` | src/discovery/labels.rs:38-44 | one that is not gives no route and no warning, whatever else its labels say |
| `LabelLaws.GroupedExactly` | src/discovery/labels.rs:51-66 | a field is in its group if and only if some label sets it, with the value of the last that does |
| `LabelLaws.OneFatePerGroup` | src/discovery/labels.rs:70-87 | every group of an opted-in container gives exactly one route or exactly one missing-upstream warning, never both |
| `LabelLaws.FatesAddUp` | src/discovery/labels.rs:70-87 | routes and warnings together are as many as the groups |
| `LabelLaws.OtherWarnings` | src/discovery/labels.rs:58-61 | a route label is reported as malformed exactly if no dot follows the prefix, and a container as without routes exactly if it has none |
| `LabelLaws.UnreadStrictness` | src/discovery/labels.rs:75-78 | a strictness that is no token falls back to the container's default |
| `LabelLaws.RoutesOfContainer` | src/discovery/labels.rs:38-112 | the implicit route appears exactly when no group names an upstream and a top-level one is there |
| `LabelLaws.ShortOfAscii` | src/discovery/labels.rs:117-119 | of an ASCII container id the first twelve octets are kept |
| `LabelLaws.RouteNamesDistinct` | src/discovery/labels.rs:80 | distinct groups never share a route name |
| `LabelLaws.GroupsReadBack` | src/discovery/labels.rs:51-66 | grouping rendered labels gives the declared fields back; names, dots and all, never merge |
| `LabelLaws.RoundTrip` | src/discovery/labels.rs:32-115 | parsing labels that declare a non-empty map of routes, among whatever other labels, gives exactly those routes in name order and no warning |
| `LabelLaws.RenderRenders` | src/discovery/labels.rs:4-13 | every map of declarations has a rendering: no two declared fields share a label |
| `LabelLaws.RenderParses` | src/discovery/labels.rs:32-115 | rendering any non-empty map of declared routes, with or without a strictness default, and parsing it gives those routes in name order and no warning |
| `LabelLaws.ImplicitRoundTrip` | src/discovery/labels.rs:90-105 | a single unnamed route written as top-level labels reads back as the implicit route, with no warning |
| `Zones.BaseOfRecord` | src/acme.rs:149-152 | the zone of a challenge record is looked up from its domain, and a wildcard shares the record of the name it stands for |
| `Zones.JoinLabels` | src/acme.rs:383-391 | splitting a well-formed name at its dots and joining gives it back |
| `Zones.NormalIsBase` | src/acme.rs:384-387 | leaving out empty labels changes nothing in a name that has none |
| `Zones.CandidatesAreSuffixes` | src/acme.rs:383-391 | the candidates are exactly the non-empty label suffixes of the name, for every record name |
| `Zones.CandidatesShrink` | src/acme.rs:383-391 | they come in strictly decreasing length |
| `Zones.CloudflareDnsProvider.ResolveZoneId` | src/acme.rs:393-432 | the lookup loop with its cache, which it keeps sound; a configured zone answers at once |
| `Zones.ResolvesLongest` | src/acme.rs:393-432 | whatever is cached and whichever lookups fail, an answer is the zone of the longest label suffix that is one, and "no zone" means there is none |
| `Zones.ZoneIsFound` | src/acme.rs:393-432 | the zone of a name is found unless a lookup for a suffix at least as long fails |
| `Zones.FoundIsRemembered` | src/acme.rs:420-425 | a zone once found is answered from the cache, failing only if a lookup for a longer suffix does |
| `Zones.DomainResolves` | src/acme.rs:393-432 | the record of a domain, wildcard or not, goes to the zone of the longest label suffix of that domain |
| `Zones.RunAgrees` | src/acme.rs:393-432 | in every run of lookups against fixed zones, every answer and every error is that of a resolver without a cache, except that a cached zone no longer fails |
| `CertCache.ServedCertifies` | src/acme.rs:673-695 | over any number of issuances, crashes and restarts, from any files and with torn writes, the served certificate has its own key |
| `CertCache.ServedAsIssued` | src/acme.rs:582-601 | with writes that tear as files do, what is served is always a whole pair the authority issued together; no crash point mixes two |
| `CertCache.CrashPoints` | src/acme.rs:597-601 | with a new key pair for the new certificate, a restart after a crash serves the old pair before the first write, nothing between the two, the new pair after the second, if not near their end |
| `CertCache.RestartResumes` | src/acme.rs:673-695 | after a crash and a restart the certificate the cache holds is served again, unless it is near its end |
| `CertCache.RetriedExactly` | src/acme.rs:868-890 | a failed renewal is due again at any later check if and only if the files it leaves, torn or whole, do not read as a certificate with time to spare; if it was due, that takes one that got to writing |
| `CertCache.DueTracksServed` | src/acme.rs:868-890 | over runs in which every issuance that returns succeeded or wrote nothing, crashes allowed, the cache holds the served certificate and renewal is due exactly when that is near its end |
| `CertCache.FailedRenewalForgotten` | src/acme.rs:868-890 | a failed renewal with its key file left empty: none is due for two months while the served certificate expires |
| `AcmeManagers.AcmeResolver.Resolve` | src/tls.rs:254-266 | an `acme-tls/1` handshake gets the validation certificate for its name or nothing and never the production certificate (section 3 of RFC 8737); any other gets the production certificate |
| `AcmeManagers.AcmeResolver.SetChallenge` | src/tls.rs:239-243 | adds or replaces one validation certificate |
| `AcmeManagers.AcmeResolver.ClearChallenge` | src/tls.rs:246-250 | removes one validation certificate |
| `AcmeManagers.Http01Tokens.Insert` | src/acme.rs:169-173 | adds or replaces one token |
| `AcmeManagers.Http01Tokens.Remove` | src/acme.rs:175-179 | removes one token |
| `AcmeManagers.DnsRecords.Publish` | src/acme.rs:193-196 | a published record is there |
| `AcmeManagers.DnsRecords.Cleanup` | src/acme.rs:198-199 | a removal takes one record away, or nothing when it fails |
| `AcmeManagers.AcmeManager.LoadCached` | src/acme.rs:673-695 | installs the cached pair exactly when both files are there, more than thirty days are left and the key is the certificate's; otherwise nothing changes |
| `AcmeManagers.AcmeManager.Cache` | src/acme.rs:597-601 | the files after each way the two writes can go |
| `AcmeManagers.AcmeManager.Respond` | src/acme.rs:765-813 | the authorization loop: tokens, validation certificates and DNS records put in place and listed, early returns included |
| `AcmeManagers.AcmeManager.TearDown` | src/acme.rs:818-827 | every listed token and domain is gone, and every listed record whose removal works; nothing else |
| `AcmeManagers.AcmeManager.Issue` | src/acme.rs:746-842 | the certificate obtained is served if and only if order, authorizations, download, key match and caching all go well, whatever was served before; otherwise the served one is unchanged; one that reaches finalization removes its own responses, as far as DNS lets it, and one that returns early leaves them behind |
| `AcmeManagers.AnsweredServes` | src/acme.rs:785-812 | every authorization the loop answers is answered with what was offered for it: the key authorization under its token, the digest under its domain, the value in the domain's record |
| `AcmeManagers.OthersUntouched` | src/acme.rs:746-827 | whatever an issuance does not list for teardown it leaves as it was |
| `AcmeManagers.ClearedExactly` | src/acme.rs:765-827 | for every kind of challenge, none of a run's responses remains, and none at all where there were none before, if and only if it got no order, or the authorization loop ran through and every published record can be removed, or it returned before anything was answered |
| `AcmeManagers.ResponseLeftBehind` | src/acme.rs:765-813 | one authorization answered and the next not fetched leaves the first one's token, validation certificate or DNS record |
| `AcmeManagers.SetUpOnlyListed` | src/acme.rs:765-813 | the authorization loop touches only what it lists for teardown |
| `Challenges.NoUpdateLost` | src/acme.rs:746-827 | in every interleaving of issuance tasks that hold the lock, the maps are the stored updates applied one after the other |
| `Challenges.FinishLeavesNothing` | src/acme.rs:816-827 | in every interleaving a run that finishes leaves none of its entries and every other slot as it found it |
| `Challenges.ResponsesServed` | src/acme.rs:765-816 | while a run waits for the authority, readers see all its responses |
| `Challenges.RunGoesThrough` | src/acme.rs:746-827 | a task that takes the lock, responds, finalizes and tears down ends with the lock free for the next |
| `Challenges.LostWithoutLock` | src/acme.rs:169-179 | without the lock an update can be lost |
| `Metrics.UpstreamMetrics.ObserveUpstreamLatency` | src/metrics.rs:79-88 | one observation adds one to each bucket it is within, to the count, and its microseconds to the sum |
| `Metrics.AloneObserves` | src/metrics.rs:79-88 | the atomic steps of one handler, undisturbed, amount to that |
| `Metrics.MicrosNearest` | src/metrics.rs:86 | a latency is summed to the nearest microsecond |
| `Metrics.FinishedTotals` | src/proxy.rs:425-447 | when no handler is still counting, the counters are exactly the requests sent, the replies, the failed replies, the replies within each bound, and their latencies together |
| `Metrics.CancelsHeld` | src/proxy.rs:427-432 | the handlers counted as cancelled are exactly those dropped while they waited for the upstream |
| `Metrics.CountersOrdered` | src/proxy.rs:425-447 | in every interleaving of handlers, cancelled ones included, errors are at most observations and observations at most requests |
| `Metrics.RequestsAccounted` | src/proxy.rs:425-447 | requests are those observed, in flight and cancelled |
| `Metrics.BucketsExact` | src/metrics.rs:79-88 | with no observation part done, each bucket is the number of observations within its bound |
| `Metrics.BucketsCumulative` | src/metrics.rs:79-88 | and the buckets ascend up to the count |
| `Metrics.CumulativeExactly` | src/metrics.rs:79-88 | in every reachable state a bucket is at most a wider one, or the count, if and only if no more handlers are part way between the two than have latencies between them |
| `Metrics.ScrapedErrors` | src/metrics.rs:90-158 | the errors a scrape reads are at most the count it reads later, on every run |
| `Metrics.ScrapedBuckets` | src/metrics.rs:141-148 | a bucket it reads is at most a wider bucket or the count read later, if no observation is part done by then |
| `Metrics.ScrapedCountExactly` | src/metrics.rs:90-158 | exactly when the count it reads is at most the requests it read before |
| `Metrics.ScrapedCountAhead` | src/metrics.rs:90-158 | a scrape that reads no request and one observation |
| `Metrics.NotCumulativeMidway` | src/metrics.rs:79-88 | while one is part done they need not |

## Left out

- The cipher, the hash, PEM and X.509: parameters with stated assumptions, not modelled inside. That a key matches its certificate is the library's check, taken as an equality of public keys.
- WsFrames.BoundKey.Seal: that the key refuses to seal once its 64-bit numbers are used up is assumed of the library.
- The library's stream sealer: its format is taken from the decoder and its comment, and it is taken to stop at the first error of the frame stream.
- The stable sort of the route table is the library's in-place sort; the model sorts values and does not capture the update in place.
- The teardown of the two bridge directions against each other, and the WebSocket handshake and URL building: either direction's run is modelled up to any end.
- The attestation handshake, request authentication, session registry and rate limits: library code.
- JSON text: the envelope reader and the frame reader are parameters that read what the compact writer writes.
- Concatenating the routes of several containers in one Docker poll: an append loop.
- DNS provider calls, hook commands and propagation waits: records are a set, a failed publish leaves none, and whether a removal works is an input.
- The account file of the ACME cache, order polling and the renewal timer: outcomes the model ranges over.
- Metrics.UpstreamMetrics.ObserveUpstreamLatency: counters are unbounded and latencies are reals, so the 64-bit wrap-around and floating-point rounding are not modelled.
- Metrics.CountersOrdered: handler steps are sequentially consistent; relaxed atomics across cores are not modelled.
- Challenges.NoUpdateLost: a task is cancelled only between updates, since no update awaits between its load and its store.
- White space outside ASCII around boolean tokens is not trimmed in the model.
- Configuration, command line, header filtering, Prometheus text and deployment files: case tables and plumbing.
