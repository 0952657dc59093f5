# Verified model of v2hub-api

v2hub-api stores subscriptions: ordered lists of proxy configs, external
subscription URLs and references to other subscriptions. It resolves a
subscription to a flat list of configs, keeps the store and its cache of
external content consistent under edits, limits and bans clients, and manages
the consent between providers and users. This project models that logic in
Dafny and proves what it keeps over every input and every run.

`dafny verify dfyconfig.toml` checks the whole project.

## How the model is laid out

| part | modules |
|---|---|
| reference graphs, stored data | `Graphs`, `Collections`, `Subscriptions` |
| the circular-reference check | `AdmissionCheck`, `AdmissionProperties`, `AdmissionVerdicts`, `FirstWalks`, `DepthProperties` |
| the resolver | `Resolver`, `ResolverInvariants`, `ResolverLimits`, `ResolverReach`, `ResolverWitness`, `ResolverPrefix`, `ResolverOrder`, `FirstVisits`, `ResolverFirstVisits`, `ResolverFailures`, `ResolverDepth`, `ResolverTruncation`, `ResolverDescription`, `RenderedEntries` |
| the subscription service and its rows | `SourceStore`, `SubscriptionService`, `SourceStoreProperties`, `ReplaceProperties`, `EditProperties` |
| limiter, bans, cache tiers | `RateLimiter`, `BanService`, `CacheService`, `CacheHistory` |
| provider consent | `ProviderAuthorization`, `ConsentProperties` |
| text: lines, base64, percent-decoding | `Text`, `Base64`, `ConfigParser`, `ParserProperties`, `SourceNormalization`, `PercentEncoding` |

Code that updates state step by step is modelled by classes whose methods do
the same (`AdmissionCheck.ReferenceChecker`, `Resolver.Resolution`,
`SubscriptionService.Service`, `RateLimiter.Limiter`, `BanService.Service`,
`CacheService.Cache`, `ProviderAuthorization.Service`) and by loops
(`ConfigParser.CollectLines`, `ResolverOrder.Deduplicate`,
`SourceNormalization.NormalizeSource`). Each method is proved to compute a
function on values; the lemmas are about those functions, and hence about every
run of the methods.

What stands for what:

- Tokens, URLs, digests, users and providers are numbers; equal numbers stand
  for equal texts. Digests are taken to be injective, and the id of a source,
  being the digest of its text, is tagged with the type of the source, which
  the text determines.
- What a URL delivers, which fetches fail and which URLs cannot be reached are
  inputs: a map from URLs to parsed lines, a set of failing sources, a set of
  unreachable URLs.
- Fetches that run concurrently finish in an order the model leaves open: the
  loop picks any pending one. A result proved equal to a function is therefore
  the same for every schedule.
- The clock is an argument of each limiter and ban operation. Redis drops a key
  at its expiry time.
- The character encoding is a parameter: a pair of functions of which the
  decoder undoes the encoder, and a lenient decoder that yields no more
  characters than bytes and keeps ASCII.
- A service call is atomic; a refused one rolls back to what it last committed.

## What the proofs show about the code

- The memo of the circular-reference check stores a depth budget and its
  comment says that a result is reused only where it is known to hold. The test
  accepts results verified with *more* budget, which is the wrong direction for
  the depth. `BudgetTestIsWithoutEffect` shows more: the stored budget never
  changes a verdict. Acyclicity is safe all the same; the depth limit is not
  enforced for subtrees met twice (`SharedSubtreeEscapesDepthLimit`). What the
  check does accept, `FirstWalks.AcceptsExactlyWhen` says of the graph alone.
- The check counts the target of a new reference as depth 0, the resolver counts
  it as depth 1, and the check never looks at what refers to the edited
  subscription, so an accepted chain can exceed the resolver's limit
  (`AcceptedChainExceedsResolverDepth`). A token counts at its first visit only;
  `DepthExceededExactlyWhen` and `AcceptedReferenceExceedsDepthExactlyWhen` say
  exactly when the flag is set and when an accepted reference sets it, for every
  resolution that is not truncated.
- For the same reason a subscription's `max_depth` filters apply at the depth of
  its first visit, and an eligible config can be lost without any flag
  (`FilteredConfigIsLost`, `EntryIsLostExactlyWhen`).
- Raising the limit on configs loses none (`RaisingTheLimitLosesNoConfig`), but
  the result under the smaller limit need not be a prefix of the larger one:
  the cut takes raw lines before duplicates are dropped, and configs can change
  places (`SmallerLimitMayReorder`). `GapDecidesPrefix` tells from the smaller
  run when that happens; `SmallerResultIsPrefixExactlyWhen` decides every case.
- A source whose fetch fails changes nothing but possibly the `truncated` flag
  (`FailuresAreIsolated`, `TruncationFlagMayDiffer`), and that only as
  `TruncationFlagsDifferExactlyWhen` says.
- A subscription at the source limit cannot be replaced by the very sources it
  holds (`FullSubscriptionCannotBeReplacedByItself`).
- The limiter bounds distinct millisecond timestamps, not requests
  (`BurstsAreAdmitted`). It bounds requests exactly when at most one is allowed
  or the window is empty (`RequestsAreBoundedExactlyWhen`), and on runs with at
  most one request per millisecond (`StrictClockBoundsRequests`).
- Violation windows do not slide (`ViolationsAcrossWindowsEscape`).
- Empty fetched content leaves an older L1 entry in place; that is the only way
  the tiers come to disagree (`RunStaysCoherentExactlyWhen`).
- The parser gives back what the public endpoint encodes exactly when there is
  nothing to encode or some scheme is written in lower case, since schemes are
  recognised in any case but searched for in lower case only
  (`ParseUndoesPublicTextExactlyWhen`). Spaces inside encoded text change nothing,
  but text wrapped with line feeds is taken for plain text and yields no config at
  all (`SpacedTextIsParsedAlike`, `WrappedTextYieldsNothing`). The URL-safe alphabet,
  which the documentation of the decoder names, is not decoded either
  (`UrlSafeTextYieldsNothing`).
- A replacement that is refused has by then removed the rows not requested, and
  keeps them removed (`RefusedReplacementKeepsTheRequested`).

## Model

| member | source | states |
|---|---|---|
| AdmissionCheck.ReferenceChecker.CheckCircularReference | src/v2hub_api/services/subscription_service.py:1095-1149 | The recursive check over its shared `visited` and `checked` returns the verdict, error included, and leaves the memo of the depth-first search; `visited` is restored whatever the verdict. |
| AdmissionProperties.ExploreKeepsMemoSafe | src/v2hub_api/services/subscription_service.py:1118-1149 | After every accepted exploration, memoised tokens refer only to memoised tokens and the edited subscription is not among them, however the memo is reused. |
| AdmissionProperties.AcceptedTargetDoesNotReachEdited | src/v2hub_api/services/subscription_service.py:1095-1149 | An accepted target has no path, of any length, back to the edited subscription; the memo never hides a cycle. |
| AdmissionProperties.AcceptedReferenceKeepsAcyclic | src/v2hub_api/services/subscription_service.py:1048-1052 | Adding an accepted reference to any acyclic graph leaves it acyclic. |
| AdmissionProperties.PlainSearchAcceptsExactlyBoundedWalks | src/v2hub_api/services/subscription_service.py:1112-1118 | The search without a memo accepts exactly the targets from which every walk makes at most `max_nesting_depth` steps and misses the edited subscription. |
| AdmissionProperties.ReuseWithNoMoreBudgetIsExact | src/v2hub_api/services/subscription_service.py:1104-1124 | Reusing only results verified with no more budget, which the depth claim needs, accepts exactly what plain search accepts. |
| AdmissionProperties.PlainAcceptedIsAccepted | src/v2hub_api/services/subscription_service.py:1120-1124 | The check as written rejects no target that plain search accepts. |
| AdmissionProperties.FinishedTokenAcceptedAgain | src/v2hub_api/services/subscription_service.py:1118-1149 | A token finished once is accepted whenever it is met again, by reuse or by a renewed search, as its references finished before it with nearly its budget. |
| AdmissionProperties.BudgetTestIsWithoutEffect | src/v2hub_api/services/subscription_service.py:1122-1124 | On every graph the check as written gives the same verdict, error and all, as one that explores each token once and ignores the budget. |
| FirstWalks.AcceptsExactlyWhen | src/v2hub_api/services/subscription_service.py:1095-1149 | The check accepts exactly the targets below which there is no cycle and no way back to the edited subscription, and each of whose references starts at a token first come to in fewer than `max_nesting_depth` steps. |
| FirstWalks.OnceSearchAcceptsExactlyWhen | src/v2hub_api/services/subscription_service.py:1112-1149 | Below a token without cycles, the search that explores each token once fails only by depth, and exactly when some first walk leaves no room for a reference. |
| FirstWalks.FirstWalksAgree | src/v2hub_api/services/subscription_service.py:1132-1145 | The walk that at each token takes the first reference leading to its end is unique, unless its end lies on a cycle. |
| FirstWalks.DecidesLikePlainSearchExactlyWhen | src/v2hub_api/services/subscription_service.py:1104-1124 | The check decides like plain search exactly unless the part below the target is acyclic, misses the edited subscription and has room at every first visit, and yet holds a walk longer than the limit. |
| AdmissionProperties.SharedSubtreeEscapesDepthLimit | src/v2hub_api/services/subscription_service.py:1122-1124 | A graph on which, with the default limit, the check accepts a target from which a walk exceeds the limit and plain search rejects it. |
| AdmissionProperties.EachTokenLoadedFewTimes | src/v2hub_api/services/subscription_service.py:1118-1149 | One check, accepted or refused, loads no token more than `max_nesting_depth` + 1 times, whatever the fan-in. |
| AdmissionVerdicts.VerdictsAreTrue | src/v2hub_api/services/subscription_service.py:1112-1118 | Whatever the check reports is there: a circular reference is a way back to the edited subscription or a cycle below the target, and too great a depth is a walk from the target of just that length. |
| ResolverDepth.DepthExceededExactlyWhen | src/v2hub_api/services/resolver_service.py:192-202 | On any graph, whatever the filters and failures: unless truncated, `depth_exceeded` is set exactly when a token first visited at the limit refers on at that depth. |
| ResolverDepth.UnfilteredDepthExceededExactlyWhen | src/v2hub_api/services/resolver_service.py:192-202 | On an acyclic visible graph, with nothing truncated, filtered or failing, that is exactly when the search that explores each token once, in index order, reports too great a depth: when a first walk to a token with references makes `max_nesting_depth` steps or more. |
| ResolverDepth.AcceptedReferenceExceedsDepthExactlyWhen | src/v2hub_api/services/subscription_service.py:1048-1091 | Where a root resolved within the limit, a reference the service has accepted, new or stored before, makes it exceed the limit exactly when some token at the limit now refers on, and that token is the edited one or was not first visited there before. |
| ResolverDepth.NewReferenceExceedsDepthExactlyWhen | src/v2hub_api/services/subscription_service.py:1048-1091 | For a new reference, exactly when that token was not first visited at the limit before, or it is the edited one and what it refers to is the new target. |
| ResolverDepth.UnfilteredNewReferenceExceedsDepthExactlyWhen | src/v2hub_api/services/subscription_service.py:1048-1091 | With nothing truncated, filtered or failing, exactly when a first walk through the edited subscription is then too long: the way to it counts, which the check does not look at. |
| DepthProperties.AcceptedReferenceKeepsWalksShortExactlyWhen | src/v2hub_api/services/subscription_service.py:1048-1052 | In a graph none of whose walks exceeds the limit, an accepted reference keeps it so exactly when every walk to the edited subscription leaves room for every walk from the target. |
| DepthProperties.ShortWalksResolveWithinDepth | src/v2hub_api/services/resolver_service.py:192-195 | While all walks respect the limit, no resolution of any root sets `depth_exceeded`. |
| DepthProperties.AcceptedChainExceedsResolverDepth | src/v2hub_api/services/resolver_service.py:192-195 | With both limits at 3, the service stores a reference from 1 to a chain of four and resolving 1 then sets `depth_exceeded`. |
| Resolver.Resolution.FetchAll | src/v2hub_api/services/resolver_service.py:244-281 | Whatever order the gathered fetches finish in, each source's outcome is filed under its own id. |
| Resolver.Resolution.ApplyConfigSource | src/v2hub_api/services/resolver_service.py:323-357 | A loaded config is appended once, with its data and the comment of the shared map as `ConfigEntriesSplitBack` and `CommentPrecedence` tell it; a source without a loaded config adds nothing. |
| Resolver.Resolution.ApplyExternalOutcome | src/v2hub_api/services/resolver_service.py:390-419 | The first `remaining` raw lines are taken, then those already seen are dropped; the truncation flag tells that lines were cut. |
| Resolver.Resolution.MergeRootComments | src/v2hub_api/services/resolver_service.py:468-470 | Whatever the order of the keys, comments are filled in exactly where the shared map has none or an empty one. |
| Resolver.Resolution.ApplyInternalOutcome | src/v2hub_api/services/resolver_service.py:444-479 | Merging the comments and then resolving the target one level deeper. |
| Resolver.Resolution.ApplySources | src/v2hub_api/services/resolver_service.py:292-317 | The sequential pass over the outcomes, stopped and flagged once the result is full; failed fetches are passed over. |
| Resolver.Resolution.ResolveRecursive | src/v2hub_api/services/resolver_service.py:167-317 | The recursion over the shared accumulator ends in the state of the depth-first function, with its checks in the code's order, for every schedule of fetches. |
| Resolver.ResolveSubscription | src/v2hub_api/services/resolver_service.py:136-165 | A resolution from a fresh accumulator has one result, whatever the schedule. |
| ResolverInvariants.ResolutionIsSound | src/v2hub_api/services/resolver_service.py:167-357 | In every resolution the digests are distinct, `seen_hashes` is exactly their set, at most `max_configs` entries are returned, and every comment in use is the first non-empty one in merge order. |
| ResolverInvariants.CommentsSettle | src/v2hub_api/services/resolver_service.py:468-470 | Once the shared map holds a non-empty comment for a digest, no later visit, however deep, changes it. |
| ResolverLimits.RaisingTheLimitLosesNoConfig | src/v2hub_api/services/resolver_service.py:402-419 | For every store and root, the digests resolved under a limit are among those resolved under any larger limit. |
| ResolverLimits.VisitSimulated | src/v2hub_api/services/resolver_service.py:188-227 | Through recursion, deduplication and the raw-line cut, the run with the larger limit has seen at least as much and has at least as much room left until the smaller one is full. |
| ResolverPrefix.SmallerResultIsPrefixExactlyWhen | src/v2hub_api/services/resolver_service.py:402-419 | For any two limits, the smaller result is a prefix of the larger one exactly when whatever the smaller run adds while lines that it alone cut away are outstanding is the next of their entries. |
| ResolverPrefix.GapDecidesPrefix | src/v2hub_api/services/resolver_service.py:402-419 | Told by the smaller run alone: with no cut that leaves room and drops a new digest, or with nothing added after the first such cut, the result is a prefix under every larger limit; when it goes on with anything but the dropped entry, it is a prefix under no limit that keeps the dropped line. |
| ResolverLimits.SmallerLimitMayReorder | src/v2hub_api/services/resolver_service.py:402-403 | A store whose result under limit 3 is not a prefix of that under limit 4: two configs change places. |
| ResolverReach.UncutResolutionIsExact | src/v2hub_api/services/resolver_service.py:192-227 | On any graph, cyclic or not, when nothing was cut, filtered by depth or failing, the visited tokens are exactly those the root reaches over visible references and the digests returned are exactly what those tokens contribute. |
| FirstVisits.FirstDepthsChart | src/v2hub_api/services/resolver_service.py:192-227 | The depths of first visits, computed from the references alone: the root is at 0, every other token one below a token referring to it there, none beyond the limit, and whatever a token above the limit refers to at its depth has a depth. |
| ResolverFirstVisits.FirstVisitsDecide | src/v2hub_api/services/resolver_service.py:192-227 | Unless truncated, whatever the filters, failures and cycles: a resolution visits exactly the tokens with a first depth and returns exactly the digests of the sources eligible at these depths. |
| ResolverFirstVisits.EntryIsLostExactlyWhen | src/v2hub_api/services/resolver_service.py:197-224 | Unless truncated, a digest is missing exactly when on every eligible path to it some token was first visited at a depth at which the path's source there is not eligible, or is too deep to be followed. |
| ResolverFirstVisits.FilteredConfigIsLost | src/v2hub_api/services/resolver_service.py:197-224 | A store on which an eligible config at the end of an eligible path is not returned and no flag tells; the path is obstructed at its end, which is first visited one level deeper. |
| ResolverWitness.EveryEntryIsWitnessed | src/v2hub_api/services/resolver_service.py:192-227 | With no assumption on limits, filters or failures, every entry comes from an eligible source at the end of a path of eligible references within the depth limit; so does each visited token; and `depth_exceeded` needs a longer path. A CONFIG entry carries the first non-empty comment among the maps merged so far, which include those of every subscription on its path. |
| ResolverWitness.CommentPrecedence | src/v2hub_api/services/resolver_service.py:338-345 | A CONFIG entry carries the root's comment when the root has a non-empty one, and no comment only when no subscription on the path to it has one. |
| RenderedEntries.ConfigEntriesSplitBack | src/v2hub_api/services/resolver_service.py:338-357 | Every CONFIG entry of every resolution splits back into the data of an eligible source that yields it and the first non-empty comment merged so far, stripped, or none; with a comment of the root it is the data, a `#` and that comment. |
| ResolverWitness.ShortWalksNeverExceedDepth | src/v2hub_api/services/resolver_service.py:192-195 | When no walk from the root is longer than the limit, `depth_exceeded` stays false. |
| ResolverOrder.UntruncatedResolutionIsDeduplicatedFlattening | src/v2hub_api/services/resolver_service.py:217-317 | Whenever `truncated` is false, the configs are the first occurrences, by digest, of the depth-first flattening in `order_index` order. |
| ResolverOrder.UntruncatedResolutionListsFirstOccurrences | src/v2hub_api/services/resolver_service.py:217-317 | The same without recursion: an increasing list of positions, exactly those at which a digest occurs for the first time, gives the result. |
| ResolverOrder.Deduplicate | src/v2hub_api/utils/config_parser.py:246-268 | The loop keeps the first config of each digest, in order; an untruncated resolution is what it makes of the flattening. |
| ResolverOrder.KeptFrom | src/v2hub_api/utils/config_parser.py:246-268 | Deduplication keeps exactly the entries at first positions of their digests, in their order. |
| ResolverFailures.FailuresAreIsolated | src/v2hub_api/services/resolver_service.py:260-317 | For any set of failing fetches, all results but the truncation flag equal those of the store with the failing sources deleted. |
| ResolverFailures.TruncationFlagsDifferExactlyWhen | src/v2hub_api/services/resolver_service.py:292-295 | Failing sources never clear the flag and change it only in a full result: the flags differ exactly when the run without them ends unflagged and full and a failing source is met after the result has become full. |
| ResolverFailures.TruncationFlagMayDiffer | src/v2hub_api/services/resolver_service.py:292-295 | A failing source met when the result is full sets the flag; deleted, it does not. |
| ResolverTruncation.TruncatedExactlyWhen | src/v2hub_api/services/resolver_service.py:292-295 | The flag is set exactly when there is no room at all, or some source is met when the distinct digests of the sources before it leave no room, or less than it has lines. |
| ResolverDescription.DescriptionIsTold | src/v2hub_api/services/resolver_service.py:211-212 | The description is that of a visited subscription, of the root if it has one of its own, and the domain exactly when none visited has one. |
| Subscriptions.SortByIndexIsStable | src/v2hub_api/services/resolver_service.py:217-224 | Sources with the same `order_index` keep their order. |
| Subscriptions.SortByIndexSorts | src/v2hub_api/services/resolver_service.py:217-224 | Sorting by `order_index` orders the sources and keeps each as often as it occurs. |
| Subscriptions.ReferencesFollowTheIndex | src/v2hub_api/services/subscription_service.py:1126-1145 | The check follows the references of a subscription by increasing index. |
| SubscriptionService.Service.AddConfigSource | src/v2hub_api/services/subscription_service.py:857-943 | An invalid config is refused; a stored one is updated where the request says so and its comment only when given; a new one is stored, with the domain as comment when none is given. |
| SubscriptionService.Service.AddExternalSource | src/v2hub_api/services/subscription_service.py:945-1018 | A URL no row has is fetched and cached first, and refused when it cannot be fetched; a URL some row has is added without a fetch. |
| SubscriptionService.Service.AddInternalSource | src/v2hub_api/services/subscription_service.py:1027-1093 | An unknown target is refused, then whatever the circular-reference check refuses, also when the reference is stored already; otherwise the row with its id is updated or added. |
| SubscriptionService.Service.AddSourcesInternal | src/v2hub_api/services/subscription_service.py:770-839 | The loop with its own record of seen ids does what counting the stored ids would: blank sources are skipped without an index, the limit is tested before each source, and the first error ends it. |
| SubscriptionService.Service.UpsertConfig | src/v2hub_api/db/repositories/source_repository.py:70-102 | Exactly the rows with the id change, settings only where given and the index always. |
| SubscriptionService.Service.CreateSubscription | src/v2hub_api/services/subscription_service.py:91-162 | With a refused source nothing is created. |
| SubscriptionService.Service.AddSources | src/v2hub_api/services/subscription_service.py:366-401 | All sources are added or none. |
| SubscriptionService.Service.DeleteFromCache | src/v2hub_api/services/subscription_service.py:350-360 | Exactly the rows of URLs whose only reference is going are deleted, in any order. |
| SubscriptionService.Service.RemoveSources | src/v2hub_api/services/subscription_service.py:467-528 | The rows named go, with the cache rows only they referred to; a caller who does not manage the subscription changes nothing. |
| SubscriptionService.Service.RequestedIds | src/v2hub_api/services/subscription_service.py:422-437 | The ids requested are found, or the request is refused, before anything is removed. |
| SubscriptionService.Service.ReplaceSources | src/v2hub_api/services/subscription_service.py:403-465 | Rows not requested are removed and that is committed; the requested ones are then added from index 0, and a refusal rolls back only the additions. |
| SubscriptionService.Service.DeleteSubscription | src/v2hub_api/services/subscription_service.py:309-348 | The subscription, every reference to it and the cache rows only it referred to are gone. |
| SourceStoreProperties.DeletedSubscriptionIsForgotten | src/v2hub_api/db/repositories/source_repository.py:122-123 | After a deletion nothing refers to the subscription, in the rows or in the reference graph, and every other row and comment of the other subscriptions is still there. |
| SubscriptionService.Service.RefreshSubscription | src/v2hub_api/services/subscription_service.py:666-764 | Whatever order the fetches finish in, the committed state is that of `Refresh`, whose rows `RefreshRemovesExactlyTheFailing` tells: each refetched URL has a cache row and those that failed lose their source. |
| EditProperties.RefreshRemovesExactlyTheFailing | src/v2hub_api/services/subscription_service.py:738-752 | A refresh by the owner succeeds and removes exactly the URLs not skipped that cannot be reached; the other rows keep their order, and other subscriptions, comments and owners stay. |
| EditProperties.RefreshCachesTheFetched | src/v2hub_api/services/subscription_service.py:666-764 | After a refresh each URL fetched has a cache row, unless it could not be reached and no other subscription holds it; other cache rows stay. |
| EditProperties.RemovalKeepsTheOthers | src/v2hub_api/services/subscription_service.py:467-528 | A removal by the owner succeeds and removes exactly the rows named; the other rows keep their order, and other subscriptions, comments and owners stay. |
| EditProperties.RefusedReplacementKeepsTheRequested | src/v2hub_api/services/subscription_service.py:403-465 | A replacement refused while adding leaves exactly the rows requested, in their order, and changes no other subscription, comment or owner. |
| EditProperties.UnrecognisedReplacementChangesNothing | src/v2hub_api/services/subscription_service.py:422-437 | With a source that is blank or not recognised a replacement is refused before anything is removed. |
| EditProperties.OwnersAreServed | src/v2hub_api/services/subscription_service.py:202-217 | Removing, deleting and refreshing succeed exactly for the owner. |
| EditProperties.StrangersAreToldWhy | src/v2hub_api/services/subscription_service.py:202-217 | Any other caller is told whether the subscription is missing or not theirs, and changes nothing. |
| EditProperties.CallsTouchOnlyTheirSubscription | src/v2hub_api/services/subscription_service.py:91-528 | No call but a deletion changes another subscription, or the owner or description of its own. |
| EditProperties.CreationIsAllOrNothing | src/v2hub_api/services/subscription_service.py:91-162 | A created subscription is the caller's and described as asked; a refused creation leaves nothing. |
| EditProperties.EmptyCreationSucceeds | src/v2hub_api/services/subscription_service.py:91-162 | Without sources a creation succeeds whatever the limit. |
| EditProperties.AddedRowsFollowTheRequest | src/v2hub_api/services/subscription_service.py:770-839 | After a successful addition the ids are those before and those requested; requested rows are indexed from the former number of rows on by their last occurrence among the requests that are not blank, and all others are as before. |
| EditProperties.NewRowHoldsTheRequest | src/v2hub_api/services/subscription_service.py:918-943 | A new row holds what was requested, is visible and three levels deep unless told otherwise. |
| EditProperties.StoredRowTakesTheSettings | src/v2hub_api/db/repositories/source_repository.py:70-102 | A row there is keeps what it holds, takes the settings given and keeps those not given. |
| EditProperties.CommentsFollowTheRequest | src/v2hub_api/services/subscription_service.py:857-943 | A config's comment is stored when given, and a new config without one gets the domain; no other comment changes. |
| EditProperties.ConfigsAndUrlsStoredExactlyWhen | src/v2hub_api/services/subscription_service.py:857-1018 | A config is stored exactly when it is valid, a URL exactly unless it cannot be reached and no subscription holds it. |
| EditProperties.ReferencesStoredExactlyWhen | src/v2hub_api/services/subscription_service.py:1027-1093 | A reference is stored exactly when its target exists, no cycle and no way back lies below it, and the references below it have room. |
| EditProperties.RefusedReferencesAreExplained | src/v2hub_api/services/subscription_service.py:1027-1093 | Not found means no such target, circular a cycle or a way back, too deep a walk that is too long. |
| EditProperties.RefusalsAreExplained | src/v2hub_api/services/subscription_service.py:770-839 | A refused addition reports the first request that cannot be stored after all those before it: no room, not recognised, not valid, not reachable, or what the reference check found. |
| SourceStoreProperties.StepKeepsInv | src/v2hub_api/services/subscription_service.py:309-528 | Each call, successful or refused, keeps: rows keyed by id, subscriptions within the limit, an acyclic graph, and cache rows exactly for the URLs held. |
| SourceStoreProperties.ReferencesStayAcyclic | src/v2hub_api/services/subscription_service.py:1048-1052 | Over every sequence of create, add, replace, remove, delete and refresh calls the internal references form no cycle. |
| SourceStoreProperties.CacheMirrorsLiveUrls | src/v2hub_api/services/subscription_service.py:337-360 | Over every such sequence the cache rows are exactly those of the external URLs some subscription holds: none is deleted too early, none is left behind. |
| SourceStoreProperties.LastReferencesExact | src/v2hub_api/db/repositories/source_repository.py:125-134 | Because rows are keyed by subscription and id, counting one row for an id means that no other subscription holds it. |
| SourceStoreProperties.SubscriptionsStayBounded | src/v2hub_api/services/subscription_service.py:787-837 | No reachable subscription holds more than `max_sources_per_subscription` sources, or two with one id. |
| SourceStoreProperties.AddOneAddsId | src/v2hub_api/services/subscription_service.py:806-837 | A successful addition adds exactly the id of the request, so the loop's `seen_ids` is always the set of stored ids. |
| ReplaceProperties.ReplacedRowsFollowTheRequest | src/v2hub_api/services/subscription_service.py:403-465 | After a successful replacement the stored ids are exactly those requested, and loading by `order_index` lists them by their last occurrence in the request. |
| ReplaceProperties.ReplacementIsLimitedExactlyWhen | src/v2hub_api/services/subscription_service.py:787-837 | Where no source is refused on its own account, a replacement is refused for too many sources exactly when the limit does not exceed the rows kept, or the distinct ids met before the last request. |
| ReplaceProperties.ConfigReplacementSucceedsExactlyWhen | src/v2hub_api/services/subscription_service.py:787-837 | A replacement by valid configs succeeds exactly when the limit exceeds the rows kept and the distinct ids met before the last request. |
| ReplaceProperties.FullSubscriptionCannotBeReplacedByItself | src/v2hub_api/services/subscription_service.py:787-796 | At the limit, a replacement by the sources already held is refused and changes nothing. |
| RateLimiter.Limiter.CheckLimit | src/v2hub_api/utils/rate_limiter.py:147-167 | One run of the script: expiry, pruning by score, the count, and the new entry with its renewed expiry. |
| RateLimiter.DecidesAsIfNothingWereForgotten | src/v2hub_api/utils/rate_limiter.py:147-167 | For every run with a non-decreasing clock each decision equals the one made from the full log of admissions: pruning and the 2W expiry are unobservable. |
| RateLimiter.KeyHoldsTheWindow | src/v2hub_api/utils/rate_limiter.py:147-167 | After each request the key holds exactly the admissions of the window, that of the request included. |
| RateLimiter.KeyExpiresAfterTwoWindows | src/v2hub_api/utils/rate_limiter.py:159-161 | The key expires two windows after the last admission, and without one there is none. |
| RateLimiter.AdmissionsAreBounded | src/v2hub_api/utils/rate_limiter.py:147-167 | No interval (a, a+W] contains more than `max_requests` distinct admitted timestamps. |
| RateLimiter.BurstsAreAdmitted | src/v2hub_api/utils/rate_limiter.py:159-161 | With room for two, all of any number of requests in one millisecond are admitted. |
| RateLimiter.RequestsAreBoundedExactlyWhen | src/v2hub_api/utils/rate_limiter.py:147-167 | On every run with a non-decreasing clock at most `max_requests` requests are admitted in any window, exactly when the configuration has room for at most one or an empty window. |
| RateLimiter.StrictClockBoundsRequests | src/v2hub_api/utils/rate_limiter.py:147-167 | When no two requests share a millisecond, at most `max_requests` requests are admitted in any window. |
| BanService.Service.IsBanned | src/v2hub_api/services/ban_service.py:53-83 | The answer follows the stored end of the ban and its key expiry; a ban that is over is dropped; other addresses keep their records. |
| BanService.Service.RecordViolation | src/v2hub_api/services/ban_service.py:173-211 | The counter is incremented in its window, opened by the first violation; the threshold bans and clears it; other addresses keep their records. |
| BanService.Service.BanIp | src/v2hub_api/services/ban_service.py:238-263 | A manual ban replaces an earlier one; a duration that is not positive changes nothing. |
| BanService.Service.UnbanIp | src/v2hub_api/services/ban_service.py:265-291 | Ban and counter are gone; the answer tells whether a ban was stored. |
| BanService.BannedExactlyDuringLatestBan | src/v2hub_api/services/ban_service.py:53-83 | Over any run of violations, bans, unbans and queries an address is banned at t exactly when its latest ban, not undone since, was made at b with t < b + duration. |
| BanService.LiveCounterCountsItsWindow | src/v2hub_api/services/ban_service.py:188-193 | A live counter equals the number of violations since its window opened, all inside it, and is below the threshold. |
| BanService.AutomaticBanExactlyWhen | src/v2hub_api/services/ban_service.py:188-205 | A violation bans exactly when it completes the `max_violations` of the window it falls in, where windows are told from the times of the events alone. |
| BanService.CounterIsHistory | src/v2hub_api/services/ban_service.py:188-205 | The stored counter and its expiry are the number of violations in, and the end of, the window that the history of events opened. |
| BanService.ViolationsAcrossWindowsEscape | src/v2hub_api/services/ban_service.py:188-193 | Three violations within two seconds that straddle two windows do not ban. |
| CacheService.Cache.GetFromCacheOnly | src/v2hub_api/services/cache_service.py:74-123 | L1 answers unless absent or empty, then L2, whose content is written back to L1. |
| CacheService.Cache.CreateOrUpdateCache | src/v2hub_api/db/repositories/external_cache_repository.py:30-53 | For any combination of content and error: content wins and keeps the error fields; an error alone keeps the content; with neither, an existing row stays; only the row of this URL changes. |
| CacheService.Cache.FetchAndCache | src/v2hub_api/services/cache_service.py:201-248 | Content goes to both tiers, empty content and errors to L2 only; over runs, `RowsTellTheHistory` and `ReadsReturnTheLastFetch` tell what is then stored and read. |
| CacheService.Cache.DeleteMultipleCaches | src/v2hub_api/services/cache_service.py:254-289 | Both tiers lose exactly the URLs named, in any order. |
| CacheService.Cache.Invalidate | src/v2hub_api/services/cache_service.py:125-147 | Both tiers lose the URL. |
| CacheService.CoherentMeansReadsAreL2 | src/v2hub_api/services/cache_service.py:92-123 | Reads return what L2 alone would, for all URLs, exactly when every usable L1 entry is its row's content. |
| CacheService.StepKeepsCoherenceExactlyWhen | src/v2hub_api/services/cache_service.py:201-248 | One event ends the agreement exactly when an empty fetch result meets a usable L1 entry. |
| CacheService.RunStaysCoherentExactlyWhen | src/v2hub_api/services/cache_service.py:92-248 | Over any run of reads, refreshes, expiries and deletions the tiers agree throughout exactly when that never happens. |
| CacheService.NonEmptyFetchesKeepReadsRight | src/v2hub_api/services/cache_service.py:92-123 | When no fetch delivers empty content, every read after every run returns what L2 alone would. |
| CacheHistory.RowsTellTheHistory | src/v2hub_api/db/repositories/external_cache_repository.py:30-53 | Over every run a row is stored exactly while its URL was fetched since its last deletion, and its content, last error and error count are those of the fetches since, told from the events alone. |
| CacheHistory.ReadsReturnTheLastFetch | src/v2hub_api/services/cache_service.py:74-123 | As long as no empty result meets a usable L1 entry, a read returns the text of the last successful fetch since the last deletion, or nothing; errors, reads and expiries in between change nothing. |
| CacheHistory.NonEmptyFetchesAreRead | src/v2hub_api/services/cache_service.py:201-248 | In particular over every run in which no fetched content is empty. |
| CacheHistory.ReadsWarmRedis | src/v2hub_api/services/cache_service.py:74-123 | A read changes no answer and no row, and what it answers, unless empty, L1 answers from then on. |
| CacheHistory.RedisKeepsAnswers | src/v2hub_api/services/cache_service.py:92-123 | L1 loses an answer only by expiry or deletion of its URL, and changes it only to what a fetch of it delivers. |
| ProviderAuthorization.Service.GrantAccess | src/v2hub_api/services/provider_authorization_service.py:154-226 | Approval within the quota; at the quota it is refused unless already approved. |
| ProviderAuthorization.Service.RevokeAccess | src/v2hub_api/services/provider_authorization_service.py:228-257 | The row becomes revoked and is kept; without a row the call is refused. |
| ProviderAuthorization.Service.DeleteAccess | src/v2hub_api/services/provider_authorization_service.py:93-131 | The row goes together with exactly the subscriptions the provider owns for this user. |
| ProviderAuthorization.Service.ApproveConnection | src/v2hub_api/api/endpoints/me.py:162-213 | Only a pending request is granted; an approved one is left, a revoked one refused. |
| ProviderAuthorization.Service.RejectConnection | src/v2hub_api/api/endpoints/me.py:232-290 | Only a pending request is rejected, as `RejectionKeepsSubscriptions` tells: revoked when subscriptions depend on it, deleted otherwise. |
| ProviderAuthorization.Service.CreateConnection | src/v2hub_api/api/endpoints/provider.py:97-168 | A missing or revoked row becomes pending; a pending or approved one stays; without an account nothing is stored. |
| ProviderAuthorization.Service.ProcessRequest | src/v2hub_api/api/endpoints/admin/provider_authorization.py:102-143 | The account is created; only a genuine invitation for a pair without a row adds a pending one. |
| ProviderAuthorization.RunKeepsQuotaAndOwnership | src/v2hub_api/services/provider_authorization_service.py:181-194 | Over every run of endpoint calls each user has at most `max_providers_per_user` approved providers, and every provider-owned subscription has an authorization row. |
| ProviderAuthorization.CallsApproveOnlyPending | src/v2hub_api/api/endpoints/admin/provider_authorization.py:162-207 | No endpoint turns a row approved unless it was pending and an approval was granted. |
| ProviderAuthorization.ApprovalPassesThroughPending | src/v2hub_api/api/endpoints/provider.py:119-157 | Between a state in which a pair is not approved, revoked for one, and a later one in which it is, the pair has been pending. |
| ProviderAuthorization.RevokeAndReconnectRestores | src/v2hub_api/services/subscription_service.py:219-253 | While revoked, exactly the provider's subscriptions are hidden from the user's listing; revoking, connecting again and approving restores the state and the listing. |
| ConsentProperties.RejectionKeepsSubscriptions | src/v2hub_api/api/endpoints/me.py:262-283 | A rejection, by the user of a pending request or by an administrator of any, removes no subscription; the row is revoked exactly when the provider owns one for the user and gone otherwise, and no other row changes. |
| ConsentProperties.RowsAppearExactlyWhen | src/v2hub_api/api/endpoints/provider.py:97-168 | A row appears, as pending, exactly by a known user's connection or a genuine invitation. |
| ConsentProperties.RowsGoExactlyWhen | src/v2hub_api/api/endpoints/admin/provider_authorization.py:226-282 | A row goes exactly by the provider's deletion, or by a rejection when no subscription depends on it. |
| ConsentProperties.RowsReturnExactlyWhen | src/v2hub_api/api/endpoints/provider.py:119-157 | A row becomes pending again exactly when it is revoked and the provider connects anew. |
| ConsentProperties.RowsAreApprovedExactlyWhen | src/v2hub_api/services/provider_authorization_service.py:181-194 | A row becomes approved exactly when it is pending, the user or an administrator approves it, and the quota has room for one more. |
| ConsentProperties.RowsAreRevokedExactlyWhen | src/v2hub_api/services/provider_authorization_service.py:228-257 | A row becomes revoked exactly by a revocation, or by a rejection when some subscription depends on it. |
| ConsentProperties.CallsTouchOnlyTheirPair | src/v2hub_api/services/provider_authorization_service.py:93-257 | No call changes the row of another provider or user. |
| ConsentProperties.AcceptedExactlyWhen | src/v2hub_api/api/endpoints/me.py:162-290 | Which calls report no error, for every call and state. |
| ConsentProperties.ErrorsAreExplained | src/v2hub_api/api/endpoints/me.py:162-290 | What each error says of the row, the account and the quota at the time of the call. |
| ConsentProperties.AccessIsGrantedExactlyWhen | src/v2hub_api/services/provider_authorization_service.py:154-226 | Access is granted exactly when it was before or the quota has room; no other row and no subscription changes. |
| ConsentProperties.AccessIsWithdrawnExactlyWhen | src/v2hub_api/services/provider_authorization_service.py:93-257 | Access is revoked or deleted exactly when there is a row; a revocation keeps all subscriptions, a deletion takes exactly the provider's along. |
| ConsentProperties.RefusedCallsChangeNothing | src/v2hub_api/api/endpoints/admin/provider_authorization.py:102-143 | A refused call changes nothing, but for the account that processing a request creates. |
| ConsentProperties.ListingShowsExactly | src/v2hub_api/services/subscription_service.py:219-253 | A user sees exactly the subscriptions of their own and those of providers approved for them. |
| ConsentProperties.SubscriptionsAppearExactlyWhen | src/v2hub_api/api/dependencies.py:172-195 | A subscription appears exactly when its user, or its approved provider, creates it. |
| ConsentProperties.SubscriptionsGoExactlyWhen | src/v2hub_api/services/provider_authorization_service.py:93-131 | A subscription goes exactly by its own deletion, or by its provider deleting the connection it depends on. |
| ConsentProperties.LossOfSubscriptionHasACause | src/v2hub_api/services/provider_authorization_service.py:93-131 | Over whole runs, one of these two calls lies between having a subscription and not having it. |
| Text.SplitUndoesJoin | src/v2hub_api/api/endpoints/public.py:38-40 | Splitting into lines undoes joining with newlines when no line is empty or contains a boundary. |
| Base64.DecodeUndoesEncode | src/v2hub_api/api/endpoints/public.py:42 | Strict decoding undoes encoding, padding included (section 4 of RFC 4648). |
| Base64.EncodedShape | src/v2hub_api/utils/config_parser.py:172-183 | Encoded text is a multiple of four characters of the alphabet and padding, so it is never taken for plain text. |
| Base64.LettersFollowTheAlphabet | src/v2hub_api/api/endpoints/public.py:42 | The letters are the alphabet of table 1 in section 4 of RFC 4648. |
| Base64.ShortVectors | src/v2hub_api/api/endpoints/public.py:42 | The test vectors of section 10 of RFC 4648, the longest of them in `LongVector`. |
| ConfigParser.CollectLines | src/v2hub_api/utils/config_parser.py:226-238 | The loop keeps, in order, the stripped lines that pass. |
| ConfigParser.ParseSubscriptionContent | src/v2hub_api/utils/config_parser.py:207-238 | Parsing yields the config lines of the decoded content. |
| ConfigParser.DecodedPublicText | src/v2hub_api/utils/config_parser.py:155-199 | The endpoint's text, padded or not, decodes to the joined configs when they mention a known scheme in lower case, and stays as it is otherwise. |
| ConfigParser.ParseUndoesPublicTextExactlyWhen | src/v2hub_api/utils/config_parser.py:155-238 | For stripped, one-line proxy URIs, parsing the endpoint's text, padded or not, gives the list back exactly when it is empty or mentions a known scheme in lower case. |
| ConfigParser.LowerCaseSchemeSuffices | src/v2hub_api/utils/config_parser.py:190-194 | One URI starting with a lower-case known scheme is enough for the round trip. |
| ParserProperties.PlainTextIsParsed | src/v2hub_api/utils/config_parser.py:155-238 | Configs written plainly, one a line, are parsed back, whatever the character encoding. |
| ParserProperties.SpacedTextIsParsedAlike | src/v2hub_api/utils/config_parser.py:170-183 | Spaces anywhere in the endpoint's text, padded or not, change nothing as long as no line feed is left inside. |
| ParserProperties.WrappedTextYieldsNothing | src/v2hub_api/utils/config_parser.py:170-174 | Encoded text with a line feed inside is taken for plain text, and yields no config. |
| ParserProperties.UrlSafeTextYieldsNothing | src/v2hub_api/utils/config_parser.py:155-199 | Encoded text with a `-` or `_` is not decoded and yields no config, although the documentation of the function names URL-safe base64 as supported. |
| ParserProperties.LeftUnlessSchemeIsFound | src/v2hub_api/utils/config_parser.py:190-199 | Content is left as it is, but for space around it, unless it decodes to a text with a known scheme. |
| ParserProperties.KeptExactly | src/v2hub_api/utils/config_parser.py:226-238 | A config is kept exactly when it is some line, stripped, that is no comment and a proxy URI. |
| ParserProperties.SchemesAreRecognisedInAnyCase | src/v2hub_api/core/enums.py:69-98 | Each known scheme is recognised in small letters, capitals or both. |
| ParserProperties.OnlyKnownSchemesAreRecognised | src/v2hub_api/core/enums.py:69-98 | What is recognised as a proxy URI has a known scheme before its first separator. |
| SourceNormalization.NormalizeSource | src/v2hub_api/utils/config_parser.py:403-430 | The loop terminates; the result keeps the text before the first `#` and ends with the stripped text left by decoding until no escape remains, or is refused as too long; `BytesUndoWrite` tells what an escape stands for. |
| SourceNormalization.UnquoteShrinksOrStays | src/v2hub_api/utils/config_parser.py:417-419 | One pass takes at least two characters away from a comment with a decodable escape and leaves any other unchanged. |
| SourceNormalization.DecodedIsFirstWithoutEscape | src/v2hub_api/utils/config_parser.py:415-421 | The decoded comment is what the first pass without escapes leaves, after at most half as many passes as the comment has characters. |
| SourceNormalization.NormalizationKeepsBase | src/v2hub_api/utils/config_parser.py:60-111 | What `get_config_hash` hashes is the same before and after normalisation, and the comment split off is the decoded one. |
| SourceNormalization.NormalizationSettles | src/v2hub_api/utils/config_parser.py:403-430 | Normalising a normalised source changes nothing. |
| SourceNormalization.NormalCommentIsClean | src/v2hub_api/utils/config_parser.py:403-430 | The comment of a normalised source has no decodable escape, no outer white space, and is within the limit. |
| PercentEncoding.BytesUndoWrite | src/v2hub_api/utils/config_parser.py:417-419 | Decoding undoes an encoder written apart from it: each byte as `%` and two digits, the high one first, in either case, or as itself when it is ASCII other than `%` (section 2.1 of RFC 3986). |
| PercentEncoding.UnquoteUndoesWrite | src/v2hub_api/utils/config_parser.py:417-419 | Unquoting an encoded text is decoding its bytes in one piece. |
| PercentEncoding.AsciiTextComesBack | src/v2hub_api/utils/config_parser.py:417-419 | An ASCII text encoded in any such style unquotes to itself. |
| PercentEncoding.EncodedCommentIsNormalized | src/v2hub_api/utils/config_parser.py:403-430 | A source whose comment was encoded is normalised to the same source with the comment itself, stripped, or refused as too long. |

## Left out

- HTTP fetching, retries, content checks and DNS: what a URL delivers is an input.
- The refresh cooldown of the resolver and of `refresh_subscription`: whether a URL is fetched anew or read from the cache does not change what the model calls its content, and which URLs a refresh skips is an arbitrary set.
- Cascades that delete users, providers or a provider's subscriptions in bulk: they bypass the subscription service, so cache ownership is not claimed for them.
- Concurrent transactions and Redis outages: each service call is atomic, and Redis answers.
- Digests, HMACs, tokens, password checks and the inside of the UTF-8 codec.
- Names of subscriptions and their uniqueness, the quota of subscriptions per user, `update_subscription`, `update_config` and comment edits: easy members beside those modelled.
- Row timestamps, pagination, statistics, the whitelist, metrics, request schemas and HTTP status codes.
- Classification of a source's text, the validators of single protocols and the URL safety rules: a request states its type and whether its config is valid, and a URL refused as malformed or unsafe counts as not recognised, whatever the error reported.
- CacheService.Cache.CreateOrUpdateCache: says nothing about consecutive errors, since a success does not reset `error_count`.
- ResolverDepth.DepthExceededExactlyWhen: speaks of resolutions that are not truncated, since truncation ends the visits early.
- RateLimiter.Limiter.CheckLimit: models the script of one key; the remaining time reported to a refused client is not part of the result.
- ProviderAuthorization.RunKeepsQuotaAndOwnership: speaks of sequential calls; two concurrent approvals are outside the model.
- SubscriptionService.Service.DeleteFromCache: deletes the persistent rows; the L1 entries that go with them are modelled by CacheService.
