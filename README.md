# gitstreams, modelled in Dafny

gitstreams watches the GitHub users you follow. On each run it:

1. fetches every followed user's starred repositories, owned repositories and
   recent events;
2. keeps those created at or after a cutoff;
3. stores the result as a snapshot;
4. compares it with the previous snapshot;
5. shows what is new as an HTML report and a macOS desktop notification.

This project models the logic of that pipeline and proves what it promises.

| module | file | models |
|---|---|---|
| `Diff` | `diff.dfy` | snapshots, repo and event identity, and the `Compare` engine that reports new users, gone users, and new stars, repos and events per user |
| `GitHub` | `github_client.dfy` | the API client: the ETag cache, the rate-limit tracker, one `get` as a state machine over the cache, and the pagination loop |
| `App` | `app.dfy` | the command's own logic: building a snapshot from the API's answers, loading the previous one, turning a comparison into a report, and the notification text |
| `Report`, `ReportAggregation`, `ReportHighlight`, `ReportLabels` | `report*.dfy` | the report's totals, per-type counts, the category view, aggregation of repeated activities, the highlight, the most active user, and the lookup tables |
| `Notify` | `notify.dfy` | `MacNotifier.Send` and the terminal-notifier and osascript commands it builds |
| `Text`, `Timestamps`, `Seqs`, `Wrappers` | | shared vocabulary: `%d` and `strconv.Atoi`, instants and their second-precision RFC 3339 form, enumerations of map keys, and `Option`/`Result` |

Go's `for k := range m` visits map keys in an unspecified order. Where the
result depends on that order, the model takes the order as an input: any
sequence that lists every key exactly once (`Seqs.IsEnumeration`).

Every loop of the source is a Dafny method with loop invariants. Each is
proved equal to a function that specifies it, and the properties are proved
as lemmas about those functions:

- `Compare` against `Diff.CompareSpec`;
- `get` against `GitHub.GetStep`;
- `getPaginated` against `GitHub.Paginate`;
- `aggregateActivities` against `ReportAggregation.Aggregated`;
- and so on for the other loops.

The client (`GitHub.Client`) and the command executor (`Notify.Executor`) are
classes whose fields change in place.

The model treats these as inputs:

- The HTTP exchange is a function from the request the client builds (its
  path and its `If-None-Match` value) to a transport failure or a response.
  A response has a status, headers, and the bytes of its body that were read,
  with a flag saying whether the read completed. Headers are keyed by their
  canonical names, the form `http.Header` stores and `Header.Get` looks up.
  The model writes each name as the source spells it (`ETag`,
  `X-RateLimit-Limit`, …) for the canonical key Go maps it to (`Etag`,
  `X-Ratelimit-Limit`), so `GitHub.HeaderValue` is a plain map lookup.
- JSON decoding is a function from a body to a value, or to nothing when the
  body does not decode.
- The clock is an instant passed in.
- The four GitHub operations the command calls are given as their answers
  (`App.Api`).
- The snapshot store's answer is given as a value.
- `LookPath` and the outcome of `Run` are fixed when an `Executor` is made.

## Model

| member | source | states |
|---|---|---|
| Diff.FullNameIdentity | diff/diff.go:17-19 | two repos have the same full name `owner/name` exactly when owner and name agree (owners contain no `/`); description, language, star count and time play no part |
| Diff.NewSnapshot | diff/diff.go:44-49 | a new snapshot carries the given capture time and no users |
| Diff.EventKeyIdentity | diff/diff.go:187-189 | two events share a key exactly when type, actor and repo agree and they fall in the same second, so events less than a second apart collapse |
| Diff.RepoSet | diff/diff.go:178-184 | the loop builds exactly the set of full names of the repos |
| Diff.EventSet | diff/diff.go:192-198 | the loop builds exactly the set of keys of the events |
| Diff.UnseenRepos | diff/diff.go:141-148 | a repo is kept exactly when it is listed and its full name is not among those seen |
| Diff.UnseenEvents | diff/diff.go:163-171 | an event is kept exactly when it is listed and its key is not among those seen |
| Diff.UsersNotIn | diff/diff.go:102-111 | the users listed are exactly the visited users missing from the other snapshot, each once |
| Diff.UsersMissingFrom | diff/diff.go:102-111 | the new-user and gone-user loops compute `UsersNotIn` |
| Diff.Compare | diff/diff.go:95-175 | for any visiting order of the three `range` loops, the result is `CompareSpec` of the two snapshots |
| Diff.AppendAll | diff/diff.go:118-129 | the loop appends every repo of a new user, in order, tagged with the user |
| Diff.AppendAllEvents | diff/diff.go:130-135 | the loop appends every event of a new user, in order, tagged with the user |
| Diff.AppendUnseen | diff/diff.go:140-159 | the loop appends, in order, the repos whose full name is not in the old set |
| Diff.AppendUnseenEvents | diff/diff.go:162-171 | the loop appends, in order, the events whose key is not in the old set |
| Diff.TagReposMembers | diff/diff.go:118-129 | a tagged repo change is present exactly when it carries the user and a listed repo |
| Diff.TagEventsMembers | diff/diff.go:130-135 | a tagged event change is present exactly when it carries the user and a listed event |
| Diff.RepoChangesPerUser | diff/diff.go:114-172 | the repo changes attributed to a user are exactly that user's own contribution, whatever the order users are visited in |
| Diff.EventChangesPerUser | diff/diff.go:114-172 | the event changes attributed to a user are exactly that user's own contribution, whatever the order users are visited in |
| Diff.CompareUsers | diff/diff.go:96-111 | both capture times are copied; new users are exactly keys(new) minus keys(old), gone users exactly keys(old) minus keys(new), each listed once; no user is both |
| Diff.CompareNewUser | diff/diff.go:114-136 | for a user absent from the old snapshot, every starred repo, owned repo and event is reported in order, tagged with the user, as many as each list holds |
| Diff.CompareReturningUser | diff/diff.go:114-172 | for a user in both snapshots, a starred repo is reported exactly when its full name was not starred before; owned repos independently likewise; an event exactly when its key is new; order is kept |
| Diff.CompareGoneUser | diff/diff.go:114-172 | a user present only in the old snapshot contributes no star, repo or event change |
| Diff.ChangesEmpty | diff/diff.go:114-172 | the three change lists are empty exactly when no visited user contributes to any of them |
| Diff.UserNothingNew | diff/diff.go:139-171 | a user in both snapshots contributes nothing exactly when every repo and event they now list was already there, by full name or key |
| Diff.CompareEmptyIff | diff/diff.go:85-175 | `IsEmpty` holds of the comparison exactly when both snapshots have the same users and none of them has anything unseen |
| Diff.CompareIdenticalIsEmpty | diff/diff.go:95-175 | comparing a snapshot with itself finds nothing |
| Timestamps.Rfc3339SecondPrecision | diff/diff.go:188 | two instants format alike exactly when they fall in the same second |
| Text.ParseFormatRoundTrip | github/client.go:237-259 | parsing what `%d` printed gives back every 64-bit value |
| Text.FormatDecimalInjective | github/client.go:307 | distinct numbers print differently |
| Text.SplitAtSeparator | diff/diff.go:17-19 | joining two parts with a separator absent from the first part can be undone |
| GitHub.HeaderInt | github/client.go:237-259 | a rate-limit header that is absent or does not parse counts as 0; otherwise it counts as its value |
| GitHub.RateLimitUpdate | github/client.go:261-265 | the stored rate limit is replaced by the parsed one only when the parsed limit is positive |
| GitHub.ParsedRateLimitOfFormatted | github/client.go:234-259 | headers written with `%d` parse back to the four fields, the reset as whole seconds |
| GitHub.NoRateLimitHeaders | github/client.go:234-262 | without rate-limit headers every field stays 0, the stored limit is unchanged and no warning is given |
| GitHub.RateLimitAbsentUntilPositive | github/client.go:234-265 | the rate limit stays absent exactly until a response with a positive limit arrives, and a stored limit is always positive |
| GitHub.RequestFor | github/client.go:167-173 | the request carries `If-None-Match` exactly when the cache holds an entry for the exact path with a non-empty ETag, and then carries that ETag |
| GitHub.NotModifiedUsesCache | github/client.go:184-196 | a 304 for a cached path decodes the cached body and leaves the cache unchanged |
| GitHub.ErrorStatusLeavesCache | github/client.go:198-201 | a non-2xx status, including a 304 for an uncached path, is an API error with the status and the body as far as it was read, even when the read failed, and the cache is untouched |
| GitHub.SuccessStoresEtag | github/client.go:203-229 | a readable 2xx with an ETag overwrites the entry for the path with that ETag and body; without an ETag the cache is unchanged; the body is decoded |
| GitHub.GetStepCacheChange | github/client.go:153-231 | a GET either keeps the cache or stores one validated entry at its own path |
| GitHub.GetStepInvariant | github/client.go:153-231 | a GET changes the cache at its own path only, keeps every entry's ETag non-empty, and keeps the stored limit positive |
| GitHub.RevalidationRepeatsResult | github/client.go:167-229 | after a 2xx with an ETag, the next GET of the path sends that ETag, and a 304 reply gives the same decoded value as the first GET |
| GitHub.PagePath | github/client.go:303-307 | the page path is the base path, then `?`, or `&` when the base already has a query, then the page parameters |
| GitHub.PagePathInjective | github/client.go:303-307 | different pages of one listing have different paths, so each has its own cache entry |
| GitHub.PaginateRequests | github/client.go:298-333 | the pages requested are 1, 2, 3, … in order, at least one |
| GitHub.PaginateConcat | github/client.go:312-336 | a successful listing returns the in-order concatenation of the pages it received |
| GitHub.PaginatePageSizes | github/client.go:318-330 | a successful listing ends on its first empty or short page, every earlier page being full; a failed one failed after full pages only |
| GitHub.FullPageFetchesNext | github/client.go:326-332 | a page of exactly 100 items always leads to one more request, for the next page |
| GitHub.PaginateCases | github/client.go:312-333 | a failing page ends the listing with its error; a short page ends it with the items so far; a full page continues with the next page |
| GitHub.Client.constructor | github/client.go:119-131 | a new client has an empty cache and no rate limit |
| GitHub.Client.GetRateLimit | github/client.go:135-144 | returns the stored rate limit, absent until one has been received, and its limit is positive |
| GitHub.Client.ClearCache | github/client.go:147-151 | empties the cache and keeps the rate limit |
| GitHub.Client.ParseRateLimitHeaders | github/client.go:234-284 | updates the rate limit as `RateLimitUpdate` says, leaves the cache alone, and warns exactly when the limit is positive and fewer than 100 requests remain |
| GitHub.Client.Get | github/client.go:153-231 | the result and the new cache and rate limit are those of `GetStep` for the server's answer to `RequestFor` |
| GitHub.Client.FetchPage | github/client.go:303-314 | one pass of the loop: fetches the page and says whether the listing stops and with what, or goes on |
| GitHub.Client.PaginationLoop | github/client.go:301-333 | the loop ends with the listing's result, cache and rate limit |
| GitHub.Client.GetPaginated | github/client.go:289-338 | the result and the new cache and rate limit are those of `Paginate` from page 1; any page error aborts with that error and returns no items |
| App.ConvertRepoIdentity | main.go:371-380 | conversion copies time, description, language and star count; two converted repos share a full name exactly when owner login and name agree |
| App.ConvertEventIdentity | main.go:382-389 | conversion copies type, actor login, repo name and time, so two converted events share a key exactly when those agree to the second |
| App.KeepReposInclusive | main.go:324-344 | a repo is kept exactly when it was created at or after the cutoff (inclusive) |
| App.KeepEventsInclusive | main.go:354-359 | an event is kept exactly when it was created at or after the cutoff (inclusive) |
| App.FilterRepos | main.go:324-329 | the filtering loop computes `KeepRepos` |
| App.FilterEvents | main.go:354-359 | the filtering loop computes `KeepEvents` |
| App.FetchUser | main.go:313-360 | a user's three categories are fetched independently; a failed one stays empty and the others are kept |
| App.FetchedUsersShape | main.go:305-363 | every followed user is a key of the snapshot, even with nothing recent, and nobody else is; a failed category is empty and the rest are filtered |
| App.FetchActivity | main.go:291-369 | an error naming the failure when followed users cannot be listed; otherwise the snapshot taken now with the fetched users |
| App.LoadPreviousSnapshot | main.go:391-403 | a store error is reported; an empty store gives an empty snapshot at the zero time; otherwise the first stored snapshot is decoded |
| App.FirstRunEveryoneIsNew | main.go:397-400 | on the first run every user of the new snapshot is new, none is gone, and the comparison starts from the zero time |
| App.EventTypeMapping | main.go:546-563 | the six GitHub event types map to the six report types in category order, and any other type passes through unchanged |
| App.GetOrCreateUserActivity | main.go:534-544 | returns the user's entry, creating one with no activities and avatar `https://github.com/<user>.png` if missing |
| App.AddActivity | main.go:472-516 | appending an activity to its user's entry keeps each user's entry equal to exactly their activities so far |
| App.AddStars | main.go:472-482 | the star loop adds one starred activity per new star |
| App.AddRepos | main.go:489-499 | the repo loop adds one created-repo activity per new repo |
| App.AddEvents | main.go:506-516 | the event loop adds one activity per new event, typed by `eventTypeToActivityType` |
| App.EntriesInOrder | main.go:523-525 | the final loop lists every entry once, in the map's visiting order |
| App.BuildReport | main.go:452-532 | for any visiting order of the user map, the report is `BuiltReport` |
| App.BuiltReportShape | main.go:456-544 | one entry per distinct user, with the user's avatar and exactly their activities; as many activities in all as new stars, repos and events; new and gone users add nothing |
| App.NotificationJoin | main.go:585-595 | the message is its single part, or the parts joined with ", " except " and " before the last |
| App.NotificationFallbackIff | main.go:566-583 | "New activity detected" is returned exactly when there are no new stars, repos, events or users |
| App.NotificationIgnoresGoneUsers | main.go:565-598 | gone users never change the message |
| App.JoinParts | main.go:585-595 | the joining loop computes `JoinedPrefix` of all parts |
| App.FormatNotificationMessage | main.go:565-598 | the method returns `NotificationMessage` |
| Report.TotalActivities | report/html.go:64-70 | the total is the number of activities of all users |
| Report.StatsPartition | report/html.go:260-281 | the six counts plus the unknown activities account for every activity exactly once |
| Report.Tally | report/html.go:263-278 | the inner loop adds one user's activities to the counts of their types |
| Report.GetStats | report/html.go:260-281 | each count is the number of activities of that type; unknown types are not counted |
| Report.CategoryGroupsShape | report/html.go:85-116 | one group per known type that occurs, holding exactly that type's activities in encounter order, groups in the fixed category order, unknown types in none |
| Report.CategoryGroupsAgreeWithStats | report/html.go:85-281 | each category group holds as many activities as the stats count for its type |
| Report.CollectInto | report/html.go:90-92 | the inner collection loop files each activity under its type, in order |
| Report.CollectByType | report/html.go:86-93 | after the collection loops, each type's list is exactly the activities of that type |
| Report.ActivitiesByCategory | report/html.go:85-116 | the method returns `CategoryGroups` of all activities |
| ReportAggregation.GroupOfMembers | report/html.go:133-139 | a key's group holds exactly the activities with that key |
| ReportAggregation.KeysHaveGroups | report/html.go:133-139 | each key is listed once, exactly when its group is non-empty |
| ReportAggregation.KeysInOrderPrefix | report/html.go:133-139 | keys are listed in order of first appearance |
| ReportAggregation.GroupOfFirst | report/html.go:144-145 | the first member of a group is the first activity with that key |
| ReportAggregation.TimeBounds | report/html.go:147-157 | the first and last times are times of the group and bound all of them |
| ReportAggregation.AggregatedShape | report/html.go:124-173 | one entry per key, keys distinct and in first-appearance order, each entry the aggregate of its group; counts sum to the number of activities |
| ReportAggregation.AggregateFields | report/html.go:144-169 | an entry copies type, user, avatar, repo name, repo URL and details from the group's first member, has the group's size as count, and the group's earliest and latest times, both attained |
| ReportAggregation.AggregatedEmptyIff | report/html.go:125-127 | no entries exactly for no activities |
| ReportAggregation.GroupByKey | report/html.go:129-139 | the grouping loop yields the keys in first-appearance order and each key's group |
| ReportAggregation.TimeRange | report/html.go:147-157 | the time-range loop yields the group's minimum and maximum time |
| ReportAggregation.AggregateGroup | report/html.go:144-169 | one group becomes its aggregate entry |
| ReportAggregation.AggregateInOrder | report/html.go:142-170 | the conversion loop yields one entry per key, in order |
| ReportAggregation.AggregateActivities | report/html.go:124-173 | the method returns `Aggregated` |
| ReportAggregation.AggregatedCategoryGroupsShape | report/html.go:176-207 | one aggregated group per non-empty known type, in category order, each aggregating exactly that type's activities with counts summing to their number |
| ReportAggregation.AggregateCategory | report/html.go:198-203 | one round of the category loop gives the aggregated group of the type when it occurs |
| ReportAggregation.AggregateInCategoryOrder | report/html.go:197-204 | the category loop gives the aggregated groups of the types, in order |
| ReportAggregation.AggregatedActivitiesByCategory | report/html.go:176-207 | the method returns the category view with each group aggregated |
| ReportAggregation.AggregatedCategoryGroupsInOrder | report/html.go:176-207 | collecting by type and then aggregating in category order gives the aggregated category view |
| ReportAggregation.AggregateUsersShape | report/html.go:217-227 | each user keeps name, avatar and position, and only their activities are aggregated, losing none |
| ReportAggregation.AggregatedUserActivities | report/html.go:217-227 | the method returns `AggregateUsers` |
| ReportHighlight.BestOfIsFirstMaximal | report/html.go:296-325 | the best candidate is the first one of the highest priority present, and none exists only for no candidates |
| ReportHighlight.CandidatesFollowActivities | report/html.go:296-323 | candidates follow the activities one to one, each with the reason for its type and the user and avatar of the entry holding its activity |
| ReportHighlight.HighlightIsFirstMostInteresting | report/html.go:293-328 | no highlight exactly when there is no activity; otherwise the first activity, in iteration order, of the highest-priority type present (created repo, pull request, star, other), with its reason and the user and avatar of the entry holding it |
| ReportHighlight.HotMeansTopPriority | report/html.go:346-348 | the hot types are exactly the two highest-priority ones, created repo and pull request |
| ReportHighlight.ConsiderUser | report/html.go:297-324 | the inner loop keeps the best candidate over one user's activities |
| ReportHighlight.GetHighlight | report/html.go:293-328 | the method returns `Highlighted` |
| ReportHighlight.MostActiveIndex | report/html.go:336-342 | the chosen position has no fewer activities than any other |
| ReportHighlight.MostActiveUser | report/html.go:331-343 | "" for an empty report; otherwise a user whose activity count is at least every other user's |
| ReportLabels.DefaultsExactlyForUnknown | report/html.go:230-409 | the catch-all heading, icon and verb are used for exactly the unknown types |
| ReportLabels.CategoryNamesDistinct | report/html.go:230-247 | known types get distinct headings |
| ReportLabels.IconsDistinct | report/html.go:351-368 | known types get distinct icons |
| ReportLabels.VerbsDistinct | report/html.go:392-409 | known types get distinct verbs |
| ReportLabels.AggregatedVerbOfOne | report/html.go:413-416 | for a count of at most one, the aggregated verb is the plain verb |
| ReportLabels.AggregatedVerbStatesCount | report/html.go:413-434 | above one, the aggregated verb embeds the count, so it determines the count and differs from the plain verb |
| ReportLabels.TaglineByThresholds | report/html.go:376-389 | the tagline buckets the count as 0, at most 3, at most 10, at most 25, and more |
| ReportLabels.TaglineMonotone | report/html.go:376-389 | more activity never gives a calmer tagline |
| Notify.Executor.constructor | notify/notify.go:24-27 | the executor starts with no recorded runs |
| Notify.Executor.Run | notify/notify.go:24-27 | `Run` records the command and returns its outcome |
| Notify.Flag | notify/notify.go:72-83 | a flag pair appears exactly when its value is non-empty |
| Notify.TerminalNotifierArgsRoundTrip | notify/notify.go:69-85 | the arguments start `-message msg`, then the non-empty `-title`, `-subtitle`, `-sound` and `-open` pairs in that order; they read back to the notification |
| Notify.UnquoteQuote | notify/notify.go:94-103 | a `%q`-quoted value reads back, whatever follows it |
| Notify.OsascriptScriptRoundTrip | notify/notify.go:91-104 | the script is `display notification "msg"` then the non-empty title, subtitle and sound clauses in that order; it reads back to the notification without its URL |
| Notify.OsascriptIgnoresUrl | notify/notify.go:93-94 | the URL never changes the script |
| Notify.MacNotifier.constructor | notify/notify.go:49-51 | the notifier uses the given executor |
| Notify.MacNotifier.Send | notify/notify.go:54-66 | an empty message is refused with an error and no command runs; otherwise exactly one command runs, terminal-notifier when it is found and osascript otherwise, and its error is returned unchanged |
| Notify.MacNotifier.SendTerminalNotifier | notify/notify.go:69-86 | runs `terminal-notifier` once with the arguments built pair by pair, and returns its error |
| Notify.MacNotifier.SendOsascript | notify/notify.go:91-107 | runs `osascript -e script` once with the script built clause by clause, and returns its error |

## Left out

- I/O: the snapshot store (SQL) and the JSON round trip of snapshots through
  it, flags and environment (`parseFlags`, `run`), file creation, opening the
  browser, and `saveSnapshot`. The store's answer to "latest snapshot" and
  the decoding of a stored snapshot are inputs of
  `App.LoadPreviousSnapshot`.
- Logging, verbose output, the progress display and OpenTelemetry set-up.
  The rate-limit warning is a boolean result.
- The HTML template, `NewHTMLGenerator`/`Generate`, and `relativeTime` and
  `timeRange`, which read the wall clock and format times.
- HTTP transport, request headers and authentication, the base URL, and the
  reflection check at the top of `getPaginated`. The `sync.RWMutex` locking
  is also left out: the client's fields are plain fields.
- The `Get*` wrappers of the client, such as `GetFollowedUsers`, only call
  `getPaginated` with a fixed path and wrap its error. The command's use of
  them is modelled by their answers (`App.Api`).
- Timestamps.Rfc3339SecondPrecision: RFC 3339 formatting of an instant
  (`Timestamps.Rfc3339`) is stood in for by the decimal Unix seconds, and an
  instant carries no location. Go's `Format(time.RFC3339)` also writes the
  zone offset, so in Go the same second in two zones gives two texts and two
  event keys, where the model gives one. `Diff.EventKeyIdentity` inherits this.
  Times decoded from GitHub's JSON and from stored snapshots are in UTC, so
  keys built from them agree with the model. The text of the format is not
  modelled.
- Notify.Quote: Go's `%q` also escapes control and non-printable characters.
  The model escapes only `"` and `\`.
- GitHub.Client.GetPaginated: the caller must promise the listing ends within
  a ghost bound `maxPages`. `Paginate` runs on that fuel, so a server that
  never sends a short page is not modelled.
- GitHub.RevalidationRepeatsResult: stated for a first GET that decoded. When
  the cached body does not decode, the second GET fails as a cached decode
  error, which the first did not.
- ReportHighlight.MostActiveUser: `sort.Slice` is replaced by choosing the
  first user of maximal count. The contract only promises a user of maximal
  count, which is all `sort.Slice` guarantees when counts tie.
- ReportLabels.TaglineByThresholds: stated for counts of zero or more. The
  function itself follows the source for every count, so a negative count
  gets the second tagline.
- ReportAggregation.AggregateKey: two different (user, type, repo) triples
  can share a key when one of the parts holds `|`. The source groups them
  together and so does the model. The grouping lemmas are stated by key, not
  by triple.
- Diff.FullNameIdentity and Diff.EventKeyIdentity: stated for owners without
  `/` and for type, actor and repo names without `|`, as GitHub names are.
- Integer widths: counts are unbounded. Header values parse as 64-bit
  integers, as `strconv.Atoi` does on 64-bit platforms.

## Where the code and the design description differ

The model follows the code in each case.

- The design says any response that carries quota headers replaces the
  stored quota. The code replaces it only when the parsed limit is positive,
  and warns about a low remaining count only in that case.
- The design says a 2xx body is decoded and then cached. The code caches it
  under its ETag before decoding, so a body that fails to decode is still
  cached.
- The design says a fetched path must not be empty. The code does not check
  this, and the model accepts any path.
