# Background service of the Gerrit change tracker, in Dafny

This project models the background page of a browser extension. The
extension keeps a list of Gerrit changes the user tracks and keeps that
list in sync with the review server. Four components make up the service:

- **Storage**: a key-value layer over the extension's local storage. It has
  three keys: `changes` (the tracked list), `updated` (a pending buffer of
  changes found while no popup was open) and `options` (endpoint,
  credentials, refresh time). It also has two predicates: `isConfigSet` and
  `isChangeEmpty`.
- **Gerrit adapter**: builds the REST URL of a change and maps the server's
  answer to a change record. A request the HTTP client rejects becomes
  `{id, error: true}`. A resolved reply whose status is not 200 becomes
  `{}`. A 200 reply with an empty body is returned as that empty body, which
  the model simplifies to `{}` (see "Left out"). Otherwise the first anti-XSSI prefix `)]}'`
  is removed from the body, the rest is parsed, and its `Verified` and
  `Code-Review` labels are reduced to one vote each.
- **Polling cycle** (`run`): does one pass over the list.
  - It queries every change that is not `MERGED`.
  - It replaces the entries whose answer differs. A failed request only
    evicts an entry that never had both a subject and a status.
  - It drops failed entries and writes the list back.
  - It sends the updates to an open popup. Otherwise it puts them in the
    pending buffer, sets the badge and shows a notification.
  - It asks the controller to stop once every change is `MERGED` or
    `ABANDONED`.
- **Controller**: holds the `polling` timer and the `restart` flag. It
  starts, stops and restarts the timer, and answers the messages of the
  popup and the options page.

## How the model is built

- **Values.**
  - A JavaScript record with optional keys is a datatype with `Option` fields
    (`Records.Change`, `Records.Options`). Structural equality (`isEqual`) is
    datatype equality.
  - An exception that escapes an operation is a `Fault` carried by
    `Result.Err`: reading `.length` of an unset field, reading a label the
    reply lacks, the two crash paths of `filterLabel`, and a parse failure.
- **State.**
  - The storage area is a class, `Storage.Store`, with one field per key.
    `Storage.Snapshot` is its value.
  - The controller is a class, `Background.Controller`. Its fields are the
    two flags, the storage and a log of side effects.
  - Every method is proved to carry out a specification function:
    `Polling.RunSpec` for a cycle, `Background.Started`, `Background.Cycled`
    and `Background.Stopped` for the timer, and `Background.OnMessage` for
    the handler. `Background.Controller.Follow` carries out the callback a
    cycle ended with. The properties are proved as lemmas about those functions.
- **Side effects** are `Records.Effect` values appended to a log, in order:
  requests, rejections, messages to the popup, badge text, notifications,
  timers armed and cleared, and tabs opened.
- **Stop and restart.** `run` receives `stopService` and `restartService` as
  callbacks, and calling one is the last thing it does. The model therefore
  returns the call as the final effect (`StopCalled`, `RestartCalled`), and
  the controller carries it out.
- **Outside the model.** The HTTP client and `JSON.parse` are functions
  supplied in `Gerrit.Remote`. The endpoint probe `Gerrit.test` is a
  function in `Background.Env`. The popup's presence and the two i18n
  strings are inputs (`Polling.Browser`).
- **Loops.** The loops of `run` and `filterLabel` are `while` loops with
  invariants. The loop of `run` is `Polling.QueryChanges`, proved to end
  in the state given by the step function `Polling.SweepUpTo`; its body,
  one iteration, is `Polling.QueryEntry`. It takes the query-and-compare
  step of each entry as a parameter, and `Polling.Run` passes it
  `Polling.Visitor`. `Polling.Run` is proved equal
  to `Polling.RunSpec`. `Polling.RunCompleted`
  then states the whole cycle in terms of definitions that look at one
  entry at a time: `Polling.Requests`, `Polling.Refreshed` and
  `Polling.Updates`.

`isChangeEmpty` (`storage.js:79-84`) calls an entry empty unless it has
both a subject and a status, so an entry with only one of the two is still
evicted by a failed request.

## Model

| member | source | states |
|---|---|---|
| Text.Decimal | app/scripts/components/background/polling.js:92 | the rendering of a count is a non-empty string of digits, with a leading `0` only for zero |
| Text.DecimalRoundTrip | app/scripts/components/background/polling.js:85 | reading the digits back gives the count: the badge and message show the exact number |
| Text.DecimalInjective | app/scripts/components/background/polling.js:92 | different counts never show the same badge text |
| Text.IntToString | app/scripts/components/background/gerrit.js:66 | `_number.toString()`: a minus sign exactly for a negative number, then decimal digits without leading zeros (a `0` first only for zero) that read back to its magnitude |
| Text.ReplaceFirst | app/scripts/components/background/gerrit.js:37 | `replace` with a string pattern replaces at most one occurrence: the result is the input, or is shorter by the pattern and longer by the replacement; replacing the pattern by itself changes nothing |
| Text.ReplaceFirstAt | app/scripts/components/background/gerrit.js:37 | `replace` with a string pattern replaces exactly the first occurrence |
| Text.ReplaceFirstAbsent | app/scripts/components/background/gerrit.js:37 | with no occurrence of the pattern the string is unchanged |
| Lists.Filter | app/scripts/components/background/background.js:133 | every entry kept satisfies the predicate and comes from the input, every input entry that satisfies it is kept, and the result is no longer than the input |
| Lists.FilterCounts | app/scripts/components/background/background.js:133 | each value the predicate accepts is kept exactly as often as it occurs, and every other value is dropped |
| Lists.FilterEmbeds | app/scripts/components/background/polling.js:63 | filtering, including lodash `remove` on the entries it keeps, preserves relative order |
| Lists.FilterAppend | app/scripts/components/background/polling.js:63 | filtering distributes over concatenation |
| Lists.FilterKeepsAll | app/scripts/components/background/background.js:100 | a filter that keeps every entry returns the list unchanged |
| Storage.ConfigCheck | app/scripts/components/background/storage.js:65-75 | true iff the options are non-empty and endpoint, email and password all have length > 0; throws exactly when the short-circuit reaches an unset field |
| Storage.ChangesOf | app/scripts/components/background/storage.js:31-37 | `getChanges`: an absent key reads as the empty list; a written list reads back as written |
| Storage.PendingOf | app/scripts/components/background/storage.js:41-46 | the buffer `getUpdatedChanges` reads: an absent key reads as the empty list |
| Storage.OptionsOf | app/scripts/components/background/storage.js:55-61 | `getOptions`: an absent key reads as `{}`; written options read back as written |
| Storage.IsChangeEmpty | app/scripts/components/background/storage.js:79-84 | an entry is empty unless it has both a subject and a status |
| Storage.PlaceholderIsEmpty | app/scripts/components/background/storage.js:79-84 | an added placeholder counts as empty; an entry with both subject and status does not |
| Storage.Store.constructor | app/scripts/components/background/storage.js:31-37 | an area with nothing written reads as an empty list, an empty buffer and `{}` options |
| Storage.Store.Clear | app/scripts/components/background/storage.js:8-13 | the stored list becomes `[]`, nothing else changes, and the badge text is emptied |
| Storage.Store.SaveChanges | app/scripts/components/background/storage.js:17-19 | the whole list is overwritten and reads back as written |
| Storage.Store.SaveUpdatedChanges | app/scripts/components/background/storage.js:23-27 | `null` stores an empty buffer; any other list is stored as given |
| Storage.Store.GetUpdatedChanges | app/scripts/components/background/storage.js:41-51 | returns the buffer as it was and leaves it empty, so a second call returns `[]` |
| Gerrit.QueryUrl | app/scripts/components/background/gerrit.js:10 | the URL `endpoint/changes/<id>/detail`, with an unset part printed as `undefined` |
| Gerrit.QueryUrlInjective | app/scripts/components/background/gerrit.js:10 | against one endpoint, distinct change ids have distinct query URLs |
| Gerrit.QueryUrlOfFixture | app/__tests__/background.test.js:405 | the URL is `endpoint/changes/<id>/detail` |
| Gerrit.LabelValue | app/scripts/components/background/gerrit.js:47-60 | as written: returns the first non-zero vote exactly when no later non-zero vote is smaller; throws on a later, smaller vote, and throws when no vote is non-zero |
| Gerrit.FilterLabel | app/scripts/components/background/gerrit.js:54-58 | the loop computes `LabelValue`, including the throw on a later, smaller vote |
| Gerrit.LeastVote | app/scripts/components/background/gerrit.js:47-60 | corrected: the least non-zero vote, and 0 when nobody voted |
| Gerrit.LabelValueIsLeast | app/scripts/components/background/gerrit.js:53-58 | whenever the shipped function returns, it returns the least non-zero vote |
| Gerrit.FilterLabelLaterSmallerVote | app/scripts/components/background/gerrit.js:56 | votes `[1, -1]` throw where the least vote, -1, was meant |
| Gerrit.FilterLabelNoVote | app/scripts/components/background/gerrit.js:51 | votes `[0, 0]` throw where 0 was meant |
| Gerrit.FilterLabelOfFixtures | app/__tests__/mock.js:94-139 | the approved and rejected fixture labels resolve to 1 and -2 |
| Gerrit.LabelVote | app/scripts/components/background/gerrit.js:71-78 | a label without an `all` list counts 0; otherwise as `filterLabel` as written: the first non-zero vote, which is then the least and comes from the list, exactly when no later non-zero vote is smaller; a throw when a later non-zero vote is smaller, and a throw when no vote is non-zero |
| Gerrit.Decode | app/scripts/components/background/gerrit.js:37-39 | a body that does not parse throws, and only such a body gives that exception; a decoded change has an id and neither an `error` nor an `updated` key |
| Gerrit.Convert | app/scripts/components/background/gerrit.js:64-81 | succeeds iff `_number` and both labels are present and both votes resolve; the id is `_number` in decimal, subject and status are copied, each vote is 0 without an `all` list and else the least non-zero vote |
| Gerrit.Query | app/scripts/components/background/gerrit.js:9-42 | a rejected request yields `{id, error: true}` (and throws without an id); a resolved reply with a status other than 200, or with an empty body, yields `{}`; any other body has its first `)]}'` removed, then is parsed and converted; only a rejected request yields an error entry |
| Gerrit.QueryStripsPrefix | app/scripts/components/background/gerrit.js:37 | a body that starts with `)]}'` is parsed from just after the prefix |
| Gerrit.QueryUnprefixedBody | app/scripts/components/background/gerrit.js:37 | a body that does not contain the prefix, such as the plain JSON of the tests, is parsed whole |
| Polling.VisitOf | app/scripts/components/background/polling.js:38-51 | the query of one entry: its exception is passed on, and otherwise the answer replaces the entry exactly when the replacement rule holds, the entry staying as it is when not |
| Polling.Replaces | app/scripts/components/background/polling.js:45-48 | the replacement rule; an entry that is not a failed one is never replaced by itself, and an entry that is not empty is never replaced by an answer carrying an `error` key |
| Polling.Replacement | app/scripts/components/background/polling.js:34-49 | a merged entry, an entry whose query threw and an entry the rule keeps get no replacement; a replacement is the answer to the entry's own query |
| Polling.FailedRequestEvictsOnlyEmpty | app/scripts/components/background/polling.js:45-46 | a failed request replaces an entry iff the entry is empty, and otherwise keeps it |
| Polling.OtherStatusBlanks | app/scripts/components/background/polling.js:45-49 | a resolved reply with a status other than 200 yields `{}`, which replaces every entry that is not already `{}` |
| Polling.SameAnswerNoUpdate | app/scripts/components/background/polling.js:45-48 | an answer equal to the stored entry is not an update; any different answer without `error` is |
| Polling.SweepUpTo | app/scripts/components/background/polling.js:27-52 | the loop keeps the list's length and issues only requests |
| Polling.Requests | app/scripts/components/background/polling.js:38 | one request per entry, for that entry's URL, in order |
| Polling.Refreshed | app/scripts/components/background/polling.js:49 | each entry is replaced in its own position, or kept |
| Polling.SweepFaultSticks | app/scripts/components/background/polling.js:38 | once a query throws, the loop does nothing more |
| Polling.SweepRequests | app/scripts/components/background/polling.js:33-38 | the requests are those of the non-merged entries, in order; a throw cuts them short |
| Polling.SweepNoFaultNoThrow | app/scripts/components/background/polling.js:38 | a loop that has not thrown has met no queried entry whose query throws |
| Polling.SweepThrowsLast | app/scripts/components/background/polling.js:33-38 | the iteration that throws is at a queried entry whose query threw, and the requests so far are those of the queried entries up to and including it |
| Polling.SweepThrowsAt | app/scripts/components/background/polling.js:33-38 | a loop that threw stopped at the first queried entry whose query threw; its requests are those of the queried entries up to and including that one |
| Polling.SweepRefreshes | app/scripts/components/background/polling.js:45-49 | after a loop that did not throw, each entry holds its replacement if it has one, and is otherwise unchanged |
| Polling.SweepUpdates | app/scripts/components/background/polling.js:45-50 | after a loop that did not throw, `updated` holds the marked replacements in list order |
| Polling.SweepReplacesInPlace | app/scripts/components/background/polling.js:45-51 | replacement is by index, and `updated` holds the replacing results marked `updated: true`, in list order |
| Polling.NoUpdatesNoChange | app/scripts/components/background/polling.js:45-51 | without updates the list is the one read |
| Polling.Updates | app/scripts/components/background/polling.js:50 | at most one update per entry, each flagged `updated: true`, and none when no entry has a replacement |
| Polling.UpdatesAppend | app/scripts/components/background/polling.js:50 | the updates of a concatenation are the updates of each part |
| Polling.NotificationText | app/scripts/components/background/polling.js:82-86 | the message: the first `%` of the template replaced by the count, plus `s` above one |
| Polling.NotificationOfTemplate | app/scripts/components/background/polling.js:82-86 | the count replaces the first `%`, and an `s` is appended iff the count is above 1 |
| Polling.StopIfIdle | app/scripts/components/background/polling.js:107-113 | `stopService` is called exactly when every entry is merged or abandoned, which `every` makes true for an empty list |
| Polling.Publish | app/scripts/components/background/polling.js:59-113 | after a loop that did not throw: with updates, the list without failed entries is written back and the updates go to the popup, or to the buffer with badge and notification; then the stop request when every entry left is merged or abandoned |
| Polling.RunSpec | app/scripts/components/background/polling.js:13-114 | a cycle never writes the options and calls the restart callback only when given `restart` |
| Polling.RunCompleted | app/scripts/components/background/polling.js:13-114 | a cycle that does not throw requests every non-merged entry once. Without updates it writes nothing. With updates it writes the refreshed list minus failed entries, then either sends the updates to an open popup or stores them in the buffer and shows the badge and a notification with their number. It asks to stop exactly when every remaining entry is merged or abandoned |
| Polling.RunThrew | app/scripts/components/background/polling.js:33-38 | a query that throws ends the cycle with no write. The log is the requests of the queried entries up to and including the first one whose query threw, then the rejection with that entry's exception |
| Polling.RunWithoutPolling | app/scripts/components/background/polling.js:15-31 | incomplete options stop the service, or throw on an unset field, and a restart request calls the restart callback once; in each case nothing is requested or written |
| Polling.RunStoresNoFailed | app/scripts/components/background/polling.js:63-66 | a stored list without failed entries stays without them after a cycle |
| Polling.RunKeepsOrder | app/scripts/components/background/polling.js:49-66 | the list written back is the refreshed list with entries removed, in order |
| Polling.RunStopsWhenIdle | app/scripts/components/background/polling.js:107-113 | the stop callback is called iff every entry left in storage is merged or abandoned, also when nothing was updated and for an empty list |
| Polling.Run | app/scripts/components/background/polling.js:13-114 | the configuration check, the loop and the steps after it produce exactly the storage and effects of `RunSpec` |
| Polling.QueryChanges | app/scripts/components/background/polling.js:27-52 | the loop calls the restart callback at its first iteration when a restart is pending, and otherwise ends in exactly the state `SweepUpTo` gives for the whole list, including the exception that cut it short |
| Polling.QueryEntry | app/scripts/components/background/polling.js:33-51 | one iteration: the state afterwards is the loop's step function one entry further on, and only the entry at the current index can change |
| Polling.Settle | app/scripts/components/background/polling.js:59-113 | the steps after the loop produce exactly the storage and effects of `Publish`: the write-back without failed entries, the message or the badge and notification, then the stop request when nothing is left to poll |
| Background.ResetFlags | app/scripts/components/background/background.js:32-35 | both flags are false afterwards; storage, effects and handles are unchanged |
| Background.Stopped | app/scripts/components/background/background.js:51-55 | `clearInterval` is called on the current timer (the one effect appended), both flags are false, and storage and handles are untouched |
| Background.Started | app/scripts/components/background/background.js:41-49 | with a refresh time set, a timer with the next handle and that period in milliseconds is armed and one cycle runs; without one nothing happens |
| Background.Cycled | app/scripts/components/background/background.js:64-66 | one cycle with the current `restart` flag, then the stop or the stop-and-start it asked for |
| Background.Initialised | app/scripts/components/background/background.js:21-30 | the service starts when the stored list is not empty |
| Background.OnMessage | app/scripts/components/background/background.js:72-91 | the dispatch on the message type to the seven handlers, and `false` for any other type |
| Background.Merge | app/scripts/components/background/background.js:95-103 | the buffer comes first; behind it are the stored entries whose id is not in the buffer, each as often as it is stored, and no others |
| Background.MergeKeepsOrder | app/scripts/components/background/background.js:100 | the stored entries keep their order behind the buffer |
| Background.MergeNothingPending | app/scripts/components/background/background.js:95-103 | with an empty buffer the answer is the stored list |
| Background.MergeUniqueIds | app/scripts/components/background/background.js:99-100 | when the buffer and the list each have unique ids, so does the answer |
| Background.EmbedsUnique | app/scripts/components/background/background.js:100 | an ordered selection from a list with unique ids has unique ids |
| Background.CycledKeeps | app/scripts/components/background/background.js:64-66 | a cycle keeps the controller valid (a restart is only pending while a timer runs, and handles are never reused), only appends effects and never writes the options |
| Background.StartedKeeps | app/scripts/components/background/background.js:41-49 | the same for starting the service |
| Background.OnMessageKeeps | app/scripts/components/background/background.js:72-91 | every handler keeps the controller valid and only appends effects |
| Background.StartedNotRestarting | app/scripts/components/background/background.js:41-49 | starting without a pending restart leaves none pending |
| Background.CycleServesRestart | app/scripts/components/background/background.js:57-61 | with complete options, a pending restart makes the next cycle clear the timer and start the service afresh, after which no restart is pending. The flag stays up only while reading the options throws |
| Background.InitialisedStarts | app/scripts/components/background/background.js:21-30 | init starts the service exactly when the stored list is not empty; with a refresh time set, the first effect is a timer with the next handle and the refresh time in milliseconds, and a timer runs afterwards only if a refresh time is set |
| Background.OnGetData | app/scripts/components/background/background.js:95-103 | GET_DATA answers the merge of buffer and list, empties the buffer, and changes nothing else |
| Background.OnAddChange | app/scripts/components/background/background.js:107-126 | ADD_CHANGE saves the placeholder in front of the list and answers true; it starts the service only when no timer runs, and the first cycle sees the new list |
| Background.OnRemoveChanges | app/scripts/components/background/background.js:130-142 | REMOVE_CHANGES keeps, in order and with their multiplicity, exactly the entries whose id is not listed, answers true, and stops the service iff nothing is left; nothing else in the runtime changes |
| Background.OnRestartService | app/scripts/components/background/background.js:156-163 | RESTART_SERVICE answers true and sets `restart` only while a timer runs; nothing else changes |
| Background.OnExistsConfig | app/scripts/components/background/background.js:167-172 | EXISTS_CONFIG answers exactly the value of `isConfigSet`, or rejects with its exception; nothing changes |
| Background.OnOpenChange | app/scripts/components/background/background.js:176-188 | OPEN_CHANGE opens `endpoint/id` iff an endpoint is set, and answers true |
| Background.OnUnrecognised | app/scripts/components/background/background.js:72-91 | any other message answers false and changes nothing |
| Background.Controller.constructor | app/scripts/components/background/background.js:18-19 | both flags start false |
| Background.Controller.Reset | app/scripts/components/background/background.js:32-35 | carries out `ResetFlags` |
| Background.Controller.StopService | app/scripts/components/background/background.js:51-55 | carries out `Stopped` |
| Background.Controller.StartService | app/scripts/components/background/background.js:41-49 | carries out `Started` |
| Background.Controller.RestartService | app/scripts/components/background/background.js:57-61 | stop, then start |
| Background.Controller.Follow | app/scripts/components/background/background.js:51-61 | carries out the stop callback, the restart callback (stop, then start), or nothing, as the cycle's last effect says |
| Background.Controller.Service | app/scripts/components/background/background.js:64-66 | carries out `Cycled` and keeps the controller valid |
| Background.Controller.Init | app/scripts/components/background/background.js:21-30 | carries out `Initialised` |
| Background.Controller.HandleMessage | app/scripts/components/background/background.js:72-91 | carries out `OnMessage` and keeps the controller valid |

## Left out

- The HTTP client (axios) and `JSON.parse` are functions supplied in
  `Gerrit.Remote`. They are not modelled. Which statuses the client
  rejects (by default every status outside 2xx) is part of that function:
  a rejected request is `Thrown`, a resolved one a `Reply`.
- `query` passes the credentials as a third argument, which `axios.get`
  does not read, so requests carry no authentication. The model's requests
  carry none either.
- Gerrit.Query: a 200 reply with an empty body makes `query` return that
  empty body, the string `""`, not `{}`. The model returns `{}`. For an
  entry that is not `{}` the two act alike: lodash `isEqual` finds either
  one different, the entry is replaced, and the updated copy is
  `{updated: true}`. For a stored `{}` entry they differ:
  `isEqual({}, "")` is false, so the code replaces that entry by `""` and
  counts an update, while the model sees no change and counts no update.
- A change id is a string. The tests also send a number, which the code
  stores as a number. The code renders it with `chid.toString()` for an
  error entry and with a template literal in the URL; for a number both give
  its decimal digits, so the model keeps the id as that string.
- Label entries are reduced to their integer `value`. Entries without a
  `value`, and the `approved`/`rejected` fields, are not modelled.
- `Gerrit.test`, the endpoint probe, is called by TEST_ENDPOINT but is not
  defined in `gerrit.js`. It is not part of this model: it is a boolean
  function in `Background.Env`.
- The `api.js` that defines the message constants has no `EXISTS_CONFIG`
  and no `OPEN_CHANGE`, so in that file both case labels are `undefined`.
  The model gives each message its own kind, as its callers and tests use
  them.
- Concurrency is not modelled. Each handler and each cycle runs to
  completion before the next starts, and timer ticks are explicit calls to
  `Controller.Service`. In ADD_CHANGE, the first cycle of the service it
  starts runs after the new list is saved, because that cycle's reads reach
  storage after the write.
- `setInterval` returns a fresh positive handle. The model numbers the
  handles 1, 2, 3, …, so a handle is never the falsy 0.
- The `ignore` helper and the delivery of the UPDATE_DATA message are not
  modelled: the message is recorded as sent and its outcome is dropped.
- Notification type, priority and icon are not modelled. The title and the
  message template are inputs; only the `%` substitution and the plural `s`
  are modelled.
- The refresh time is taken as an integer number of seconds; string
  coercion is not modelled.
- Registering the message listener in `init` and every `console.log` are
  not modelled.
- Storage is synchronous and cannot fail. JSON encoding of stored values is
  the identity.
- ADD_CHANGE checks `updated.length > 0` on a list that always holds the
  placeholder. The model checks only `polling === false`.

## Findings

| source | as written | input that shows it | evidently intended | confidence | as-written member | corrected member |
|---|---|---|---|---|---|---|
| app/scripts/components/background/gerrit.js:56 | when a later non-zero vote is smaller than the first, the loop reads the undefined name `item` and throws | votes `[1, -1]` | the least non-zero vote, -1 | not executed | Gerrit.FilterLabelLaterSmallerVote | Gerrit.LeastVote |
| app/scripts/components/background/gerrit.js:51 | with no non-zero vote, `reviews[0].value` reads a field of `undefined` and throws | votes `[0, 0]` | 0, the value the caller set before the call | not executed | Gerrit.FilterLabelNoVote | Gerrit.LeastVote |

`Gerrit.Convert` uses the function as written, so the model keeps both
throws. `Gerrit.LabelValueIsLeast` proves that whenever the shipped function
returns a value, that value is `Gerrit.LeastVote`.
