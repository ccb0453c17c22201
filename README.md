# Raid bot model

A Dafny model of the core of a Discord "raid" bot, in its two versions:

- **index.js**, the Node.js version. It keeps users and settings in SQLite and registers through a confirmation button.
- **main.py**, the discord.py version. It keeps everything in memory.

During a raid session, members post links to their tweets in a raid channel. The bot records which Discord user posted which tweet id. When the session closes, it asks a Twitter lookup service which of the session's tweets each participant replied to, then posts a ranked report.

The model covers:

- the submission table and the user registry, and how the link collector, `openSession`/`open_session`, registration and the report change them;
- the structural search through the lookup service's JSON replies (`findValuesByKey`), and how each version picks a numeric account id (`getNumericId`/`get_numeric_id`) and counts replies (`checkReplies`/`check_replies`);
- the report: per-participant scores clamped to the number of tweets, the shared requirement `max(1, n - 1)`, the capped percentage, the "complete" classification, the stable descending sort, and the splitting of the report text at 1900 characters;
- the link pattern `status/(\d+)`: the first match, with the whole run of digits captured;
- the admin gate of each version, and the admin commands it protects.

The modules follow the program's structure:

| module | file | contents |
|---|---|---|
| `Json` | json.dfy | the JSON tree of a lookup response, with JavaScript and Python truthiness, string conversion, dictionary membership and indexing |
| `JsonSearch` | json_search.dfy | `findValuesByKey` |
| `Links` | links.dfy | the `status/(\d+)` extraction |
| `Session` | session.dfy | the submission table: a JavaScript `Map` or Python `dict` of tweet id to author, kept in insertion order |
| `Handles` | handles.dfy | cleaning a registered handle |
| `Scoring` | scoring.dfy | the report arithmetic, ranking and message splitting |
| `JsBot` | js_bot.dfy | index.js, with class `RaidBot` |
| `PyBot` | py_bot.dfy | main.py, with class `PyRaidBot` |

Inputs that stand in for the outside world:

- A lookup-service call is a total function from request to response. The response is `Received(json)` or `RequestError`.
- Whether Discord finds the raid channel is a boolean input.
- The order in which Python iterates the `participants` set is an input.
- Discord converters and mentions arrive already resolved, as ids or `None`.

## Model

| member | source | states |
|---|---|---|
| JsonSearch.FindValuesByKey | index.js:87-98 | the result is the incoming list followed by every truthy value stored under `key` anywhere in the tree, in depth-first order; a falsy or scalar `obj` returns the list unchanged |
| JsonSearch.WalkItems | index.js:89-90 | walking an array appends each element's findings in turn, after what the list held |
| JsonSearch.WalkMembers | index.js:91-95 | walking an object pushes a member's own value when its name is `key` and it is truthy, then descends into it whatever its name |
| JsonSearch.ValuesByKeyIff | index.js:87-98 | a string is found exactly when some object nested in the tree binds `key` to a truthy value whose `String()` is that string (both directions) |
| JsonSearch.ArrValuesIff | index.js:89-90 | the same equivalence for an array: found exactly when some element yields it |
| JsonSearch.ObjValuesIff | index.js:91-95 | the same equivalence for an object: found exactly when a member is `key: x` with `x` truthy, or its value yields it |
| JsonSearch.ItemsValuesIff | index.js:89-90 | a walk over array elements finds a string exactly when one of the elements yields it |
| JsonSearch.MembersValuesIff | index.js:91-95 | a walk over object members finds a string exactly when one of the members yields it |
| JsonSearch.ItemsValuesAppend | index.js:89-90 | array siblings are visited left to right: walking `xs + ys` finds what walking `xs` finds, then what walking `ys` finds |
| JsonSearch.MembersValuesAppend | index.js:91-95 | object members are visited in enumeration order, in the same concatenation sense |
| JsonSearch.FirstMemberFirst | index.js:91-95 | depth first: the first member's own value and everything beneath it come before any later member's findings |
| JsonSearch.FirstItemFirst | index.js:89-90 | depth first: everything beneath the first array element comes before the later elements' findings |
| Links.ExtractTweetId | index.js:243 | no result exactly when no `status/` followed by a digit occurs; otherwise a non-empty run of digits captured greedily at the leftmost match |
| Links.FindMatch | index.js:243 | the leftmost position at or after `from` where the pattern matches, or none |
| Links.DigitRun | index.js:243 | the digit run from a position: all digits, ending at the end of the text or before a non-digit |
| Links.ExtractAt | main.py:268 | conversely, at the first match the extraction returns exactly the greedy digit run captured there |
| Links.ExtractFromTweetUrl | main.py:268 | for `https://x.com/<user>/status/<id>` or the twitter.com form, followed by any text that does not extend the digits, the extracted id is `<id>` |
| Links.NoMatchInsideUrl | index.js:243 | no match starts in the scheme, host, user or `status` part of such a link |
| Session.Set | index.js:265 | `sessionTweets.set(tweet, author)`: the entry is present afterwards, and the table grows by at most one entry |
| Session.SetIsUpsert | main.py:271 | assigning keeps tweet ids distinct, and the map view gains or overwrites exactly that key; a new tweet id goes last and an existing one keeps its place |
| Session.SetTweets | index.js:265 | the key order after `set` is unchanged for an existing tweet id, or gains the new id at the end; keys stay distinct |
| Session.SetTweetsOrder | index.js:265 | the key order after `set`, with no distinctness assumption |
| Session.SetExistingTweet | index.js:265 | re-assigning an existing tweet id leaves the key order as it was |
| Session.SetNewTweet | index.js:265 | a new tweet id is appended to the key order |
| Session.SetAsMap | main.py:271 | read as a dictionary, the table after `set` is the old one with that key updated |
| Session.SetEntries | index.js:265 | every entry after `set` is either the new one or an old one |
| Session.SetKeepsOneLinkPerAuthor | index.js:255-265 | an author who owns no link may add one, even over another author's tweet id, and no author then owns two |
| Session.SetAppends | main.py:271 | a tweet id not yet in the table is appended as a new entry, leaving the others alone |
| Session.SetKeepsInvariants | index.js:241-267 | accepting a new author's first link keeps both table invariants, and records exactly that link in the map view |
| Session.Dedup | index.js:189 | `new Set(values)`: every value exactly once and nothing else, and for any two kept values the earlier one occurs in the input before every occurrence of the later one, i.e. order of first appearance |
| Session.DedupOfDistinct | index.js:189 | values that are already distinct pass through `new Set` unchanged |
| Session.ParticipantsOneEach | index.js:189 | under the one-link rule, the participants are exactly the authors, one per tweet |
| Scoring.Required | index.js:208-209 | the requirement is at least 1, and is `targets - 1` for two or more targets |
| Scoring.PyRequired | main.py:185 | the requirement is at least 1 |
| Scoring.RequiredAgree | main.py:185 | both versions require the same `max(1, targets - 1)` |
| Scoring.Percent | index.js:212-213 | the percentage is capped at 100, and is 0 for a score of 0 |
| Scoring.CompleteIffMet | index.js:214 | the percentage reaches 100 exactly when the score reaches the requirement |
| Scoring.LineOf | index.js:211-216 | a line carries the row's id, handle, score and requirement; its percentage is at most 100; it is complete exactly when the score is at least the requirement |
| Scoring.LinesOf | main.py:184-188 | one line per ranked row, in ranked order, all against the same requirement |
| Scoring.Insert | index.js:203 | inserting keeps the multiset of rows and keeps adjacent scores non-increasing |
| Scoring.SortByScore | main.py:169 | the sort is a permutation, with adjacent scores non-increasing |
| Scoring.SortByScoreRanks | index.js:203 | the sorted rows are non-increasing by score at every pair of positions, the same length, and hold exactly the original rows |
| Scoring.RankedRows | index.js:203 | after sorting, every row's id is a participant within the score bound, and every participant has a row |
| Scoring.Chunks | index.js:227 | the chunks concatenate back to the report, and each holds 1 to 1900 characters |
| Scoring.ReportMessages | index.js:226-231 | the messages concatenate back to the report and each fits in 1900 characters; a long report takes `ceil(len / 1900)` messages |
| Scoring.ChunksCount | index.js:227 | the number of chunks is `ceil(len / 1900)` |
| Scoring.PyReportMessages | main.py:196-200 | one or two messages concatenate back to the report; the first fits; there are two exactly when the report is longer than 1900 |
| Scoring.PySecondMessageUnbounded | main.py:196-200 | main.py's second message is over the 1900 limit for a report longer than 3800 characters, where index.js sends three or more chunks |
| Handles.TrimStart | index.js:286 | the result is a suffix of the input, every character cut is white space, and the result does not start with white space |
| Handles.TrimEnd | main.py:251 | the result is a prefix of the input, every character cut is white space, and the result does not end with white space |
| Handles.Trim | index.js:286 | the result is the contiguous slice of the input between a leading and a trailing run of white space, with no white space at either end; so every non-space character survives, in place |
| Handles.TrimmedChars | main.py:251 | cutting white space from both ends leaves the slice starting after the leading run, and keeps every other character |
| Handles.FirstIndex | index.js:286 | the position of the first occurrence of a character |
| Handles.RemoveFirst | index.js:286 | JavaScript `replace('@', '')`: unchanged when there is no `@`, otherwise exactly one character shorter |
| Handles.RemoveFirstAt | index.js:286 | what `replace` removes is the first `@`; everything before and after it stays |
| Handles.RemoveAll | main.py:251 | Python `replace("@", "")`: no `@` remains, every other character keeps its count, and a single character is dropped exactly when it is `@` |
| Handles.RemoveAllConcat | main.py:251 | removal works piece by piece, `RemoveAll(a + b) == RemoveAll(a) + RemoveAll(b)`, so the kept characters stay in order |
| Handles.CleanHandles | main.py:251 | main.py's stored handle holds no `@`; index.js turns `@@name` into `@name` |
| Handles.JsCleanHandle | index.js:286 | the stored handle is no longer than the argument, has no white space at either end, and is the trimmed argument itself when it holds no `@`; otherwise it is the argument with only its first `@` spliced out, then trimmed |
| Handles.PyCleanHandle | main.py:251 | the stored handle holds no `@`, has no white space at either end, and keeps every character of the argument that is neither `@` nor white space; exactly, it is the slice of the `@`-free handle between its leading and trailing white space |
| JsBot.FirstPlausible | index.js:115 | the first id that is all digits and longer than 5 characters, or none exactly when there is no such id |
| JsBot.NumericIdOf | index.js:100-119 | a request error gives null; when the reply holds a `rest_id`, the first one in depth-first walk order is returned; otherwise the first plausible `id` in walk order, or null |
| JsBot.NumericIdOfFinds | index.js:100-119 | a request error gives null; a `rest_id` anywhere in the reply wins; otherwise the result is a plausible `id` found in the reply, present exactly when one exists |
| JsBot.EarlierItemRestIdWins | index.js:87-112 | when an array element yields a `rest_id`, the later elements cannot change the id chosen |
| JsBot.EarlierMemberRestIdWins | index.js:87-112 | when an object member, or what lies beneath it, yields a `rest_id`, the later members cannot change the id chosen |
| JsBot.FirstRestIdReturned | index.js:111-112 | of two objects in a row each holding a `rest_id`, the first one's is returned |
| JsBot.GetNumericId | index.js:100-119 | returns `NumericIdOf` the response: the first `rest_id` found, else the first plausible `id`, else null |
| JsBot.ScanIds | index.js:115 | the loop returns the first plausible id, or null |
| JsBot.FetchCount | index.js:123-125 | the request count is between 20 and 100; it is `targets + 20` up to 80 targets, and 100 above |
| JsBot.CountIn | index.js:140-143 | the match count is at most the number of targets |
| JsBot.RepliesScore | index.js:121-149 | the score is at most the number of targets; 0 without a numeric id or on a request error; for distinct targets and a received page, the number of targets the page replies to |
| JsBot.RepliedToIff | index.js:136-138 | a target counts exactly when the reply page binds it under `in_reply_to_status_id_str` or `in_reply_to_status_id`, at any depth |
| JsBot.CountInDistinct | index.js:140-143 | for distinct targets, the score is the number of targets found in the union of reply ids |
| JsBot.AddAll | index.js:137-138 | adding to a `Set`: no duplicates, the contents are the union, and earlier contents keep their order |
| JsBot.CheckReplies | index.js:121-149 | returns `RepliesScore`: 0 for a missing id or a failed request, otherwise the targets found in the union of both reply keys |
| JsBot.ResultFor | index.js:191-199 | a row has the participant's id and a score within the tweet count; an unknown user is "Unknown" with score 0; a registered user scores `checkReplies` of the stored id, hence 0 without one |
| JsBot.ResultsFor | index.js:191-201 | one row per participant, in participant order |
| JsBot.ReportOf | index.js:172-216 | no usable channel reports nothing, an empty session reports "no links", otherwise a report against `Required` with one row and one line per participant, each line the row's `LineOf` |
| JsBot.ReportOfRanks | index.js:172-216 | under the one-link rule, the report has one row per tweet, ranked by score, covering every participant and nobody else, each row that participant's own result; a line is complete exactly when its score meets the requirement |
| JsBot.RaidBot.constructor | index.js:33-46 | the bot starts with no session links, over the stored users and settings |
| JsBot.RaidBot.IsAdmin | index.js:364-369 | the super admin and anyone with the Administrator permission pass; with no admin role configured nobody else does |
| JsBot.RankedResults | index.js:189-203 | the sorted rows rank the authors: one per tweet, best first, each the author's own result |
| JsBot.RowsAreOwnResults | index.js:191-203 | sorting only reorders, so every ranked row is its own participant's result |
| JsBot.RaidBot.CollectLink | index.js:241-267 | outside the raid channel nothing happens; unregistered authors and second links are refused, leaving the table unchanged; an accepted link is upserted; the one-link invariant is kept |
| JsBot.RaidBot.OpenSession | index.js:154-170 | the table is empty afterwards whether or not the channel is found; the session is announced exactly when a channel is configured and found |
| JsBot.RaidBot.CloseAndReport | index.js:172-232 | returns `ReportOf` for the current state, and cannot change the table |
| JsBot.RaidBot.ScoreParticipants | index.js:191-201 | the loop's rows are `ResultsFor` the participants |
| JsBot.RaidBot.Register | index.js:278-294 | an existing row refuses, a missing argument gets the usage line, and a failed lookup is "not found"; otherwise it asks for confirmation with the cleaned handle and the found id; nothing is stored |
| JsBot.RaidBot.Click | index.js:317-328 | only the original author's Confirm stores the row, and no row is ever removed |
| JsBot.RaidBot.RunAdminCommand | index.js:364-391 | a non-admin changes nothing; `setchannel`/`setrole` without a mention change nothing, otherwise they store the setting; `start` opens and `end` reports |
| PyBot.NumericIdLayouts | main.py:72-73 | a non-object reply gives None; when `'result' in data and 'rest_id' in data['result']` holds, that path is read (None if it raises); a test that raises gives None |
| PyBot.NumericIdFallbacks | main.py:74-80 | when the first test is false, `data.user.result.rest_id` is read when `'data' in data and 'user' in data['data']` holds (None if it raises), else a top-level `id`, else None; a test that raises gives None |
| PyBot.NumericIdFallThrough | main.py:72-80 | a `result` without `rest_id` falls through to the top-level `id`; a `result` of null raises and gives None |
| PyBot.NumericIdIn | main.py:72-77 | only a JSON object can yield an id |
| PyBot.NumericIdOf | main.py:65-80 | a request error or exception gives None; any id found came from a JSON object |
| PyBot.EntriesOf | main.py:92-95 | null, booleans and numbers raise; on an object without `content` the entries are `data` when present, else the empty list |
| PyBot.ReplyTo | main.py:97 | None when neither reply key is present; a truthy `in_reply_to_status_id_str` wins; the result is truthy exactly when either key holds a truthy value |
| PyBot.Answers | main.py:98 | an entry only scores when there are targets and it holds one of the reply keys |
| PyBot.RepliesScore | main.py:82-102 | 0 without an id, without targets, on a request error, or when the entries are null; at most the number of entries of a list |
| PyBot.CountEntries | main.py:96-99 | the count is at most the number of entries |
| PyBot.CheckReplies | main.py:82-102 | returns `RepliesScore`: 0 without an id; otherwise one per entry replying to a target, keeping the count reached when an entry raises |
| PyBot.RepeatedRepliesCount | main.py:96-99 | entries are counted, not targets: two replies to the same tweet meet a three-tweet session's requirement of 2 |
| PyBot.RepeatedEntriesCount | main.py:96-99 | `k` copies of an entry answering a session tweet count `k`, whatever the number of tweets |
| PyBot.CountStopsAtNonObject | main.py:96-101 | the count stops at the first entry that is not a dict, keeping what it had |
| PyBot.Retried | main.py:155-162 | the retry keeps the handle, stores an id exactly when one resolves, and resolves to the same id |
| PyBot.RetriedAll | main.py:149-162 | only participants' records change, and the user keys stay the same |
| PyBot.RetriedAllStep | main.py:155-159 | retrying one more participant updates that record alone, which had not changed before |
| PyBot.ResultFor | main.py:149-167 | a row has the id and a score within the tweet count; an unknown user is "Unknown" with score 0; an id that cannot be resolved scores 0; otherwise the score is `min(check_replies(id), len(targets))` |
| PyBot.ResultsFor | main.py:149-167 | one row per participant, in iteration order |
| PyBot.ReportOf | main.py:133-188 | no usable channel reports nothing, an empty session reports "no links", otherwise a report against `PyRequired` with one row and one line per enumerated participant, each line the row's `LineOf` |
| PyBot.ReportOfRanks | main.py:133-200 | the report ranks one row per participant, every author and nobody else, none above the tweet count, each row that participant's own result, with the completeness classification |
| PyBot.RankedResults | main.py:149-169 | the sorted rows: one per participant, best first, each the participant's own result |
| PyBot.DistinctBound | main.py:147 | a duplicate-free enumeration of the authors is no longer than the author list |
| PyBot.PyRaidBot.constructor | main.py:23-26 | at start-up no channel or role is set, and both tables are empty |
| PyBot.PyRaidBot.IsAdmin | main.py:48-60 | the super admin and anyone with the Administrator permission pass; with no admin role set, or one the guild does not have, nobody else does |
| PyBot.PyRaidBot.OnMessage | main.py:262-274 | any link in the raid channel is upserted from any author, so the last writer wins; everything else leaves the table alone |
| PyBot.PyRaidBot.RecordLink | main.py:271 | the table is upserted, keys stay distinct, and the map view gains or overwrites that key |
| PyBot.PyRaidBot.Register | main.py:249-260 | the record is always written, overwriting any earlier one, with None when the lookup fails |
| PyBot.PyRaidBot.OpenSession | main.py:118-131 | the table is empty afterwards whether or not the channel is found; announced exactly when a channel is set and found |
| PyBot.PyRaidBot.CloseAndReport | main.py:133-200 | returns `ReportOf` for the state before; registrations are retried exactly when a report is made; the table cannot change |
| PyBot.PyRaidBot.ScoreParticipants | main.py:149-167 | the loop's rows are `ResultsFor` the participants, and the registry becomes `RetriedAll` |
| PyBot.PyRaidBot.RunAdminCommand | main.py:206-244 | a non-admin changes nothing; `setchannel`/`setrole` store the setting; `forceraid`/`forceclose` refuse with no change when no channel is set, otherwise open or report |
| PyBot.CollectorAllowsSecondLink | main.py:267-272 | unlike index.js, a second link from the same author is kept, breaking one-link-per-author |

## Left out

- Reply bodies are taken in parsed form, where an object holds each key once. A member sequence with a repeated key is representable, and there the JavaScript walk would visit both members, where `JSON.parse` keeps only the last.
- The Discord client is not modelled: deleting messages, reactions, embeds, permission overwrites, sending messages and the button collector's 30-second timeout are all I/O. A button press is an explicit `Click`.
- HTTP calls to the lookup service, credentials and `.env` loading are not modelled. Each call is a total function parameter, so a second call with the same request gets the same answer.
- SQLite is not modelled. The `users` and `settings` tables are maps held by `RaidBot`.
- The scheduler is not modelled: `cron.schedule`, `tasks.loop`, `asyncio.sleep` and `setTimeout` are wall-clock timing.
- The `diagnose`, `version` and `config` commands are presentation only.
- The report's text layout, the date and the emoji are not modelled. Report splitting is modelled on an arbitrary string.
- Scoring.Percent: computed on integers, `floor(100 * score / req)`. Both sources compute in floating point, where a result can be one lower; for example `29 / 100 * 100` floors to 28. Only the cap and the complete-exactly-when-`score >= req` property are stated.
- PyBot.ReportOfRanks: main.py prints every row the same way. The `complete` flag is kept only so both reports share one line type.
- Json.JsString and Json.PyStr: numbers are integers, and JavaScript numbers above 2^53 are not modelled. Python's `str` of a list or dict is a placeholder, never a run of digits.
- JsBot.LooksNumeric: `!isNaN(id)` is taken as a non-empty run of ASCII digits. JavaScript also accepts forms such as `" 12"` or `"1e5"`.
- Links.ExtractTweetId: Python's `\d` also matches non-ASCII Unicode digits. Only ASCII digits are modelled.
- String lengths count characters, not UTF-16 code units.
- The Python `participants` set has no fixed iteration order. The order is an input that enumerates the authors without duplicates.
- Lowercasing and splitting of the command word are not modelled. Discord converter failures for `setchannel`/`setrole` are not modelled either; converters arrive resolved, and the index.js mentions as an id or `None`.
- JsonSearch.FindValuesByKey: the shared array that index.js pushes into is threaded as a value. Aliasing of the caller's array is not modelled. Every caller in index.js uses only the returned list.
- JsBot.ReportOf, JsBot.RaidBot.CloseAndReport, PyBot.ReportOf and PyBot.PyRaidBot.CloseAndReport: each handler is modelled as running without interleaving at its awaits, reading the session table and the user registry once. In the source, two effects of interleaving are not captured. First, the targets (index.js:180, main.py:139) and the participants (index.js:189, main.py:147) are read on either side of an awaited `channel.send`, so a link collected in between makes its author a participant scored against targets that lack that link. Second, index.js looks the user up on every pass of the loop (index.js:192), across the awaited `checkReplies` (index.js:197), so a registration confirmed mid-loop is seen by later participants.
- Scoring.SortByScore: stability is built into the insertion order but not stated as a separate lemma.
