# Scheduling engine of the 할매 Discord bot, in Dafny

This project models the part of `bot.js` that does the group's scheduling:

- Every party of the fixed roster (`USER_KEYS`) records *busy intervals* with `/busy add`, `/busy list`, `/busy remove` and `/busy clear`.
- `/go` takes a day, a time range, a duration and a step. It searches the stored intervals for windows in which no roster party is busy. It proposes the earliest one and annotates it with each party's overlapping intervals.
- The proposal's two buttons (`간다` / `못 간다`) record each party's answer. A proposal is confirmed when everyone accepts, and cancelled as soon as someone declines.

Modules, one file each:

- `Outcomes` (`outcomes.dfy`): `Option` and `Result`.
- `Seqs` (`seqs.dfy`): `Array.prototype.filter` on sequences.
- `JsBuiltins` (`js_builtins.dfy`): the JavaScript built-ins the engine relies on, for integer-valued inputs (see "Left out" for double rounding):
  - numbers as `Finite(int) | NaN`;
  - `Number(string)`, `String(n)` and `padStart(2, "0")`;
  - `trim`, ASCII `toLowerCase` equality;
  - the order `localeCompare` sorts by.
- `TimeUtil` (`time_util.dfy`): minute codes (`toMin`, `fromMin`, `normalizeTimeToMin`, `isHHMM`, `overlap`). The round trips between them are proved, and so is the meaning of the overlap test.
- `GoDay` (`go_day.dfy`): `parseGoDay`. Today's and tomorrow's dates in Korean time are parameters.
- `Busy` (`busy.dfy`): the busy record, the filters the `/busy` subcommands apply, and `/busy list`'s stable sort.
- `Availability` (`availability.dfy`): covers three parts of `/go`.
  - `recommendSlotsByInput`. Its nested loops become the methods `ScanGrid` (the grid walk), `ScanStep` (one pass of its body), `WindowIsFree` and `PersonIsFree`. `RecommendSlots` states what the whole search returns.
  - `computeConflicts`, as the methods `ComputeConflicts`, `EmptyConflicts` and `PartyConflicts`.
  - `/go`'s input checks.
  - The search's result is proved to be exactly the first feasible grid windows, in ascending order.
- `Proposals` (`proposals.dfy`): the proposal record, the vote update and its status rule, and the button id's round trip.
- `Store` (`store.dfy`): the persistent store (`busy` and `proposals`) as a class.
  - Each state-changing handler is a method: `Add`, `Remove`, `Clear`, `Go` and `Press`.
  - Every method keeps the invariant `Valid()`:
    - ids are unique;
    - every busy record belongs to a roster party and starts before it ends;
    - every proposal has one response per roster party and the status its responses call for.

Reading times in loops: the loops of `recommendSlotsByInput` and `computeConflicts` read and write clock times through a `Clock` value. `Availability.BotClock` pairs `normalizeTimeToMin` with `fromMin`, and it is the only clock bot.js uses. The methods are proved for every clock. `SlotAtMinutes` and `CheckedQueryIsSearchable` connect them to `BotClock`: a request `/go` accepts can be searched, and each candidate's text reads back as the window it stands for.

Values that come from outside are parameters:

- the roster;
- the ids `crypto.randomUUID()` draws, each required to be unused;
- the store snapshot `loadStore()` returns;
- today's date;
- the caller's roster key. `userKeyFromDiscordId` lives in `data.js`, and `data.js` is not part of this model.

## Model

| member | source | states |
|---|---|---|
| JsBuiltins.ToNumberDigits | bot.js:27 | `Number` reads a string of decimal digits as its decimal value |
| JsBuiltins.TrimUnpadded | bot.js:74 | a string with no white space at either end is its own `trim()` |
| JsBuiltins.NatToStringValue | bot.js:31-32 | reading back the digits `String(n)` writes gives `n` |
| JsBuiltins.PadStart2Value | bot.js:31-32 | `padStart(2, "0")` keeps a digit string's value |
| JsBuiltins.TwoDigitsRoundTrip | bot.js:31-32 | a two-digit field is exactly the padded decimal form of its value |
| JsBuiltins.StrLeTotal | bot.js:358 | any two sort keys are ordered one way or the other |
| JsBuiltins.StrLeTransitive | bot.js:358 | the sort order is transitive |
| JsBuiltins.StrLeAntisymmetric | bot.js:358 | keys ordered both ways are equal |
| TimeUtil.ColonAfter | bot.js:27 | the first ':' follows a colon-free field, so `split(":")` cuts there |
| TimeUtil.ColonIndex | bot.js:27 | the position `split(":")` cuts at: no ':' before it, and a ':' there unless it is the end |
| TimeUtil.ToMinSplit | bot.js:26-29 | `toMin` of two colon-free fields joined by ':' reads each with `Number` and returns `h * 60 + m` |
| TimeUtil.ToMinOfNumbers | bot.js:26-29 | when both fields read as finite numbers `x` and `y`, `toMin` is `60 * x + y` |
| TimeUtil.ToMinOfFields | bot.js:26-29 | `toMin` of `a:b` with digit fields is `60 * a + b` |
| TimeUtil.ToMinOfPadded | bot.js:26-33 | `toMin` reads back the two padded fields `fromMin` writes as hours times 60 plus minutes |
| TimeUtil.HHMMValue | bot.js:26-29 | `toMin` of a well-formed time other than `24:00` is hours times 60 plus minutes, with hours below 24 and minutes below 60 |
| TimeUtil.NormalizeRange | bot.js:35-44 | a time `isHHMM` accepts normalizes to a minute 0..1440, and only `24:00` gives 1440 |
| TimeUtil.ToMinFromMin | bot.js:26-33 | `toMin(fromMin(n)) == n` for every non-negative minute code |
| TimeUtil.SentinelMinute | bot.js:30-36 | only minute code 1440 is written `24:00` by `fromMin` |
| TimeUtil.NormalizeFromMin | bot.js:30-37 | `normalizeTimeToMin(fromMin(n)) == n`, the sentinel included |
| TimeUtil.FromMinIsHHMM | bot.js:30-44 | every minute of the day is written by `fromMin` as a time `isHHMM` accepts |
| TimeUtil.FromMinFields | bot.js:30-33 | `fromMin(60h + m)` writes `h` and `m` as padded fields |
| TimeUtil.HHMMFields | bot.js:42-44 | a well-formed time is the padded form of its own hour and minute values |
| TimeUtil.FromMinNormalize | bot.js:30-44 | `fromMin(normalizeTimeToMin(t)) == t` for `00:00`..`23:59` |
| TimeUtil.OverlapIsSharedMinute | bot.js:38-40 | two finite intervals overlap exactly when some minute lies in both half-open ranges |
| TimeUtil.OverlapSymmetric | bot.js:38-40 | the overlap test does not depend on argument order |
| TimeUtil.AdjacentDoNotOverlap | bot.js:38-40 | back-to-back intervals never overlap |
| TimeUtil.NaNNeverOverlaps | bot.js:38-40 | a NaN bound (a malformed time) never overlaps anything |
| GoDay.LiteralDay | bot.js:83-90 | the `YYYY-MM-DD` branch returns the literal exactly when it has the shape, a month 1..12 and a day 1..31 |
| GoDay.ParseGoDay | bot.js:73-91 | a parsed day is today, tomorrow or an accepted literal |
| GoDay.LiteralDate | bot.js:83-90 | a literal of the right shape comes back unchanged exactly when month and day are in range, and is rejected otherwise |
| GoDay.MalformedDay | bot.js:79-83 | text that is no keyword and not of the date shape is rejected |
| Seqs.Filter | bot.js:144 | `filter` keeps exactly the elements satisfying the test and is no longer than its input |
| Seqs.FilterConcat | bot.js:144 | filtering keeps the relative order of what it keeps |
| Seqs.FilterMultiset | bot.js:406 | filtering never adds or duplicates an element |
| Busy.OnDate | bot.js:144 | the day's records are exactly the stored ones with that date |
| Busy.OwnedBy | bot.js:156 | a party's records are exactly the stored ones with its key |
| Busy.Without | bot.js:406 | `remove` keeps exactly the records with another id |
| Busy.NotOwnedBy | bot.js:423 | `clear` keeps exactly the records of other parties |
| Busy.FindById | bot.js:388 | `find` fails exactly when no record has the id, and otherwise returns a stored record with it |
| Busy.UniqueIdsCons | bot.js:406 | ids are unique in `[x] + t` iff they are in `t` and `x`'s id is new |
| Busy.FilterKeepsUniqueIds | bot.js:406 | dropping records keeps ids unique |
| Busy.RemoveDeletesOne | bot.js:387-407 | with unique ids, `remove` deletes exactly the record `find` returned and nothing else |
| Busy.ClearKeepsOrder | bot.js:422-424 | `clear` keeps the other parties' records in stored order |
| Busy.ClearPartition | bot.js:422-424 | what `clear` keeps plus the caller's records is the whole store |
| Busy.InsertSorted | bot.js:358 | inserting into a sorted list keeps it sorted and adds exactly that record |
| Busy.SortByKeySorted | bot.js:358 | the sort returns a permutation of its input ordered by date then start |
| Busy.ListBusy | bot.js:351-358 | `/busy list` shows exactly the records of `user || callerKey` (all when neither is given), sorted by date then start |
| Busy.InsertKeyFilter | bot.js:358 | insertion puts a record after none of the records with its own key |
| Busy.SortStable | bot.js:358 | records with equal keys keep their stored order |
| Busy.ListStable | bot.js:351-358 | `/busy list` shows records of the same date and start in the order they were added |
| Availability.MinuteOf | bot.js:146-147 | a well-formed time has a finite minute code of at most 1440 |
| Availability.SlotsAtSnoc | bot.js:171 | pushing a candidate appends its window's text |
| Availability.SlotsAtIndex | bot.js:169-171 | the i-th candidate is the text of the i-th kept start |
| Availability.GridGap | bot.js:150 | no grid point lies strictly between two neighbouring ones |
| Availability.SlotAtMinutes | bot.js:168-171 | with bot.js's clock, a candidate's `start` and `end` read back as `t` and `t + durationMin`, `24:00` included |
| Availability.OwnedFree | bot.js:156-164 | checking `personBusy` checks all of the party's intervals of the day |
| Availability.PersonIsFree | bot.js:157-164 | the inner loop answers ok exactly when none of the party's intervals overlaps the window |
| Availability.FreeForAll | bot.js:155-166 | the window is free when it is free for each party in turn |
| Availability.OwnedCollision | bot.js:155-166 | one party's overlapping interval makes the window not free |
| Availability.WindowIsFree | bot.js:154-166 | the roster loop answers ok exactly when no roster party's interval that day overlaps the window |
| Availability.BlockedOnDate | bot.js:144 | searching the day's records is searching the store for records on that day |
| Availability.SearchKeep | bot.js:168-173 | keeping a feasible grid start extends "every feasible start so far is kept, in ascending order" to the next grid point |
| Availability.SearchSkip | bot.js:150-168 | passing over an infeasible grid start extends the same fact to the next grid point |
| Availability.ScanStep | bot.js:151-173 | after one pass the kept starts are still exactly the feasible ones, now up to the next grid point; a kept window adds one candidate and a skipped one changes nothing |
| Availability.ScanGrid | bot.js:149-174 | the loop ends having kept, in ascending order, every feasible start below where it stopped, and it stops early only with `maxCandidates` kept |
| Availability.RecommendSlots | bot.js:135-177 | the result is the first `maxCandidates` feasible grid windows (at least one when any exists), every one free for all parties, in ascending order, and none when the duration exceeds the range |
| Availability.ConflictNotesConcat | bot.js:230-240 | the notes of a split store are the notes of each part in order |
| Availability.ConflictNotesOfSlots | bot.js:228-231 | filtering by day and party first changes no note |
| Availability.NoteStep | bot.js:232-238 | one more interval adds its note exactly when it overlaps |
| Availability.PartyConflicts | bot.js:231-239 | the inner loop collects the notes of exactly the party's overlapping intervals, in store order |
| Availability.EmptyConflicts | bot.js:225-226 | the result map has exactly the roster keys, each with an empty list |
| Availability.ComputeConflicts | bot.js:220-243 | one entry per roster key, each listing exactly that party's intervals on the date that overlap the window |
| Availability.ConflictNotesEmpty | bot.js:230-240 | a party's list is empty exactly when none of its intervals that day overlaps |
| Availability.BlockedIffConflict | bot.js:220-243 | the search rejects a window exactly when `computeConflicts` would show a conflict for it |
| Availability.CandidateHasNoConflicts | bot.js:168-171 | a window the search keeps shows no conflict for any party |
| Availability.CheckGoRequest | bot.js:431-489 | `/go` accepts exactly a valid day, two well-formed times in order, a duration 1..600, a step 1..180, and a duration that fits; the accepted query carries the given step, or 30 when none is given |
| Availability.CheckedQueryIsSearchable | bot.js:446-498 | an accepted request meets what the search needs, with bot.js's clock |
| Availability.FirstIsEarliest | bot.js:507 | `candidates[0]` is the earliest feasible start, and no candidate means no feasible window |
| Proposals.NewProposalConsistent | bot.js:510-533 | a new proposal is open, and its status agrees with its responses |
| Proposals.VoteOnClosedIsNoOp | bot.js:564 | a vote on a confirmed or cancelled proposal changes nothing |
| Proposals.VoteSetsOnlyCaller | bot.js:566 | a vote sets the caller's response and changes no other response, and no field but the status |
| Proposals.ConfirmedIffAllAccept | bot.js:568-571 | after a vote the proposal is confirmed exactly when every roster party has accepted |
| Proposals.CancelledIffSomeDecline | bot.js:568-572 | after a vote the proposal is cancelled exactly when some party has declined |
| Proposals.DeclineCancels | bot.js:566-572 | a roster party's decline cancels an open proposal |
| Proposals.VotePreservesConsistency | bot.js:561-575 | a vote keeps the status equal to the one the responses call for |
| Proposals.TerminalIsFinal | bot.js:564 | no sequence of votes changes a closed proposal |
| Proposals.VotesPreserveConsistency | bot.js:561-575 | any sequence of votes keeps the status consistent, and a closed status never changes |
| Proposals.SplitFirst | bot.js:547 | `split(":")` peels off a colon-free first field |
| Proposals.SplitFields | bot.js:547 | three colon-free fields joined by ':' split back into those fields |
| Proposals.ParseButtonId | bot.js:119-131 | the handler reads back the proposal id and action of every button `/go` builds, and maps the action to the intended vote |
| Store.FindProposal | bot.js:562 | `find` fails exactly when no proposal has the id, and otherwise points at one with it |
| Store.Store.Add | bot.js:301-349 | refuses a caller outside the roster and a range that does not start before it ends, changing nothing; a roster caller with a range that starts before it ends always succeeds, appending exactly the record built from the input, with the trimmed reason or none |
| Store.Store.Remove | bot.js:377-411 | refuses non-members, unknown ids and other parties' records, changing nothing; the owner of an existing record always succeeds, deleting exactly the record found |
| Store.Store.Clear | bot.js:413-428 | refuses non-members; otherwise removes exactly the caller's records and keeps the rest in order |
| Store.Store.Go | bot.js:490-537 | leaves the busy records alone; stores an open proposal, all responses pending, for the earliest feasible window, or nothing when there is none |
| Store.Store.Press | bot.js:545-575 | ignores foreign buttons and refuses non-members and unknown proposals, changing nothing; a member's press on a stored proposal always succeeds, replacing it by the caller's vote (`ACCEPT` accepts, anything else declines) cast on it |
| Store.UniqueIdsSnoc | bot.js:327-335 | appending a record with a fresh id keeps ids unique |
| Store.UniqueProposalIdsSnoc | bot.js:524-537 | appending a proposal with a fresh id keeps proposal ids unique |

## Left out

- Discord itself is not modelled:
  - the client, command registration and replies;
  - the message texts (`formatBusyItem`, `buildGoMessage`);
  - the button components' labels, styles and disabling.
- `registerCommands.js` (the slash-command schema) is not modelled.
  - Parameter types follow how bot.js reads each option. A read with `required = true` (`getString("from", true)`, `getInteger("duration", true)`) gives a plain `string` or `int`. An optional read (`getString("day")`, `getInteger("step")`, `getString("reason")`, `getString("user")`) gives an `Option`.
- The schema and bot.js disagree on `/go`, and neither consequence is modelled:
  - `registerCommands.js` registers `date`, `time`, `duration`, `from`, `to`, `step` and `count`, but no `day` option. The `day` that bot.js:433 reads is therefore always absent, and the day is always today.
  - `from`, `to` and `duration` are optional in the schema, but bot.js:444-446 reads them as required. discord.js throws when such an option is missing, so a `/go` without one of them ends in an exception rather than a reply.
- The weather command and the daily cron broadcast (`fetchWeather`, the `ready` handler) are not modelled. They do network I/O outside the scheduling engine.
- Persistence is not modelled.
  - `loadStore` and `withStore` are the store object and its methods.
  - File I/O, the JSON encoding and interleaving between concurrent interactions are not captured.
  - Each method is one atomic update.
- `createdAt`, `channelId` and `messageId` are not stored. They come from the clock and from Discord and feed no decision.
- The current date in Korean time (`toKstDateParts`, `addDaysKst`) is the pair of parameters `today` and `tomorrow`. `crypto.randomUUID()` ids are parameters required to be unused.
- `data.js` (`USER_KEYS`, `userKeyFromDiscordId`, `userNameFromKey`) is not part of this model.
  - The roster is a parameter; it is non-empty and has no duplicates.
  - The caller's key is a parameter that is either absent or a roster key.
- JsBuiltins.ToNumber: only trimmed empty strings and optionally signed decimal integers are read. Fractions, exponents, hex and `Infinity` become NaN. Busy times are therefore integral minute codes.
- JsBuiltins.ToNumber: minute codes are exact integers. JavaScript numbers are doubles: `Number` rounds digit strings above 2^53 and gives `Infinity` above about 1.8e308, and `h * 60 + m` is double arithmetic. Such times are not modelled; for example, two times with 400-digit hour fields are both `Infinity` in bot.js, so `/busy add` refuses them, while `Store.Store.Add` compares them exactly and stores the record.
- Store.Store.Add: its range check compares exact minute codes, so times whose fields overflow a double are compared as integers rather than as `Infinity` (see the line above).
- JsBuiltins.LowerEquals: `toLowerCase` is modelled for ASCII letters only. Other scripts' case mappings are not.
- JsBuiltins.StrLe: `localeCompare` is modelled as code-point order, not the locale's collation.
- Availability.RecommendSlots:
  - It requires what `/go` guarantees before calling it: a finite, non-negative start, a finite end, and positive duration and step.
  - A step of 0 is excluded. JavaScript's loop would then test the same window over and over: it pushes copies of a free first window until `maxCandidates` and stops, and it never ends when that window is blocked.
- Store.Store.Go: it takes the query `CheckGoRequest` accepted. The rejected requests are `CheckGoRequest`'s failures, which reply and change nothing.
- The conflict lists shown in the proposal message are not recomputed inside `Store.Store.Go` or `Store.Store.Press`. They only feed the message text.
  - When `/go` computes them for the window it proposes, they are empty: `Availability.CandidateHasNoConflicts` with `Availability.SlotAtMinutes`.
  - A button press recomputes them against the store as it is at that moment (bot.js:585). `/busy add` does not check proposals, so they can list intervals added after the proposal was made. That recomputation and its rendering are not modelled.
