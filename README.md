# Birdwatcher relay bot, modelled in Dafny

Birdwatcher watches a list of accounts on a social platform and posts each
new post of theirs to a chat. The bot has one piece of real logic, and this
project models it:

- **Account resolution.** The comma-separated handle setting is split,
  each handle is stripped of whitespace and looked up, and the ids that
  resolve are kept in order, duplicates included.
- **Cursor initialisation.** Each account gets a baseline cursor: the
  id of its newest post, or none when it has no posts. An account whose
  fetch raised gets no key at all.
- **The poll cycle (`check_tweets`).** For each account in order, the cycle
  fetches with `since_id` set to the account's cursor. It sends one message
  per returned post, oldest first. After every send it overwrites the
  cursor with that post's id, whether the send succeeded or not. Errors
  are per account and never stop the loop.
- **The scheduler.** The endless scheduler loop is cut down to a bounded
  number of cycles.

The two remote clients are oracles given as data:

- A `Source` maps a fetch request (account, `since_id`) to `Posts(page)`
  (newest first, possibly empty), `RateLimited` or `Failed`.
- A `Sink` says whether the n-th send attempt succeeds.
- A `Directory` answers handle lookups.
- A `Latest` function gives the startup fetch of each account.

Files:

- `option.dfy` (module `Options`): the `Option` type of cursors and parses.
- `text.dfy` (module `Text`): Python's `split(",")` and `strip()`, decimal
  rendering of ids, and the message format with its inverse.
- `relay.dfy` (module `Relay`): the data model, the specification functions
  `AccountStep`, `Cycle` and `Cycles`, and the class `Relay`. That class
  holds the cursor map `lastTweetIds`, the `outbox` (every send attempt
  with its outcome) and the log of fetch `requests`. `SendTelegramMessage`
  appends one attempt; the loops `PollAccount`, `CheckTweets` and
  `Monitor` are proved against those functions.
- `startup.dfy` (module `Startup`): the resolution and initialisation loops
  and `RunBot`, which composes start-up and polling.
- `cycle.dfy` (module `CycleProperties`): what one cycle promises. This
  covers ordering, the final cursor, the frame, the `since_id` of each
  fetch, error paths, the send count and independence from delivery
  outcomes.
- `honest.dfy` (module `HonestApi`): properties that also depend on the
  API honouring `since_id`. A second cycle relays nothing, cursors only
  grow, and the two end-to-end scenarios hold.

Three behaviours of the code that the model keeps as written:

- **A rate limit does not end the cycle.** The handler at `bot.py:70-72`
  sleeps, and the `for` at `bot.py:48` then moves on to the next account
  (`CycleProperties.RateLimitDoesNotEndCycle`).
- **A cursor advances even when a send fails.** `bot.py:43-44` catches the
  `TelegramError` of a failed send and returns, and `bot.py:63` then moves
  the cursor to that post's id (`CycleProperties.CycleIgnoresSendOutcome`).
- **Nothing in the code filters posts by time.** `start_time` is passed to
  the remote API (`bot.py:56`), which does the filtering, so the code
  itself promises nothing about timestamps.

## Model

| member | source | states |
|---|---|---|
| Relay.Relay.SendTelegramMessage | bot.py:40-44 | appends exactly one attempt, the message plus the oracle's outcome, to the outbox and, on a `TelegramError`, returns normally; cursors and the request log are unchanged |
| Relay.Relay.PollAccount | bot.py:49-84 | the loop over `reversed(response.data)` leaves the state `AccountStep` describes: one fetch recorded with `since_id` = current cursor; on a non-empty page one message per post oldest-first and the cursor at the newest post's id; on an empty page, rate limit or other error, cursors and outbox unchanged; the flag is true iff the page was non-empty |
| Relay.OldestFirstReverses | bot.py:60 | `reversed` loses and invents no post: reversing twice gives the page back, and the reversed page is a permutation of it |
| Relay.Relay.CheckTweets | bot.py:47-85 | runs the account step for every id in order (the `Cycle` specification) and returns the same store object it updated |
| Relay.Relay.Monitor | bot.py:121-124 | one poll cycle per source snapshot, in order (`Cycles`) |
| Text.Split | bot.py:88 | `split(",")` never returns an empty list and no piece contains the separator |
| Text.JoinSplit | bot.py:88 | joining the split pieces with the separator gives the original setting back |
| Text.SplitJoin | bot.py:88 | splitting a join of separator-free pieces gives the same pieces, so empty pieces are kept |
| Text.SplitCount | bot.py:88 | the number of pieces is one more than the number of commas |
| Text.TrimStartSpec | bot.py:94 | leading strip keeps the longest suffix not starting with whitespace and removes only whitespace |
| Text.TrimEndSpec | bot.py:94 | trailing strip keeps the longest prefix not ending with whitespace and removes only whitespace |
| Text.StripIsTrimmedInfix | bot.py:94 | `strip()` returns a contiguous slice of its input, with only whitespace cut on either side and no whitespace at either end |
| Text.StripIdempotent | bot.py:94 | stripping a stripped handle changes nothing |
| Text.DecimalString | bot.py:61 | `{user_id}` renders as a non-empty run of decimal digits without a leading zero |
| Text.DecimalRoundTrip | bot.py:61 | the rendered digits read back to the same id |
| Text.MessageRoundTrip | bot.py:61 | the message text determines the account id and the post text: parsing the message gives both back |
| Text.MessageInjective | bot.py:61 | two different (account, text) pairs never give the same message |
| Startup.ResolveUserIds | bot.py:88-100 | the loop's result is, in split order, the id of every stripped handle whose lookup returned an account; lookups that return no data or raise are skipped |
| Startup.ResolvedIdsAppend | bot.py:92-97 | resolution is handle by handle and order-preserving: the ids of a concatenation are the concatenation of the ids |
| Startup.ResolvedIdsMembership | bot.py:92-100 | an id is monitored iff some stripped handle resolves to it |
| Startup.ResolvedIdsMultiplicity | bot.py:92-97 | no de-duplication: an id appears once per handle that resolves to it |
| Startup.InitLastTweetIds | bot.py:103-116 | a key exists exactly for the accounts whose startup fetch (one answer per account, see Left out) did not raise; its value is none for an empty page and the first (newest) id otherwise |
| Startup.RunBot | bot.py:87-124 | the whole program, bounded: resolve, initialise, then the given number of poll cycles starting from an empty outbox |
| CycleProperties.CycleAppend | bot.py:48 | a cycle over a concatenation of account lists is the two cycles in sequence |
| CycleProperties.CycleExtends | bot.py:47-85 | a cycle only appends to the request log and the outbox and never removes a cursor key |
| CycleProperties.CycleFetchesEveryAccount | bot.py:48-57 | exactly one fetch per listed account, in order, whatever earlier fetches returned; the k-th fetch's `since_id` is the cursor left by the first k accounts of the same cycle |
| CycleProperties.CycleLeavesOtherCursors | bot.py:63 | the cursor of an account not in the list is untouched (same value, or still absent) |
| CycleProperties.CycleKeys | bot.py:63 | new cursor keys appear only for polled accounts |
| CycleProperties.CycleSendCount | bot.py:59-62 | the number of send attempts in a cycle is the total number of posts carried by that cycle's successful fetches |
| CycleProperties.CycleIgnoresSendOutcome | bot.py:40-63 | whatever the send outcomes, the cycle leaves the same cursors, issues the same fetches and attempts the same messages, so a failed delivery still advances the cursor |
| CycleProperties.DeliveriesCarryPosts | bot.py:61-62 | each attempted message reads back to its account and its post's text |
| CycleProperties.RelayedOldestFirst | bot.py:59-64 | for a non-empty page: exactly one message per post, the k-th naming the account and carrying the text of the k-th oldest post, earlier outbox untouched, and the cursor ends at the id of the page's first (newest) post |
| CycleProperties.RelayOrderIncreasing | bot.py:59-62 | for a newest-first page, the k-th new message of the outbox carries the k-th post of the reversed page, and later messages carry posts with strictly larger ids |
| CycleProperties.NothingRelayedWithoutData | bot.py:59-84 | an empty page, a rate limit or another fetch error sends nothing and leaves every cursor as it was |
| CycleProperties.DuplicateSeesFirstWrite | bot.py:52-63 | an account listed twice: the second fetch passes the cursor the first one wrote |
| CycleProperties.RateLimitDoesNotEndCycle | bot.py:48-72 | after a rate limit on account j, every later account of the list is still fetched in the same cycle (this holds for every outcome of that fetch) |
| HonestApi.StepCatchesUp | bot.py:52-63 | against an API honouring `since_id`, one fetch leaves the account with nothing newer than its cursor |
| HonestApi.PageOverflowScenario | bot.py:50-63 | `max_results=5` and no second page: with seven new posts, ids 7 to 1, only posts 3 to 7 are sent, oldest first, the cursor jumps to 7, and the next cycle sends nothing, so posts 1 and 2 are never relayed |
| HonestApi.CaughtUpStepIsQuiet | bot.py:59-68 | a caught-up account sends nothing and keeps its cursor |
| HonestApi.CycleCatchesUp | bot.py:48-63 | after one honest cycle every polled account is caught up, duplicates included |
| HonestApi.CaughtUpCycleIsQuiet | bot.py:48-68 | a cycle over caught-up accounts sends nothing and moves no cursor |
| HonestApi.SecondCycleRelaysNothing | bot.py:47-85 | two cycles with no new posts in between: the second sends nothing and moves no cursor |
| HonestApi.CycleCursorsGrow | bot.py:52-63 | against an honest API a present cursor is only ever replaced by a larger id |
| HonestApi.FreshAccountScenario | bot.py:59-63 | no cursor for account 42 and posts 103, 102, 101 returned: messages for 101, 102, 103 in that order, cursor 103 |
| HonestApi.NothingNewScenario | bot.py:59-68 | cursor 103 and nothing newer: no message and the cursor stays 103 |

## Left out

- Loading settings from the environment and the `ValueError`s for missing settings (`bot.py:9-28`): configuration I/O.
- Logging, including the diagnostic dump of `TweepyException` responses (`bot.py:31-32`, `44`, `65-69`, `74-84`, `98`, `100`, `111`, `114`, `116`, `118`, `123`): output only. The `new_tweets_found` flag, which only selects a log line, is returned by `PollAccount`.
- The tweepy and Telegram clients (`bot.py:35`, `38`, `42`, `50-57`, `94`, `108`): foreign network calls, replaced by the `Source`, `Sink`, `Directory` and `Latest` oracles. Within one cycle the `Source` answers the same request the same way. So if an account listed twice fails its first fetch, the model does not cover the case where the repeated identical fetch succeeds.
- SendTelegramMessage: models only a send that returns or raises `TelegramError` (`bot.py:42-44`). Any other exception from the send escapes to `except Exception` at `bot.py:73`, which ends that account's batch early: its later posts are not sent and its cursor stays at the last post whose send returned. A `Sink` answers only success or failure, so the model does not produce this partial batch.
- Startup.InitLastTweetIds: the `Directory` and `Latest` oracles give one answer per handle and per id, while the code makes a fresh call for every occurrence (`bot.py:94`, `108`). For a handle or id listed twice the code may get different answers: a key then survives if any startup fetch of that id did not raise, with the value from the last such fetch. The model gives every occurrence the same answer and does not cover that case.
- `asyncio.sleep(900)`, `asyncio.sleep(120)` and the endless `while True` (`bot.py:72`, `121-124`): timing. `Monitor` runs one cycle per given source snapshot.
- Post fields other than id and text (author, creation time) and the `expansions`/`tweet_fields` arguments: the code reads only `id` and `text`.
- RunBot: does not model `start_time` (`bot.py:104`, passed at `bot.py:56`). The time filtering is done by the remote API. As written, line 104 calls `isoformat` on the `datetime` class itself, with no instance, which would raise `TypeError` right after resolution, before the initialisation loop (`bot.py:106`) and the first cycle. The model initialises and polls as if line 104 had produced a timestamp.
- HonestApi.CycleCursorsGrow: cursor growth is proved only for an oracle that honours `since_id`. The code never compares ids, so for an arbitrary `Source` a cursor may move backwards.
- Ids are modelled as non-negative integers. The platform's ids are positive, and the negative-number rendering of `str(int)` is not modelled.
- `Split` models `str.split` with a single-character separator only, which is the only way the code calls it.
