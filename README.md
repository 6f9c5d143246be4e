# Scheduled thread publishing: a Dafny model

This project models the scheduling core of a Discord bot (`main.py`). Users post requests of
the form `thread_id@<digits>,publish_date@YYYY-MM-DDTHH:MM` in a dedicated channel. The bot
checks that a request is well formed and that its thread exists. It reacts 👍 or ❌ and keeps
the accepted requests in a queue ordered by publish time. A once-a-second task posts a message
into the head's thread when that entry is due, and then removes it from the queue.

Files and modules:

- `wrappers.dfy` (`Wrappers`): `Option`. An attribute that `__init__` never assigned is `None`.
- `timestamps.dfy` (`Timestamps`): minute-precision times in the Asia/Tokyo zone.
  `Less`/`LessEq` are Python's field-by-field `datetime` comparison. `MinutesSinceEpoch` counts
  minutes at a fixed +09:00 offset, and the comparison is proved to agree with it.
- `grammar.dfy` (`Grammar`): the pattern `MSG_PATTERN` as `MatchMessage`. Also `int()` as
  `DecimalValue` and `strptime` as `ParseStamp`. Each has its inverse (`Render`,
  `DecimalDigits`, `FormatStamp`) and the round-trip lemmas.
- `schedules.dfy` (`Schedules`): the `Schedule` class as a value. `NewSchedule` is `__init__`.
  Also `__lt__`, `after_schedule_time`/`before_schedule_time`, and the admission test of
  `on_message`.
- `ordering.dfy` (`Ordering`): `schedule_queue.sort()` as a stable insertion sort. Proved:
  sortedness, permutation, stability, and that every stable sort by publish time gives the
  same sequence.
- `bot.dfy` (`Bot`): the global state as class `ScheduleBot`, holding the queue and a log of
  platform effects. Its methods are `process_message`, `check_and_publish_thread` and
  `on_message`. The class invariant `Valid()` says the queue is sorted.

Platform access is modelled by a `World` value, a snapshot of the platform for one call:
the channel ids `get_channel` resolves, the guild's roles, which roles can view which
thread, and whether `thread.send` succeeds. Reactions and thread messages are appended to
`effects`. The clock is the `now` parameter of a tick.

## Model

| member | source | states |
|---|---|---|
| `Timestamps.LessIsStrictTotalOrder` | main.py:64-65 | The publish-time comparison is a strict total order, and `<=` is exactly "not `>`". |
| `Timestamps.LessIsInstantOrder` | main.py:36 | For real calendar minutes at a fixed +09:00 offset (Asia/Tokyo from 1952 on), comparing fields, as Python does with a shared tzinfo, is comparing instants. Equal instants are equal timestamps. |
| `Grammar.DecimalRoundTrip` | main.py:48 | `int()` of the decimal spelling of any natural number gives it back, so every id is reachable and no bound applies within a message's length. |
| `Grammar.ParseStamp` | main.py:49 | `strptime` succeeds only with a minute that exists in the calendar (year 1..9999, real month and day, hour < 24, minute < 60). |
| `Grammar.StampRoundTrip` | main.py:35-49 | Every calendar-valid minute, formatted with `%Y-%m-%dT%H:%M`, has the required shape and parses back to itself. |
| `Grammar.StampCanonical` | main.py:49 | A stamp that `strptime` accepts is the canonical spelling of the time it reads. |
| `Grammar.MatchAcceptsGrammar` | main.py:34 | Every text `thread_id@<digits>,publish_date@<stamp>` with non-empty ASCII digits and a well-shaped stamp is matched, with exactly those two groups. |
| `Grammar.MatchOnlyGrammar` | main.py:34 | A match means the whole text, anchored at both ends, is the prefix, the digits, the separator and the stamp, and nothing else. |
| `Grammar.MatchIff` | main.py:34 | The pattern matches a text exactly when some well-formed groups render to it. |
| `Grammar.RejectsLetterThreadId` | main.py:34 | `thread_id@abc,...` does not match. |
| `Grammar.RejectsSpaceSeparator` | main.py:34 | A space between date and time does not match; only `T` does. |
| `Schedules.NewSchedule` | main.py:38-62 | The flag is set only with a thread id that resolves. A publish time, when present, is a real calendar minute, and the thread id is then set too. |
| `Schedules.NewScheduleReadsGroups` | main.py:47-49 | On a grammatical text, `thread_id` is the decimal value of the digits and `publish_time` is what `strptime` reads from the stamp. The flag is set exactly when that id resolves. |
| `Schedules.IsValidIff` | main.py:41-62 | `is_valid()` holds exactly when the text is in the grammar and its thread id resolves. An unresolvable id or a non-matching text gives false. |
| `Schedules.DueTestsComplement` | main.py:87-93 | For the same `now`, `after_schedule_time` (`now >= publish_time`) holds exactly when `before_schedule_time` (`now < publish_time`) does not. |
| `Schedules.ScheduleLessIsStrictWeakOrder` | main.py:64-65 | `__lt__` is irreflexive and transitive. Two entries are mutually not less exactly when their publish times are equal. |
| `Schedules.ImpossibleStampRefused` | main.py:49-53 | `strptime` refuses `2025-02-30T09:00`, although the text has the required shape. |
| `Schedules.ImpossibleDatePassesChecks` | main.py:47-62 | As written, `thread_id@7,publish_date@2025-02-30T09:00` with thread 7 existing passes `is_valid() and get_thread()` while `publish_time` was never set. |
| `Schedules.AdmitsIff` | main.py:145 | With the calendar check added, a request is admitted exactly when its text is in the grammar, its id resolves and its date exists. |
| `Ordering.StableSortCorrect` | main.py:102 | The sort returns a sequence sorted by publish time that is a permutation of its input. Entries with equal times stay in input order. |
| `Ordering.StableSortIsUnique` | main.py:102 | Any sorted sequence that keeps each group of equal times in input order equals the model's sort, so Python's stable sort gives the same queue. |
| `Ordering.InsertKeepsTies` | main.py:101-102 | Inserting into a sorted queue keeps every group of equal times in order and puts the new entry last in its group. |
| `Ordering.AppendThenSort` | main.py:101-102 | Appending to a sorted queue and sorting is the same as inserting the new entry. |
| `Ordering.InsertSplices` | main.py:101-102 | Inserting splices the new entry in at one position; all other entries keep their relative order. |
| `Ordering.InsertionPointSeparates` | main.py:101-102 | In a sorted queue, the new entry lands after every entry not later than it and before every later entry. |
| `Ordering.HeadNotDueMeansNoneDue` | main.py:118-121 | In a sorted queue, a head that is not yet due means that no entry is due. |
| `Bot.Mentions` | main.py:128 | The mentioned roles are exactly the guild's roles that can view the thread and are subscription roles, never more than the guild has. |
| `Bot.ListQueue` | main.py:115-116 | The listing raises exactly when some queued entry's thread no longer resolves. |
| `Bot.ScheduleBot.constructor` | main.py:19 | The queue starts empty (and sorted), and nothing has been sent yet. |
| `Bot.ScheduleBot.ProcessMessage` | main.py:97-104 | The new queue is sorted and equals the stable sort of the old queue plus the new entry. It is the old queue with the entry spliced in, a permutation of old plus new, and equal times keep arrival order. Nothing is sent. |
| `Bot.ScheduleBot.CheckAndPublishThread` | main.py:107-132 | Empty queue, unresolved queued thread, head not due (`now < publish_time`) or failed send: queue and effects unchanged. Otherwise exactly one message goes to the head's thread, with its mentions, and exactly the head is removed; the rest keep their order. |
| `Bot.ScheduleBot.OnMessage` | main.py:139-151 | Other channels are ignored. A request that is not admitted gets ❌ and the queue is unchanged. An admitted one gets 👍, then it is enqueued and the queue grows by exactly that entry. |

## Findings

| source | as written | input that shows it | evidently intended | confidence | as-written member | corrected member |
|---|---|---|---|---|---|---|
| main.py:47-62 | The error `strptime` raises for a date the calendar lacks is logged and swallowed. `thread_id` is already set and `valid_format_flg` still becomes true, so the request gets 👍 and is enqueued without a `publish_time`. Reading its time then raises `AttributeError`. With an empty queue the sort at main.py:102 never calls `__lt__`, so the raise comes from `get_time()` in the log line at main.py:104, after the append. With a non-empty queue, `__lt__` raises it inside the sort at main.py:102. Every later tick also raises at main.py:116, before the due check at main.py:120 is reached. | `thread_id@7,publish_date@2025-02-30T09:00` with thread 7 existing | Reject it with ❌ like any other malformed request. | not executed; high | `Schedules.ImpossibleDatePassesChecks` | `Schedules.AdmitsIff` |

`Bot.ScheduleBot.OnMessage` uses the corrected test `Schedules.Admits`, so every queue entry
has both a thread id and a publish time (the subset type `Schedules.Entry`).

## Left out

- Bot.ScheduleBot.OnMessage: it rejects a request whose date the calendar lacks, where the source accepts it and then fails (see Findings).
- The Discord client, event registration, `keep_alive` and `client.run` are network I/O. `get_channel` is membership in `World.channels`. `send` and `add_reaction` are entries appended to `effects`.
- Environment variables, `logging` and `print` are left out. The listing loop at main.py:115-116 is kept only because it can raise (`Bot.ListQueue`).
- `asyncio.Lock` is not modelled: each `async with thread_lock` block is one method, run without interleaving.
- The `tasks.loop(seconds=1)` timer is not modelled: a tick is an explicit call with the clock reading `now`.
- What the periodic task does after a tick raises is decided by the Discord library and is not modelled. The model lets the caller tick again.
- The notification text (thread name and the `<@&id>` mention strings) is not modelled. `Notify` records the thread id and the mentioned role ids in guild order.
- `add_reaction` is assumed to succeed. Its failure would only end `on_message` early.
- Regex details: `\d` is restricted to ASCII digits, and `$` means end of text. Python's `\d` also accepts other Unicode digits, and its `$` also matches before one final newline.
- The platform state is a snapshot per call. A thread deleted between the two lookups inside one `on_message` is not modelled.
- Bot.ScheduleBot.OnMessage is treated as one atomic step. In the source only the enqueue in `process_message` holds the lock; the `add_reaction` awaits come before it, so a tick can run between the 👍 and the enqueue. The model cannot show that interleaving of effects.
- The zone is treated as a fixed +09:00 offset. Asia/Tokyo disagrees before 1952 (daylight saving time 1948-1951, local mean time before 1888), so `Timestamps.LessIsInstantOrder` speaks of instants only from 1952 on. The queue order is unaffected, because Python compares the fields.
- `int()` refuses texts of more than 4300 digits (Python 3.11 and later). A Discord message is too short to carry such an id, so that case is not modelled.
- `StableSort` is an insertion sort, not Timsort. `Ordering.StableSortIsUnique` shows the results coincide.
- The accessors `get_message`, `get_content` and `get_thread` are field reads or `World` lookups, not separate members. `THREAD_CHANNEL_ID` is read but never used by the core.

What the code does at its edges:

- Only `T` separates date and time; a space does not match (`Grammar.RejectsSpaceSeparator`).
- Thread ids are Python integers with no 64-bit bound.
- A failed `thread.send` leaves the entry at the head of the queue (`Bot.ScheduleBot.CheckAndPublishThread`).
- Publishing only sends a message into the thread; there is no unlock step.
