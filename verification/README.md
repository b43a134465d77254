# schedule-bot, modelled in Dafny

A model of the logic of `schedule-bot/bot.py`, a Telegram bot that publishes a
school timetable and an exam list kept in Google Sheets. The model strips the
Sheets, Telegram, asyncio and timezone plumbing. Sheets become sequences of rows
and Telegram becomes oracles. The configuration (`GROUPS`, `ADMINS`,
`SUPERADMINS`) is an immutable `Config` value passed to every operation.

The modules follow the program's parts:

- `Text` covers the Python string semantics the bot relies on: `str.strip`
  (with `str.isspace`), `str.split` with one separator, `int()` on text and
  `str()` on integers.
- `Sorting` is Python's stable `list.sort`/`sorted` over a key order, plus
  lexicographic string order and `sorted(set(...))`.
- `Config` covers `parse_id_list` and the admin checks.
- `Dates` covers dates as day ordinals, weekdays and `monday_of_week`.
- `Records` is a sheet record (`get_all_records` row) as a map from header to
  cell text.
- `Schedule` is `build_schedule_map` with `start_minutes`, as a loop over rows.
  It is proved against a specification function.
- `Exams` is the row loop of `read_exams_map`, and `exams_for_range`.
- `Watcher` is the digest table of `watch_changes`: a class with a `map` field,
  a start-up constructor and a `Step` per polling cycle.
- `Subscriptions` is the subs sheet as a grid of cell texts, held in a class. It
  covers header repair, `on_subs_add`, the row selection of `on_subs_del`, and
  `gs_clear_rows_by_indices`.
- `Dispatch` covers target selection for `on_broadcast_text` and
  `notify_subscribers`, and the send loop with its tally.
- `Conversation` is the per-user session: the selected group and the broadcast
  state machine. Each handler is a transition function, and a class over the
  session map applies them.

Shuffling the sheet rows can change a group's digest: the stable sorts keep
lessons with equal start minutes, and exams with equal (date, time), in sheet
order. `Schedule.ScheduleBucketsOrdered` and `Exams.ExamsOfSpec` state that order.

## Model

| member | source | states |
|---|---|---|
| Text.Trim | schedule-bot/bot.py:191-196 | `strip()`: the result starts and ends with a non-whitespace character, or is empty |
| Text.TrimIsInfix | schedule-bot/bot.py:191-196 | `strip()` removes only whitespace, and only from the two ends: the result is a slice of the input with whitespace on either side |
| Text.TrimIdempotent | schedule-bot/bot.py:191-196 | stripping twice is stripping once |
| Text.Split | schedule-bot/bot.py:58 | `split(sep)` gives at least one piece, and no piece contains the separator |
| Text.JoinSplit | schedule-bot/bot.py:58 | joining the pieces of `split(sep)` with `sep` gives back the input |
| Text.SplitJoin | schedule-bot/bot.py:58 | splitting a join of separator-free pieces gives back the pieces |
| Text.ParseDigits | schedule-bot/bot.py:208 | `int()` of a non-empty run of ASCII digits is its decimal value |
| Text.ParseShowInt | schedule-bot/bot.py:375 | `int(str(n)) == n` for every integer: a user id written as `str(cq.from_user.id)` is read back by `int(r["user_id"])` (line 740) as the same id |
| Text.ParseInt | schedule-bot/bot.py:63 | definition of `int()` on text: surrounding whitespace stripped, an optional sign, ASCII digits with single underscores between them; `None` where `int()` raises. `ParseDigits` and `ParseShowInt` state its values |
| Config.IsAdmin | schedule-bot/bot.py:317-318 | definition of `is_admin`: the id is a listed admin or a listed superadmin; `SuperadminIsAdmin` relates it to `IsSuperadmin` |
| Config.IsSuperadmin | schedule-bot/bot.py:320-321 | definition of `is_superadmin`: the id is a listed superadmin |
| Config.SuperadminIsAdmin | schedule-bot/bot.py:318-322 | a superadmin is an admin; an admin is a listed admin or a listed superadmin |
| Config.ParseIdList | schedule-bot/bot.py:56-66 | the loop collects exactly the integers of the stripped, non-blank, parseable comma-separated pieces |
| Config.PieceIdOfShowInt | schedule-bot/bot.py:58-64 | the piece for an integer's text is accepted with that integer |
| Config.IdListRoundTrip | schedule-bot/bot.py:56-66 | parsing the comma-joined texts of a list of ids gives the set of those ids |
| Dates.Weekday | schedule-bot/bot.py:186 | `weekday()` is in 0..6 |
| Dates.MondayOfWeek | schedule-bot/bot.py:184-186 | the result is a Monday, at most six days before the date |
| Dates.MondayOfWeekUnique | schedule-bot/bot.py:184-186 | that Monday is the only Monday within the six days before the date |
| Dates.WeekdayOfWeekDay | schedule-bot/bot.py:184-186 | the i-th day after the week's Monday has weekday i |
| Dates.NextWeekMonday | schedule-bot/bot.py:184-186 | the Monday of the date a week later is seven days after this Monday |
| Dates.SameWeekWindow | schedule-bot/bot.py:184-186 | a date lies in [Monday, Monday + 6] exactly when it has the same Monday |
| Records.Field | schedule-bot/bot.py:191-196 | `str(r.get(key, "")).strip()` is trimmed |
| Records.OptionalField | schedule-bot/bot.py:195-202 | an optional lesson key is present exactly when its stripped text is non-empty, and then holds that stripped text |
| Schedule.Parse | schedule-bot/bot.py:191-202 | a row gives a lesson exactly when its group is tracked, its weekday is one of the seven, and its time and subject are non-empty once stripped; the entry carries the row's stripped group, weekday, time and subject, and `teacher`/`room` as the row's optional fields |
| Schedule.AddRow | schedule-bot/bot.py:190-203 | one loop iteration appends the row's lesson to its (group, weekday) bucket, or changes nothing when the row is filtered out |
| Schedule.BuildScheduleMap | schedule-bot/bot.py:188-215 | the method's grouping loop followed by the in-place sorts computes the specification map `ScheduleOf` |
| Schedule.SortEveryBucket | schedule-bot/bot.py:212-214 | the outer sorting loop sorts every group's buckets |
| Schedule.SortDaysOf | schedule-bot/bot.py:213-214 | the inner sorting loop stably sorts every weekday bucket by start minute |
| Schedule.LessonLeIsTotalPreorder | schedule-bot/bot.py:214 | comparing lessons by `start_minutes` is a total preorder, so the sort is well defined |
| Schedule.StartMinutes | schedule-bot/bot.py:205-210 | definition of `start_minutes`: `h * 60 + m` of the text before the first `-`, split at `:`, and 0 where the unpacking or `int()` fails; the two lemmas below state its values |
| Schedule.ScheduleOf | schedule-bot/bot.py:188-215 | the specification of `build_schedule_map`: the kept rows grouped by (group, weekday) in row order, each bucket then stably sorted by start minute; the lemmas below state its contents and order, and `BuildScheduleMap` computes it |
| Schedule.StartMinutesOfClockTime | schedule-bot/bot.py:205-210 | `hh:mm` or `hh:mm-...` with digit runs gives `hh * 60 + mm` |
| Schedule.StartMinutesWithoutColon | schedule-bot/bot.py:205-210 | a time without `:` makes the unpacking fail and counts as minute 0 |
| Schedule.GroupedIsBuckets | schedule-bot/bot.py:203 | a (group, weekday) key exists exactly when its bucket of filtered rows is non-empty, and then holds that bucket in row order |
| Schedule.BucketCounts | schedule-bot/bot.py:203 | a bucket holds each lesson as many times as there are entries giving it |
| Schedule.GroupedHasBucket | schedule-bot/bot.py:203 | a (group, weekday) key exists exactly when some kept row belongs to it |
| Schedule.RowsGivingOfEntries | schedule-bot/bot.py:190-203 | the rows giving an entry are the positions of that entry among the parse results |
| Schedule.ScheduleLessonsWellFormed | schedule-bot/bot.py:190-203 | every lesson in the map has a tracked group, a known weekday, a non-empty trimmed time and subject, non-empty optional keys, and comes from some input row |
| Schedule.ScheduleHoldsEveryRow | schedule-bot/bot.py:190-214 | a lesson is in its (group, weekday) bucket exactly when some row gives it, and it appears there exactly as many times as rows give it |
| Schedule.ScheduleBucketsOrdered | schedule-bot/bot.py:205-214 | each bucket is sorted by start minute, and lessons with equal start minutes keep their row order |
| Schedule.BucketOfGroupEntries | schedule-bot/bot.py:203 | a group's buckets depend only on that group's rows |
| Schedule.ScheduleOfGroupIsLocal | schedule-bot/bot.py:188-215 | two sheets whose rows for a group agree give that group the same weekday map |
| Exams.ParseDate | schedule-bot/bot.py:230-236 | a date parses when `strptime("%Y-%m-%d")` or, failing that, `fromisoformat` accepts it, and `strptime` wins when both do |
| Exams.ParseExam | schedule-bot/bot.py:224-239 | a row gives an exam exactly when its group is tracked, its date and subject are non-empty and the date parses; the entry is filed under the row's stripped group, and the exam stores the ISO form of the parsed date and the row's stripped time, subject and note |
| Exams.AddExamRow | schedule-bot/bot.py:229-239 | one loop iteration appends the row's exam to its group, or changes nothing when the row is dropped |
| Exams.ReadExams | schedule-bot/bot.py:221-242 | the row loop and the per-group sort compute the specification map `ExamsOf` |
| Exams.ExamsOf | schedule-bot/bot.py:221-242 | the specification of `read_exams_map`: the kept exams grouped by group in row order, each list then stably sorted by (date, time); `ExamsOfSpec` and `ExamsOfOrigin` state its contents and order, and `ReadExams` computes it |
| Exams.ExamLeIsTotalPreorder | schedule-bot/bot.py:241 | ordering by (date, time) as string tuples is a total preorder |
| Exams.GroupedExamsAreGroupExams | schedule-bot/bot.py:237-239 | a group is a key exactly when it kept an exam, and then holds its exams in row order |
| Exams.GroupExamsMembers | schedule-bot/bot.py:237-239 | an exam is in a group's list exactly when some row gives it for that group |
| Exams.ExamsOfSpec | schedule-bot/bot.py:223-242 | each group's list is its kept exams, as a permutation of them, sorted by (date, time), with ties in row order; only groups with exams are keys |
| Exams.ExamsOfOrigin | schedule-bot/bot.py:229-239 | every listed exam has a tracked group, a subject and an ISO date, and comes from a row |
| Exams.InRange | schedule-bot/bot.py:259-265 | definition of the window test of `exams_for_range`: `strptime` parses the date and it lies in [start, end]; an exam whose date does not parse is skipped |
| Exams.ExamsForRange | schedule-bot/bot.py:258-267 | definition of `exams_for_range`: the exams passing `InRange`, in list order, stably sorted by (date, time); `ExamsForRangeSpec` states its contents and order |
| Exams.InWindowCounts | schedule-bot/bot.py:259-266 | the filter keeps each exam exactly as often as it occurs with a date that `strptime` parses into the window |
| Exams.ExamsForRangeSpec | schedule-bot/bot.py:258-267 | the result holds exactly the exams whose date parses and lies in [start, end], both ends inclusive, each as often as in the input, sorted by (date, time), with ties in input order |
| Exams.ExamsForEmptyRange | schedule-bot/bot.py:258-267 | an empty window gives no exams |
| Watcher.PayloadOf | schedule-bot/bot.py:785-794 | definition of the payload `hash_group_data_for_changes` digests: the group's weekday map and exam list, empty when the group is missing |
| Watcher.Seed | schedule-bot/bot.py:814-820 | definition of the start-up table: every group mapped to its fresh digest; `SeedSpec` states its contents |
| Watcher.CycleTable | schedule-bot/bot.py:831-842 | definition of the table after one successful cycle, as one `Visit` per listed group in order; `CycleTableSpec` states its contents |
| Watcher.CycleNotified | schedule-bot/bot.py:831-840 | definition of the groups one successful cycle notifies, in visiting order; `CycleNotifiedSpec` states exactly which |
| Watcher.ChangeWatcher.constructor | schedule-bot/bot.py:814-822 | a successful start-up read seeds every group's digest; a failed one leaves the table empty |
| Watcher.ChangeWatcher.Step | schedule-bot/bot.py:826-844 | a failed read leaves the table and the notifications untouched; a successful one updates the table and reports the notified groups as the cycle specification says |
| Watcher.VisitSpec | schedule-bot/bot.py:831-842 | one group's visit writes only that group: a differing stored digest is replaced, a missing one is seeded, an equal one is left alone |
| Watcher.CycleTableSpec | schedule-bot/bot.py:831-842 | after a cycle every listed group is present and holds its fresh digest (unless its stored digest was empty); every other group keeps its digest |
| Watcher.CycleNotifiedSpec | schedule-bot/bot.py:831-842 | a cycle notifies exactly the listed groups whose stored digest is non-empty and differs from the fresh one, each once |
| Watcher.SeedSpec | schedule-bot/bot.py:816-820 | seeding maps exactly the tracked groups to their digests |
| Watcher.CycleOfUpToDateTable | schedule-bot/bot.py:831-842 | when every digest is current, a cycle writes nothing and notifies nobody |
| Watcher.SameSnapshotNotifiesNobody | schedule-bot/bot.py:814-842 | a cycle over the same data as the start-up read notifies nobody and changes nothing |
| Watcher.FirstCycleAfterFailedStart | schedule-bot/bot.py:816-842 | after a failed start-up read, the first successful cycle notifies nobody and seeds the table exactly as start-up would have |
| Watcher.NothingNotifiedFromEmpty | schedule-bot/bot.py:831-842 | a cycle from an empty table notifies nobody |
| Watcher.UnchangedGroupNotNotified | schedule-bot/bot.py:785-842 | a group whose payload is the same as when its digest was stored is not notified and keeps its digest |
| Subscriptions.WithHeader | schedule-bot/bot.py:167-175 | an empty sheet becomes exactly the header row `user_id, group, added_at`; otherwise the repaired sheet starts with the header and keeps every data row; a sheet with the right header is unchanged |
| Subscriptions.SubsSheet.EnsureHeaders | schedule-bot/bot.py:167-175 | the sheet becomes its header-repaired form |
| Subscriptions.SubsSheet.FindSubscription | schedule-bot/bot.py:367-370 | the scan finds a match exactly when some data row holds this user and group |
| Subscriptions.SubsSheet.Subscribe | schedule-bot/bot.py:361-376 | an untracked group is refused with no write; otherwise the answer and the new sheet are `SubscribeResult`'s: the header is repaired, and the row `[user, group, now]` is appended exactly when the pair is not already there, so `SubscribeIdempotent` and `SubscribeKeepsRows` hold of the method |
| Subscriptions.SubscribeIdempotent | schedule-bot/bot.py:363-376 | after subscribing the pair is present, and subscribing again appends nothing and answers "already subscribed" |
| Subscriptions.SubscribeKeepsRows | schedule-bot/bot.py:372-374 | subscribing never changes existing data rows and appends at most the one new row |
| Subscriptions.SubsSheet.SelectRows | schedule-bot/bot.py:385-393 | the loop collects the selection `Selected` |
| Subscriptions.SelectedSpec | schedule-bot/bot.py:385-393 | the selection holds exactly the 1-based indices from 2 on whose row has this user and the target group (any group for `all`), increasing and without repeats |
| Subscriptions.SortedDescending | schedule-bot/bot.py:164 | `sorted(..., reverse=True)` of distinct indices is strictly decreasing and holds the same indices |
| Subscriptions.DeleteStep | schedule-bot/bot.py:164-165 | deleting row k after only rows above k were deleted removes the original row k |
| Subscriptions.SubsSheet.ClearRows | schedule-bot/bot.py:162-165 | deleting in descending order removes exactly the rows at the given original indices and keeps the others in order |
| Subscriptions.SubsSheet.Unsubscribe | schedule-bot/bot.py:379-398 | the header is repaired, exactly the selected rows are removed, and a deletion is reported only when the selection is non-empty (an empty selection deletes nothing) |
| Subscriptions.UnsubscribeKeepsTheRest | schedule-bot/bot.py:379-398 | after unsubscribing, the sheet is the header followed by the non-matching data rows in their original order |
| Dispatch.BroadcastAudience | schedule-bot/bot.py:739-742 | a tracked target reaches only its own group; any other target (`both`) reaches exactly the tracked groups |
| Dispatch.IdsSpec | schedule-bot/bot.py:739-742 | the selection fails exactly when an addressed record's user id is not an integer; otherwise it holds exactly the addressed records' ids |
| Dispatch.Targets | schedule-bot/bot.py:739-743 | definition of `sorted(set(targets))` over the selected records, `None` when an id does not parse; `TargetsSpec` states its contents; `notify_subscribers` (lines 800-808) uses it with one group |
| Dispatch.TargetsSpec | schedule-bot/bot.py:739-743 | the targets are strictly increasing (sorted, deduplicated), exactly the ids of the addressed records, never more than the records |
| Dispatch.NobodyAddressed | schedule-bot/bot.py:747-750 | with no addressed record the target list is empty |
| Dispatch.NotifySelectsAsBroadcast | schedule-bot/bot.py:800-801 | `notify_subscribers` selects exactly as a broadcast to that group |
| Dispatch.BothIsUnion | schedule-bot/bot.py:741-742 | a `both` broadcast reaches exactly the union of the tracked groups' subscribers |
| Dispatch.DeliveredBounds | schedule-bot/bot.py:752-760 | the success count is at most the number of sends; it is all of them exactly when every send succeeded and zero exactly when every send failed |
| Dispatch.SendAll | schedule-bot/bot.py:752-760 | every target is attempted, in order, whatever happened before; `ok` counts the successes and `ok + fail` is the number of targets |
| Conversation.PickGroup | schedule-bot/bot.py:415-428 | a tracked group is recorded, an unknown one is refused; the FSM state is untouched |
| Conversation.SelectedGroup | schedule-bot/bot.py:330-339 | the guard passes exactly when a non-empty group is selected, and returns it |
| Conversation.Broadcast | schedule-bot/bot.py:683-690 | a non-admin `/broadcast` changes nothing; an admin's enters `WaitGroup` with target and text reset and the group kept |
| Conversation.BroadcastFlow | schedule-bot/bot.py:692-714 | from any stage, an admin choosing a valid target (a tracked group or `both`) enters `WaitText` with that target recorded and nothing else changed, and only that enters `WaitText`; a non-admin, an invalid target or another action changes nothing; an admin's cancel clears |
| Conversation.Cancel | schedule-bot/bot.py:716-721 | `/cancel` clears while waiting for a group or a text and is otherwise a no-op |
| Conversation.BroadcastText | schedule-bot/bot.py:723-762 | definition of `on_broadcast_text` as a transition: the new session and the reply; `BroadcastTextSpec` states every exit |
| Conversation.BroadcastTextSpec | schedule-bot/bot.py:723-762 | the session is kept only when the handler does not apply or the text is blank; completion and every error exit clear it; a send goes to exactly the sorted, deduplicated, non-empty targets and the tally adds up; no targets means no send. Conversely, in `WaitText` an admin's blank text answers `EmptyText` and keeps the session, and a non-blank one answers `ReadError` on a failed read or a bad id, `NoSubscribers` on no targets, and otherwise sends to exactly the targets |
| Conversation.ApplyKeepsCoherent | schedule-bot/bot.py:683-762 | every handler keeps the session coherent: a selected group is tracked, and waiting for a text means a valid target is recorded |
| Conversation.RunKeepsCoherent | schedule-bot/bot.py:683-762 | coherence holds after any run of events |
| Conversation.NonAdminNeverBroadcasts | schedule-bot/bot.py:683-727 | a non-admin without a broadcast in progress stays `Idle` through any run of events and messages nobody |
| Conversation.CompleteBroadcast | schedule-bot/bot.py:683-762 | `/broadcast`, a valid target and a non-blank text message exactly that audience's targets and leave the session cleared |
| Conversation.CancelIdempotent | schedule-bot/bot.py:716-721 | cancelling twice is cancelling once |
| Conversation.GroupGuard | schedule-bot/bot.py:330-428 | in a coherent session the guard returns only tracked groups; after picking a group it returns that group; after `/start` it asks again |
| Conversation.PanelBroadcast | schedule-bot/bot.py:764-783 | the admin panel's broadcast button, with the presser checked, behaves as `/broadcast` |
| Conversation.PanelBroadcastAsWritten | schedule-bot/bot.py:781-782 | definition of the panel's broadcast button as written: the presser is checked, then `cmd_broadcast` checks the bot's id; the two lemmas below state its effect |
| Conversation.PanelBroadcastRefusesAdmins | schedule-bot/bot.py:781-782 | as written, an admin pressing the button is refused unless the bot's own id is an admin |
| Conversation.PanelBroadcastCounterexample | schedule-bot/bot.py:781-782 | with admin 1 and bot 2, the button leaves admin 1 `Idle` where `/broadcast` enters `WaitGroup` |
| Conversation.Conversations.constructor | schedule-bot/bot.py:683-762 | the session store starts empty and coherent |
| Conversation.Conversations.OnStart | schedule-bot/bot.py:401-413 | `/start`, `/group` and the menu's change-group button (lines 574-577) clear the user's session, the selected group included |
| Conversation.Conversations.OnPickGroup | schedule-bot/bot.py:415-428 | only the user's session changes, as `PickGroup` says, and coherence is kept |
| Conversation.Conversations.EnsureGroup | schedule-bot/bot.py:330-339 | the guard reads the user's session without changing it and returns only tracked groups |
| Conversation.Conversations.OnBroadcast | schedule-bot/bot.py:683-690 | only the user's session changes, as `Broadcast` says |
| Conversation.Conversations.OnBroadcastFlow | schedule-bot/bot.py:692-714 | only the user's session changes, as `BroadcastFlow` says |
| Conversation.Conversations.OnCancel | schedule-bot/bot.py:716-721 | only the user's session changes, as `Cancel` says |
| Conversation.Conversations.OnBroadcastText | schedule-bot/bot.py:723-762 | the handler's reply and the user's new session are those of `BroadcastText`; the sends go through the `SendAll` loop |

## Findings

| source | as written | input that shows it | evidently intended | confidence | as-written member | corrected member |
|---|---|---|---|---|---|---|
| schedule-bot/bot.py:781-782 | the admin panel's broadcast button calls `cmd_broadcast(cq.message, state)`; `cmd_broadcast` checks `m.from_user`, which for that message is the bot, not the admin who pressed the button | admin 1 presses the button, the bot's id 2 is not in `ADMINS`: the admin is told the command is for admins only and the state stays `Idle` | check the admin who pressed the button (already done at the top of `on_admin_panel`) and enter `WaitGroup` | medium, not executed | Conversation.PanelBroadcastCounterexample | Conversation.PanelBroadcast |

The event model (`Conversation.Apply`) uses the corrected button.

## Left out

- Google Sheets access is left out (`ws_open`, `get_all_values`, `get_all_records`, `update`, `append_rows`, `delete_rows`). Sheets are sequences of rows; `append_rows` appends at the end.
- gspread converts numeric-looking cells to numbers in `get_all_records`. This is not modelled. Cells stay text, so `str(r.get("user_id"))` is the cell text, and `int()` of a cell is `int()` of its text.
- `int()` accepts only ASCII digits here, with sign, surrounding whitespace and single underscores between digits. Non-ASCII Unicode digits are left out.
- `ensure_subs_sheet_headers` rewrites the sheet through `ws.update`, which leaves cells beyond the written range in place. The model replaces the header row outright.
- Dates are day ordinals. `strptime`, `fromisoformat` and `isoformat` are the abstract functions of `Exams.Calendar`. `monday_of_week`'s reset of the time of day is left out, because dates carry no time.
- SHA-256 and `json.dumps(sort_keys=True)` are left out. The digest is an arbitrary function of the group's payload. Only "equal payloads give equal digests" is used, so nothing is claimed about different payloads giving different digests.
- asyncio is left out: the polling interval, the stop event, the 0.05 s pause after a failed send, and concurrency between handlers and the watcher.
- Telegram transport is left out: `send_message`, `ack`, answers, keyboards and message texts. Sends are the oracle `outcomes`. Callback data arrives already split: `Conversation.FlowAction`, a group name, a target.
- `now_local`, timezone resolution and `TZ_NAME` are left out. The subscription timestamp is a parameter.
- Reading `GROUPS`, `ADMINS` and `SUPERADMINS` from the environment is left out. `Config.ParseIdList` models `parse_id_list`; the `GROUPS` comprehension is not modelled.
- The schedule commands (`cmd_today` and the like) and the look-up branches of `on_menu` are left out. They read the maps modelled here and format text. The `menu:change_group` branch of `on_menu` clears the session as `/start` does; it is the event `Conversation.ChangeGroup` and the method `Conversation.Conversations.OnStart`.
- The admin handlers `cmd_admin_info`, `cmd_admin_reload` and `on_admin_panel` are left out, except for its broadcast button (see Findings). They are sheet I/O and text.
- Subscriptions.SubsSheet.ClearRows: requires the indices to be distinct and within the sheet. Its only caller passes such indices. With repeated or out-of-range indices, `delete_rows` would remove other rows or fail.
- Dispatch.SendAll: requires one outcome per send at least. The oracle is indexed by attempt.
- Conversation.Conversations.OnBroadcastText: requires an oracle covering as many sends as there are subscription records, which bounds the number of targets. The subscription read, header repair included, is the parameter `records`: `None` when it raised.
- Watcher.ChangeWatcher.Step: the groups it reports are those `notify_subscribers` is called for. Each call's own sends are `Dispatch.Targets` with `OneGroup`; they are not replayed inside `Step`.
