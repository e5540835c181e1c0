# STTBot core in Dafny

STTBot is a Slack bot. When someone mentions it, it reads the rest of the
message as a command, looks the command up in a fixed table and runs the
handler it finds. The handlers keep a store of pinned messages and answer
`pin`, `pin any`, `pin channel`, `pin add`, `pin load`, `pin remove`,
`pin stats`, `help` and `poll react`. Alongside the pins, the bot keeps an
archive of channel messages. This archive is filled by a nightly refresh
(`message_loader`) and by a one-off import of an export directory
(`load_messages`). Two regular-expression leaderboards are computed over it.

The model has one module per source unit:

| module | file | source |
|---|---|---|
| `Commands` | command.dfy | `Command.from_text`: splits the mention text into words; the bot mention, then command, sub-command and arguments |
| `Permalinks` | permalink.dfy | `Permalink.from_text`: the permalink regular expression written out as a search over split points, with its lazy and greedy groups |
| `DataInterface` | data_interface.dfy | the pins table (class `PinStore`, with the five pin queries), the messages table (class `MessageArchive`), `INSERT or IGNORE`, `COLLATE NOCASE`, and the two leaderboards `get_msg_leaderboard` and `get_msg_match` |
| `PinHandlers` | handlers.dfy | the `pin`, `pin any`, `pin channel`, `pin add`, `pin load`, `pin remove` and `poll react` handlers |
| `PinStats` | pin_stats.dfy | the `pin stats` handler: its collection loop, the user tally, and the two top-three boards |
| `AppMention` | app_mention.dfy | the command registry, the exact and fallback lookup with its argument shift, the help text, and the dispatcher with its `say` answers |
| `MessageLoader` | message_loader.dfy | `resolve_missing_keys` and `process_message_response` |
| `LoadMessages` | load_messages.dfy | `main` (class `Loader`, holding the running counts per channel) and `process_message_file` |
| `Text`, `Ranking`, `Common` | text.dfy, ranking.dfy, common.dfy | Python's `str.split`, `" ".join`, ASCII `lower`; insertion-ordered dicts (`d[k] = v`, `setdefault`, `Counter`-style tallies); the stable `sorted(..., reverse=True)` by count |

Conventions used throughout:

- A Python dict is an insertion-ordered sequence of key/value pairs.
- An exception is a `Raised`/`Failed` value carrying the text Python would
  print (Python 3.10 wording).
- The Slack Web API answers, the directory listing and the JSON files are
  parameters of the operations that read them.
- The regular-expression engine is a parameter `Pattern`, which gives the
  `findall` result of a case mode and a text. `REGEXP` holds when that
  result is non-empty.

Behaviours of the code that the model keeps as written:

- **Help text order.** The help text lists the commands in registry order
  (`_cmd_help` joins `commands` as they stand); nothing sorts them.
- **Permalink timestamp.** The timestamp is built as
  `timestamp[:-6] + "." + timestamp[-5:]`. It therefore drops the eleventh
  of the sixteen digits and does not invert the permalink encoding
  (`Permalinks.ReencodeLosesDigit`, `MessageLoader.PermalinkLosesTimestamp`).
- **`insert_pin` never reports "already exists".** It relies on
  `INSERT or IGNORE`; `pin add` checks first.
- **A pin whose lookup was skipped crashes `pin stats`.** It leaves an
  empty dict in `pin_store`, so the user tally raises `KeyError('user')`
  (`PinStats.SkippedPinFailsStats`). `PinStats.StatsSkippingBlank` is the
  variant that ignores such entries. `PinStats.StatsSkippingBlankAnswers`
  proves that it answers exactly when no pin is unresolvable, and that it
  agrees with the code wherever the code answers. `pin add` stores `"{}"`
  when the history holds no message, and such a pin makes every later
  `pin stats` raise the same way (`PinStats.EmptyHistoryPinFailsStats`).
- **`pin <channel>` looks up a lower-cased channel id.** The fallback
  pushes the lower-cased sub-command into the arguments, so the id taken
  from `<#C0ABC|general>` is `c0abc` (`AppMention.FallbackLowersChannelId`).
  The store lookup compares channels under NOCASE and still finds the pins.
  The check against the listed channel ids is exact, so for a channel
  without pins the answer is "Channel ... not found" instead of "No pins
  found".
- **`get_sub_cmd` is not defined.** The dispatcher calls
  `command.get_sub_cmd()`, which the `Command` class does not define; the
  model takes it to return `sub_cmd` (`Commands.Command.GetSubCmd`).

## Model

| member | source | states |
|---|---|---|
| Commands.FromTextErrors | STTBot/models/command.py:19-26 | blank text fails with the IndexError of `words[0]`; a first word that is not a `<@...>` mention fails with "must be mentioned"; a mention alone fails with "requires a command"; each as an if-and-only-if |
| Commands.ParsedFrom | STTBot/models/command.py:19-34 | a parse succeeds only with a leading mention and at least one more word, and the command is built from the words after the mention |
| Commands.ParsedCommandShape | STTBot/models/command.py:28-32 | `cmd` and `sub_cmd` are single lower-case words; the arguments are whitespace-free words with their case kept |
| Commands.RawCmdResplits | STTBot/models/command.py:28-34 | splitting `raw_cmd` gives back the words after the mention; `cmd` is the lowered first; `sub_cmd` is absent exactly when there is one word; `args` is `words[2:]` or empty |
| Commands.FromTextOfWords | STTBot/models/command.py:16-35 | a mention followed by any words, joined by spaces, parses to exactly the expected command record |
| Commands.ReparseRawCmd | STTBot/models/command.py:34 | parsing `raw_cmd` again behind any mention yields the same command |
| Text.SplitWords | STTBot/models/command.py:19 | every piece `str.split()` returns is a non-empty word without whitespace |
| Text.SplitEmpty | STTBot/models/command.py:19-20 | `split()` is empty exactly when the text is all whitespace |
| Text.SplitJoin | STTBot/models/command.py:34 | splitting the space-join of words gives back the words |
| Text.SplitKeepsNonSpace | STTBot/models/command.py:19 | the words of `split()`, concatenated, are the text with its whitespace removed |
| Permalinks.FindChannelSpec | STTBot/models/permalink.py:7 | the lazy channel group `(.+?)` takes the shortest channel length that lets the rest of the pattern match, and none when no length does |
| Permalinks.FindServerSpec | STTBot/models/permalink.py:7 | the greedy server group `(.+)` takes the longest server for which some channel completes the match; none when no split matches |
| Permalinks.TimestampFromDigits | STTBot/models/permalink.py:22 | the timestamp has 16 characters with a dot at index 10; the first ten and the last five digits are kept |
| Permalinks.FromTextNone | STTBot/models/permalink.py:20-25 | `from_text` gives None exactly when the pattern does not match at the start of the text |
| Permalinks.RecordAtFields | STTBot/models/permalink.py:21-23 | a match yields the text itself, a non-empty server and channel without newlines, and a dotted all-digit timestamp |
| Permalinks.FromTextSpec | STTBot/models/permalink.py:19-25 | the full contract of `from_text`: None if and only if there is no match; otherwise every field as above |
| Permalinks.ReencodeLosesDigit | STTBot/models/permalink.py:22 | removing the dot from the parsed timestamp gives 15 digits, `D[:10] + D[11:]`: the digit at index 10 is lost |
| Permalinks.LinkMatchIsUnique | STTBot/models/permalink.py:7 | in a Slack link whose server and channel hold no slash, the pattern can match at one split only |
| Permalinks.FromTextOfLink | STTBot/models/permalink.py:19-25 | parsing `https://S.slack.com/archives/C/pD` gives back server S, channel C and the timestamp built from D |
| MessageLoader.PermalinkLosesTimestamp | STTBot/message_loader.py:55 | the permalink built from a Slack timestamp parses back to the same server and channel but to a different timestamp |
| MessageLoader.DigitsOfTimestamp | STTBot/message_loader.py:55 | `ts.replace('.', '')` of a `dddddddddd.dddddd` timestamp is its sixteen digits |
| MessageLoader.MissingFrom | STTBot/message_loader.py:65 | the missing keys are exactly the required fields the message lacks |
| MessageLoader.MissingKeysEmpty | STTBot/message_loader.py:65-67 | no key is missing exactly when the message has `ts`, `user` and `text`; `ts` is missing exactly when it is absent |
| MessageLoader.ResolveMissingKeys | STTBot/message_loader.py:64-74 | a message without `ts` raises `KeyError('ts')` in the debug log line; one missing `user` or `text` is dropped; a complete one is kept, with the profile defaulting to the name "Unknown" |
| MessageLoader.CollectMeaning | STTBot/message_loader.py:52-59 | a loop that appends rows and skips messages finishes exactly when no step raises, with the emitted rows in order; otherwise it raises the first error |
| MessageLoader.ResponseRow | STTBot/message_loader.py:55-58 | the archived row carries the message's `ts`, `user` and `text`, the channel id and name, the user's name from `users`, and the permalink built from the server, the channel id and the dot-stripped `ts` |
| MessageLoader.PassingMembers | STTBot/message_loader.py:53-54 | the messages kept are exactly the complete ones |
| MessageLoader.EmittedResponse | STTBot/message_loader.py:52-59 | when nothing raises, the rows are the row of each complete message, in order |
| MessageLoader.ResponseRecordsMeaning | STTBot/message_loader.py:50-61 | a response without `messages` gives no rows; otherwise it succeeds exactly when no message lacks `ts` or names an unknown user, with one row per complete message |
| MessageLoader.ResponseRecordsError | STTBot/message_loader.py:52-58 | the first raising message decides the KeyError: `'ts'` or the unknown user id |
| MessageLoader.ProcessMessageResponse | STTBot/message_loader.py:50-61 | the loop computes the records of the response as specified above |
| DataInterface.Lookup | STTBot/data_interface.py:155 | `GET_PIN` finds no row exactly when no row has the channel (NOCASE) and timestamp; a row it finds has that key |
| DataInterface.InChannel | STTBot/data_interface.py:154 | the channel filter keeps exactly the rows whose channel equals the given one ignoring ASCII case, or every row |
| DataInterface.Removed | STTBot/data_interface.py:162 | `REMOVE_PIN` keeps exactly the rows without the key |
| DataInterface.InsertedKeepsUnique | STTBot/data_interface.py:159 | `INSERT or IGNORE` keeps one row per (channel, timestamp) |
| DataInterface.InsertedLookup | STTBot/data_interface.py:159 | after an insert, the key finds the old row if one existed, else the new row; other keys are unaffected |
| DataInterface.RemovedKeepsUnique | STTBot/data_interface.py:162 | deleting keeps one row per key |
| DataInterface.RemovedLookup | STTBot/data_interface.py:162 | after a delete the key finds nothing; other keys are unaffected |
| DataInterface.RemoveUndoesInsert | STTBot/data_interface.py:159-162 | removing a freshly inserted pin gives back the table |
| DataInterface.PinStore.GetPin | STTBot/data_interface.py:37-46 | None exactly when no row has the key; otherwise the selected columns of such a row |
| DataInterface.PinStore.GetRandomPin | STTBot/data_interface.py:49-61 | None exactly when no row is in the channel (or the table is empty); otherwise some row in the channel |
| DataInterface.PinStore.GetAllPins | STTBot/data_interface.py:64-76 | None exactly when no row is in the channel; otherwise one pin per row in the channel, in table (`created_at`) order |
| DataInterface.InChannelAppend | STTBot/data_interface.py:153-154 | the channel filter keeps table order: a row added last is selected last, exactly when its channel matches |
| DataInterface.InChannelAll | STTBot/data_interface.py:153 | without a channel every row is selected, in table order |
| DataInterface.PinStore.InsertPin | STTBot/data_interface.py:79-82 | the table becomes the `INSERT or IGNORE` of the row and stays keyed uniquely |
| DataInterface.PinStore.RemovePin | STTBot/data_interface.py:85-88 | the table loses the rows with the key and stays keyed uniquely |
| DataInterface.InsertOneMeaning | STTBot/data_interface.py:158 | inserting a message keeps the old rows as a prefix, leaves a row for that (timestamp, channel id), and keeps them unique |
| DataInterface.InsertAllMeaning | STTBot/data_interface.py:139-142 | `executemany` keeps the old rows as a prefix, leaves a row for every message of the batch, and keeps uniqueness; every appended row is the first record of the batch with its key, and no two appended rows share a key, so a record whose key is stored or earlier in the batch is dropped |
| DataInterface.InsertAllPrefix | STTBot/data_interface.py:139-142 | `executemany` only appends: the stored rows stay in place as a prefix |
| DataInterface.InsertAllAppended | STTBot/data_interface.py:139-142 | each row appended by `executemany` is the first batch record with its key and a key not stored before it |
| DataInterface.MatchingTexts | STTBot/data_interface.py:161 | `MSG_MATCH` selects only texts the expression is found in, and none exactly when no message matches |
| DataInterface.MatchTokensMembers | STTBot/data_interface.py:123-126 | a word is counted exactly when it is the lowered form of some `findall` match in a selected text |
| DataInterface.MsgMatchMeaning | STTBot/data_interface.py:109-136 | None exactly when no message matches; otherwise at most ten distinct lowered matches, by descending count, each with its true number of occurrences; a word left out means ten shown, none with a lower count than it |
| DataInterface.AuthorsCount | STTBot/data_interface.py:160 | `count(*)` per `user_name` among matching messages, excluding "Unknown" |
| DataInterface.LeaderboardMeaning | STTBot/data_interface.py:160 | the leaderboard is empty exactly when no matching message has a known author; it is by descending count; its users are exactly the known authors of matching messages, each with their count |
| DataInterface.CountMatches | STTBot/data_interface.py:123-126 | the `defaultdict` loop leaves the tally of the lowered matches |
| DataInterface.FirstTen | STTBot/data_interface.py:128-134 | the `num_to_display` loop keeps the first ten entries |
| DataInterface.MessageArchive.InsertMessages | STTBot/data_interface.py:139-142 | the messages table becomes the `INSERT or IGNORE` of the batch |
| DataInterface.MessageArchive.GetMsgLeaderboard | STTBot/data_interface.py:93-106 | None when the query returns no row, else the leaderboard |
| DataInterface.MessageArchive.GetMsgMatch | STTBot/data_interface.py:109-136 | the method returns the top-ten match table |
| Ranking.SortDesc | STTBot/data_interface.py:130 | `sorted(..., reverse=True)` by count yields a permutation in descending order |
| Ranking.SortDescIsStable | STTBot/data_interface.py:130 | equal counts keep their original order |
| Ranking.StableSortIsUnique | STTBot/data_interface.py:130 | a descending, stable permutation is determined by its input |
| Ranking.TallyCounts | STTBot/data_interface.py:126 | the tally gives every word its number of occurrences, and only words that occur |
| Ranking.TopOfTally | STTBot/data_interface.py:128-134 | the first n entries of the sorted tally are distinct, descending, and no word left out has a higher count than the last shown |
| AppMention.FilterHead | STTBot/events/app_mention.py:28-40 | the filtered list is non-empty exactly when some entry passes, and its head is the first entry that passes |
| AppMention.ResolveMeaning | STTBot/events/app_mention.py:28-37 | an exact (cmd, sub_cmd) match wins, first in table order; otherwise the first entry with that cmd and declared arguments; otherwise none |
| AppMention.RegistryShape | STTBot/events/app_mention.py:299-369 | the table has nine entries: `help`, seven `pin` entries (three taking arguments, two without a sub-command) and `poll react` |
| AppMention.RegistryTakesArgs | STTBot/events/app_mention.py:32 | only `pin` has entries with arguments, and the first of them is `pin channel` |
| AppMention.RegistryPinAlone | STTBot/events/app_mention.py:28 | `pin` alone runs `_cmd_pin` |
| AppMention.RegistryFallback | STTBot/events/app_mention.py:28-34 | the fallback is taken exactly for `pin <word>` when the word is not a pin sub-command, and it runs `pin channel` |
| AppMention.RegistryNoMatch | STTBot/events/app_mention.py:36-37 | a command is unknown exactly when it is not `pin`, `help` alone or `poll react` |
| AppMention.HelpTextLines | STTBot/events/app_mention.py:50-55 | the help message is the header line followed by one line per registry entry, in registry order |
| AppMention.PinChannelRoute | STTBot/events/app_mention.py:31-34 | on the fallback, the sub-command word is pushed in front of the arguments |
| AppMention.FallbackLowersChannelId | STTBot/events/app_mention.py:31-34 | a `pin` mention of a channel reference reaches `pin channel` with the channel id lower-cased, so an id with an upper-case letter is not matched exactly |
| AppMention.RoutePinChannel | STTBot/events/app_mention.py:15-34 | a user mention of `pin <channel>` reaches `pin channel` with the channel as first argument |
| AppMention.Answer | STTBot/events/app_mention.py:39-47 | a raised handler says `:warning: ` and the error; a status without `message` or `blocks` says nothing; at most one message |
| AppMention.RunHandler | STTBot/events/app_mention.py:39-40 | only the add, load and remove handlers change the store; help, poll react and pin stats return their specified results |
| AppMention.HandleMention | STTBot/events/app_mention.py:15-47 | bot messages are ignored; a parse error propagates; an unknown command says "Unknown command"; a run says at most one message, the store changing only through the handlers that write it |
| PinHandlers.PinHere | STTBot/events/app_mention.py:69-77 | "No pins found" exactly when the channel has no pin; otherwise the permalink of one of its pins |
| PinHandlers.PinAny | STTBot/events/app_mention.py:80-87 | "No pins found" exactly when the store is empty; otherwise the permalink of some pin |
| PinHandlers.ChannelIdOfReference | STTBot/events/app_mention.py:91-92 | the channel id of a `<#ID|name>` reference is ID |
| PinHandlers.PinChannel | STTBot/events/app_mention.py:90-104 | no argument raises IndexError; a channel without pins says "No pins found" or "Channel ... not found" depending on whether the id is known; otherwise the permalink of one of its pins |
| PinHandlers.PinAdd | STTBot/events/app_mention.py:208-233 | each error path, in source order, leaves the store unchanged: no argument, invalid permalink, already pinned, and a failing history call (a SlackApiError leaves `pin_msg_details` unbound, so an UnboundLocalError follows); an empty history stores `"{}"`; otherwise exactly the new row is appended |
| PinHandlers.PinRemove | STTBot/events/app_mention.py:265-277 | no argument, an invalid permalink or an absent pin leave the store unchanged with their messages; otherwise the pin's rows are deleted and the key finds nothing |
| PinHandlers.LoadCounts | STTBot/events/app_mention.py:240-262 | a finished `pin load` has counted every item as added or ignored, and has only appended rows, no more than it counted as added |
| PinHandlers.StepCounts | STTBot/events/app_mention.py:243-260 | one item adds one to added or ignored and only appends; an item that raises leaves the table as it was |
| PinHandlers.LoadKeepsUnique | STTBot/events/app_mention.py:256-257 | `pin load` keeps one row per key, whether it finishes or stops |
| PinHandlers.LoadStoresMessagePins | STTBot/events/app_mention.py:243-258 | a list of message pins with valid permalinks always finishes, with a pin stored for every item |
| PinHandlers.LoadKeepsPin | STTBot/events/app_mention.py:256-257 | a pin present before the load is still present after it |
| PinHandlers.LoadItem | STTBot/events/app_mention.py:243-260 | one loop iteration on the store does what the item step specifies |
| PinHandlers.PinLoad | STTBot/events/app_mention.py:236-262 | the store ends as the loop specification says; the answer is "Successfully loaded N pins and ignored M pins" or the exception of the item that stopped it |
| PinHandlers.PollReact | STTBot/events/app_mention.py:58-66 | four reactions on the mention (one, two, wastebasket, put_litter_in_its_place) and no message |
| PinStats.SumReactions | STTBot/events/app_mention.py:139-144 | the loop sums the reaction counts |
| PinStats.CollectPins | STTBot/events/app_mention.py:114-148 | the loop over all pins builds the `pin_store` dict as specified |
| PinStats.CountUsers | STTBot/events/app_mention.py:150-153 | the loop raises `KeyError('user')` exactly when an entry is empty; otherwise it leaves the tally of pin authors and each author's first avatar |
| PinStats.RenderBoards | STTBot/events/app_mention.py:180-203 | the report is the two boards of the collected pins |
| PinStats.RenderUsers | STTBot/events/app_mention.py:180-184 | one user block per top entry, with its avatar |
| PinStats.RenderReactions | STTBot/events/app_mention.py:199-203 | one reaction block per top pin |
| PinStats.PinStatsCmd | STTBot/events/app_mention.py:107-205 | the handler returns the stats of all pins: an error when there are none or a lookup fails, else the two boards |
| PinStats.TopUsersMeaning | STTBot/events/app_mention.py:150-184 | "Top Users" shows min(3, distinct authors) authors, distinct and by descending pin count, each with their true count; an author left out means three shown, none below them |
| PinStats.FirstAvatarsMeaning | STTBot/events/app_mention.py:152 | the avatar of each author is the one of their first pin |
| PinStats.TopUsersAvatars | STTBot/events/app_mention.py:152-183 | each top user is shown with the avatar of their first pin |
| PinStats.ReactionRanksOfTop | STTBot/events/app_mention.py:199-203 | the first three of the sorted pins are descending, each shows a real pin, and a pin with more reactions than the third is on the board |
| PinStats.TopReactionsMeaning | STTBot/events/app_mention.py:199-203 | "Top Reactions" shows min(3, pins) pins by descending reaction count, each a real pin, with none above the third left out |
| PinStats.CollectKeys | STTBot/events/app_mention.py:114-118 | the dict is keyed by permalink, one entry per distinct permalink of the pins |
| PinStats.CollectFaults | STTBot/events/app_mention.py:114-128 | collection fails exactly when some pin's Slack lookup raises, with the error of the first one |
| PinStats.CollectKeepsEntry | STTBot/events/app_mention.py:118-121 | an entry is kept unless a later pin has the same permalink |
| PinStats.SkippedPinFailsStats | STTBot/events/app_mention.py:118-153 | a pin whose lookup was skipped, and not overwritten by a later pin, makes `pin stats` raise `KeyError('user')` |
| PinStats.EmptyHistoryPinFailsStats | STTBot/events/app_mention.py:118-121 | a stored `"{}"` message, the value `pin add` writes for an empty history, makes `pin stats` raise `KeyError('user')` |
| PinStats.OneEmptyPinFailsStats | STTBot/events/app_mention.py:118-153 | a store of one pin whose message has no fields answers `:warning: 'user'` |
| PinStats.StatsSkippingBlankAnswers | STTBot/events/app_mention.py:118-153 | ignoring empty entries answers exactly when no lookup raises, and agrees with the code wherever the code answers |
| LoadMessages.FileRow | load_messages.py:49-50 | the imported record carries `ts`, `user`, `text`, the permalink built from the channel id and `ts`, and the profile name or "Unknown" |
| LoadMessages.EmittedFile | load_messages.py:44-51 | when nothing raises, the records are the record of each complete message, in order |
| LoadMessages.FileRecordsMeaning | load_messages.py:40-53 | a file loads exactly when no message lacks `ts` or has a profile without a name; then one record per complete message; otherwise the first such message's KeyError |
| LoadMessages.ProcessMessageFile | load_messages.py:40-53 | the loop computes the records of the file as specified above |
| LoadMessages.Tagged | load_messages.py:31-33 | tagging adds the channel id and name and keeps every other field |
| LoadMessages.TagRecords | load_messages.py:31-33 | the loop tags every record of a file |
| LoadMessages.IdsNamed | load_messages.py:26 | the ids listed for a channel name are exactly those of the entries with that name |
| LoadMessages.TaggedAllChannel | load_messages.py:31-34 | every row a channel inserts carries that channel's id and name |
| LoadMessages.InsertAllAppend | load_messages.py:34 | inserting file after file equals inserting all their records at once |
| LoadMessages.CountedMeaning | load_messages.py:29-35 | after a channel's files, its count has grown by the number of records; with no files the counts are unchanged |
| LoadMessages.ChannelCountLogged | load_messages.py:35-37 | a channel with files has a count to log, grown by its records; other channels' counts are unchanged |
| LoadMessages.CountedKeepsKeys | load_messages.py:35 | no channel loses its count |
| LoadMessages.ArchivedMeaning | load_messages.py:29-34 | the archive after a channel is the insert of all its tagged records |
| LoadMessages.Loader.StoreBatch | load_messages.py:31-35 | one file's records are tagged, inserted and counted |
| LoadMessages.Loader.LoadFile | load_messages.py:30-35 | a file that raises changes nothing and reports its error; otherwise its records are inserted and counted |
| LoadMessages.Loader.LoadFiles | load_messages.py:29-35 | the file loop stops at the first failing file with its error; the files before it stay inserted and counted, and a run that finishes has inserted and counted every file |
| LoadMessages.Loader.LoadChannel | load_messages.py:24-37 | an unknown channel name raises IndexError and changes nothing; a channel whose files all load is archived and counted, and the log line raises KeyError when it has no count; when a file raises, the files before it stay archived and counted and its error is returned |
| LoadMessages.Loader.LoadAll | load_messages.py:20-37 | a run that ends normally loaded every channel directory; a run that stops reports the error of one of them |

## Left out

- Slack Web API calls are not modelled: `conversations_list`,
  `conversations_history`, `users_list`, `pins_list`, `chat_getPermalink`,
  `reactions_get` and `reactions_add`. Their answers are parameters: a
  history function, the channel ids, the pinned items, a per-pin resolver
  for `pin stats`. A failing call is modelled as the exception it would
  raise.
- `say`, the `_ret_*` return tuples and the logger are not modelled. The
  model records only what is said and which exception text reaches the
  user; the debug and info log lines are dropped except where they raise.
- The SQLite connection is not modelled. Tables are sequences in insertion
  order.
  - `ORDER BY RANDOM()` is modelled as "some matching row".
  - `ORDER BY created_at` is modelled as table order. Rows with equal
    `created_at` values (inserts in the same second, as in `pin load`) are
    taken in insertion order; SQLite does not promise that order.
  - The tie order of the `GROUP BY ... ORDER BY count DESC` leaderboard is
    not modelled; the model states it descending.
  - The uniqueness constraints on (channel, timestamp) and (timestamp,
    channel_id) come from the schema, which is not part of this model. They
    are modelled as `INSERT or IGNORE` against those keys, with the pin
    channel compared under NOCASE.
- JSON is not modelled: message payloads are opaque strings, and
  `json.loads` in the pin queries is left out.
- The regular-expression engine is not modelled. It is the `Pattern`
  parameter; the permalink pattern is the one expression written out.
- Case folding, whitespace and digits are ASCII only. `str.lower`,
  `str.split`, NOCASE and the regular expression's `\d` on non-ASCII
  characters are not modelled (Python's `\d` also matches other Unicode
  decimal digits).
- Error texts are written for keys without quotes, backslashes or
  non-printable characters, as Slack ids and channel names are; `repr`
  of other keys is not modelled.
- The block kit templates of `pin stats` (`deepcopy` of the JSON blocks) are
  not modelled. The report keeps the values the blocks show.
- `get_messages`, the scheduler and `schedule_refresh` are not modelled:
  clock, paging and scheduling. So are `get_json_from_file`, file reading,
  and the order in which `os.scandir` lists directories and files; the
  listing is an input sequence.
- `get_sub_cmd` is undefined in the source; the model takes it to return
  `sub_cmd`. As written, the call would raise AttributeError on every user
  mention.
- A `pin load` item whose payload lacks `permalink`, and a JSON file that is
  not a list of dicts, are not modelled.
- Errors outside the handlers' own paths are not modelled, such as a Slack
  error response or a non-integer reaction count.
- AppMention.RunHandler: for the pin, pin any, pin channel, pin add, pin load
  and pin remove entries, it states only that the store is kept valid.
  What those handlers return is stated on `PinHandlers.PinHere` through
  `PinHandlers.PinLoad`.
- AppMention.HandleMention: for the same entries it states only that at most
  one message is said.
- LoadMessages.Loader.LoadAll: it states what a normal run and a stopped run
  mean per directory. It does not restate the final counts and archive;
  `LoadMessages.Loader.LoadChannel` states those for each directory, both
  when every file loads and when a file raises (the files before it stay
  inserted and counted).
