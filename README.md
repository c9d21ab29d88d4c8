# LINE bot core logic in Dafny

A model of the parts of the AceNexus LINE bot that hold real behaviour, apart from
the web plumbing, scraping and card layout:

- **Reminder store.** The "other reminder" store of `app/utils/other_reminder.py`. It has:
  - a list of reminders with a global id counter;
  - case-insensitive duplicate detection;
  - per-user and per-slot views;
  - deletion;
  - the two-step add flow (content, then an `HH:MM` time);
  - the "done today" marks.

  It is the class `OtherReminder.ReminderStore`, whose fields are the module's four stores.
- **Subscriptions.** The word-of-the-day `SubscriptionManager` of `app/models/subscription.py`, as a class over a `seq`.
- **News command.** The `"topic/count"` parser, its range checks, the retry prompt, the "topic not found" reply and the count-menu payloads (`app/utils/news.py`).
- **Config merge.** `load_config_from_spring_config` (`app/config.py`) covers:
  - the request it sends to a Spring Cloud Config Server;
  - the in-order merge of the property sources, where later ones win;
  - the `"true"`/`"false"`/digit coercion;
  - the exceptions it raises.
- **Word features.** The three vocabulary features (`english_words.py`, `words.py`, `japanese_words.py`). They share one model of reading the language model's reply:
  - parse the reply as JSON;
  - otherwise parse the span from the first `{` to the last `}`;
  - then fill the missing required fields with `""`.

  On top of that, each feature's own packaging is modelled: the apology text, the fallback word, a single bubble or a carousel.
- **Chat history.** The per-user chat histories of `chat_with_groq` (`app/services/groq_service.py`), as the class `GroqService.ChatSessions`.
- **TTS links.** The Google text-to-speech link of `generate_audio_url`. It includes `urllib.parse.quote`, written out as UTF-8 (RFC 3629) followed by the percent-encoding of section 2.1 of RFC 3986.

The language model, `json.loads` and the HTTP exchange are function-typed parameters. An exception
is a value of `Wrappers.Outcome` (`Returned(v)` or `Raised(error)`). Helper modules:

- `Text` models the Python string operations the source relies on: `strip`, `lower`, `int()`, `str(int)`, `split`, `join` and string comparison.
- `Seqs` is a list comprehension's filter.
- `Json` holds JSON values and f-string formatting.

## Model

| member | source | states |
|---|---|---|
| OtherReminder.IsValidTimeFormat | app/utils/other_reminder.py:32-35 | the hour-colon-minute pattern of `is_valid_time_format` under `re.match`; `TimeTextIsValid` and `ValidTimeIsTimeText` state which strings it accepts |
| OtherReminder.TimeTextIsValid | app/utils/other_reminder.py:32-35 | every hour 0–23 and minute 0–59, written `H:MM` or `HH:MM`, is accepted, also with one trailing newline (Python's `$`) |
| OtherReminder.ValidTimeIsTimeText | app/utils/other_reminder.py:32-35 | conversely, every accepted string is such a spelling of an hour below 24 and a minute below 60, possibly followed by one newline |
| OtherReminder.TimeExamples | app/utils/other_reminder.py:32-35 | "08:00", "8:30", "23:59" and "23:59\n" pass; "25:00", "24:00", "08:60" and "8:5" fail |
| OtherReminder.CommonTimesAreValid | app/utils/other_reminder.py:16 | the four fixed slots pass the time check |
| OtherReminder.SortByTime | app/utils/other_reminder.py:58-60 | `sorted(..., key=time)` as an insertion sort; `SortByTimeCorrect` states what it promises |
| OtherReminder.SortByTimeCorrect | app/utils/other_reminder.py:58-60 | the time sort is ordered by the time string, is a permutation, and is stable among equal times |
| OtherReminder.UserReminders | app/utils/other_reminder.py:58-60 | the user filter of the store, sorted by time; `UserRemindersSpec` states what it holds |
| OtherReminder.UserRemindersSpec | app/utils/other_reminder.py:58-60 | `get_other_reminders(u)` holds exactly `u`'s reminders, sorted by time string, same-time reminders in store order |
| OtherReminder.TimesCompareAsStrings | app/utils/other_reminder.py:60 | times compare as strings, so "18:00" sorts before "8:00" |
| OtherReminder.RemindersAt | app/utils/other_reminder.py:27-29 | one `(user_id, content)` pair per reminder at exactly time `t`, in store order |
| OtherReminder.RemindersAtComplete | app/utils/other_reminder.py:27-29 | a pair is listed iff the store holds a reminder of that user and content at exactly `t` |
| OtherReminder.ReminderExists | app/utils/other_reminder.py:38-40 | the duplicate test over the sorted per-user view; `ReminderExistsIff` states when it holds |
| OtherReminder.ReminderExistsIff | app/utils/other_reminder.py:38-40 | the duplicate check finds a clash iff some stored reminder has the same user, the same content ignoring case and the same time |
| OtherReminder.ClashExample | app/utils/other_reminder.py:38-40 | "ASPIRIN" at 08:00 clashes with a stored "Aspirin" at 08:00 |
| OtherReminder.DeleteRemovesAtMostOne | app/utils/other_reminder.py:108-112 | with strictly increasing ids, deleting by (user, id) shrinks the store by one exactly when such a reminder exists, otherwise by none |
| OtherReminder.ReminderStore.constructor | app/utils/other_reminder.py:18-24 | empty stores, the counter at 1, the store invariant holds |
| OtherReminder.ReminderStore.Add | app/utils/other_reminder.py:43-55 | a clash returns `(None, "此提醒內容和時間已存在")` with store and counter unchanged; otherwise appends one reminder with the old counter as id, increments the counter, returns `(id, "新增成功！")`; ids stay strictly increasing and clash-free; the flow and done maps are untouched |
| OtherReminder.ReminderStore.Delete | app/utils/other_reminder.py:108-112 | keeps exactly the reminders not matching both user and id, in order; returns true iff one was removed; the store shrank by one exactly then |
| OtherReminder.ReminderStore.StartAdd | app/utils/other_reminder.py:63-64 | the user's flow becomes step 1 with no content; nothing else changes |
| OtherReminder.ReminderStore.SetContent | app/utils/other_reminder.py:67-70 | only for a user already in the flow, at any step: stores the stripped content and moves to step 2; others are ignored |
| OtherReminder.ReminderStore.FinishAdd | app/utils/other_reminder.py:73-85 | not at step 2: `(False, "新增失敗，請重新開始。")`, nothing changes; invalid stripped time: the format message, still at step 2; clash: the duplicate message, still at step 2; otherwise the reminder is added with the stripped time and the flow entry is deleted |
| OtherReminder.ReminderStore.IsAdding | app/utils/other_reminder.py:88-89 | in the flow iff the step reported is not 0 |
| OtherReminder.ReminderStore.CancelAdd | app/utils/other_reminder.py:92-93 | removes the user's flow entry; for a user not in the flow nothing changes (so it is idempotent) |
| OtherReminder.ReminderStore.AddStep | app/utils/other_reminder.py:96-97 | 0, 1 or 2; 0 exactly outside the flow; 2 exactly when content has been given |
| OtherReminder.ReminderStore.MarkDone | app/utils/other_reminder.py:100-101 | marks exactly the (user, content, time, date) key; marking a marked key changes nothing |
| OtherReminder.ReminderStore.IsDone | app/utils/other_reminder.py:104-105 | true exactly for marked keys, content compared case-sensitively; false by default |
| Subscriptions.SubscriptionManager.constructor | app/models/subscription.py:19-20 | an empty list |
| Subscriptions.SubscriptionManager.AddSubscription | app/models/subscription.py:22-24 | appends at the end, with no duplicate check |
| Subscriptions.SubscriptionManager.GetUserSubscriptions | app/models/subscription.py:26-28 | holds exactly the subscriptions of that user |
| Subscriptions.SubscriptionManager.RemoveUserSubscriptions | app/models/subscription.py:30-32 | the user has no subscription left; every other user's list is unchanged, order included; the list shrank by exactly the user's count |
| Subscriptions.SubscriptionManager.GetAllSubscriptions | app/models/subscription.py:34-36 | the whole list in insertion order |
| Subscriptions.SubscriptionManager.GetSubscriptionsByTime | app/models/subscription.py:38-40 | holds exactly the subscriptions whose time equals `t` |
| Subscriptions.RemoveUserKeepsOthers | app/models/subscription.py:30-32 | after removal no subscription of `u` is left; each other user's filtered list is identical; kept + removed = all |
| Subscriptions.RemoveUserIdempotent | app/models/subscription.py:30-32 | removing a user twice is removing once |
| Subscriptions.UserSubscriptionsMembership | app/models/subscription.py:26-28 | a subscription is in the user filter iff it is stored and belongs to that user |
| Subscriptions.AtTimeMembership | app/models/subscription.py:38-40 | a subscription is in the time filter iff it is stored and has that time |
| Subscriptions.SampleData | app/models/subscription.py:44-90 | in the sample data user_123 has two subscriptions, 08:00 has two, and after removing user_123 only user_456's remains |
| News.ParseNewsFormat | app/utils/news.py:53-67 | a pair comes back only for input with exactly one `/` |
| News.ParseNewsFormatNeedsOneSlash | app/utils/news.py:53-67 | no `/`, or more than one, gives `None` ("1/2/3" included) |
| News.ParseNewsFormatPair | app/utils/news.py:58-66 | with one `/`, a pair comes back iff both sides read as integers with `int()`, and it is those integers |
| News.ParseNewsFormatRoundTrip | app/utils/news.py:53-64 | `parse_news_format(str(t) + "/" + str(c)) == (t, c)` for all integers |
| News.GetNews | app/utils/news.py:86-95 | "找不到主題代碼：<id>" iff the stripped id is not a topic key; otherwise the fetch of that key's topic with the given count |
| News.FetchArguments | app/utils/news.py:90-95 | a fetch passes the topic's own name and the count on to `fetch_google_news_flex` |
| News.GenerateNewsTopicOptions | app/utils/news.py:43-50 | the header lines, one `"<key>. <name>"` line per topic in order, and the count hint, joined with newlines |
| News.TopicOptionsListTopics | app/utils/news.py:43-50 | line `4 + k` of the prompt is topic `k`'s key and name |
| News.HandleNewsInput | app/utils/news.py:70-83 | the flag is true iff the input parses with topic 1–7 and count 1–10; without the flag the reply is the topic prompt |
| News.HandleNewsInputNews | app/utils/news.py:76-79 | an accepted pair `(t, c)` fetches `c` articles of topic `t`, never the "not found" text |
| News.GetNewsOfTopic | app/utils/news.py:86-95 | the id `str(t)` of a topic 1–7 selects topic `t` |
| News.GetNewsCountMenuPayloads | app/utils/news.py:267-273 | exactly ten payloads `news_count=<t>/<n>` for n = 1..10 |
| News.CountMenuPayloadAccepted | app/utils/news.py:267-273 | for a real topic every payload pair is accepted by `handle_news_input` |
| News.AcceptsInRange | app/utils/news.py:53-83 | `"<t>/<c>"` with topic 1–7 and count 1–10 ("1/5" among them) is accepted and fetches `c` articles of topic `t` |
| News.RejectsCountAboveTen | app/utils/news.py:53-83 | a count above ten ("1/11" among them) parses but gets the prompt and no flag |
| News.RejectsTwoSlashes | app/utils/news.py:58-60 | "1/2/3" gives `None` |
| SpringConfig.AuthFor | app/config.py:63 | credentials are sent iff both user name and password are non-empty |
| SpringConfig.RequestFor | app/config.py:62-63 | the URL is `<server>/<app_name>/<profile>` |
| SpringConfig.Merge | app/config.py:73-75 | the chained `config.update`; `MergeKeys` and `MergeLastWins` state its keys and values |
| SpringConfig.MergeKeys | app/config.py:73-75 | a key is in the merge iff some property source defines it |
| SpringConfig.MergeLastWins | app/config.py:73-75 | a key's merged value is that of the last source defining it |
| SpringConfig.CoerceValue | app/config.py:77-81 | non-strings are untouched; a string becomes a boolean only for "true"/"false" in any case, true iff it reads "true" |
| SpringConfig.Coerce | app/config.py:77-81 | the key set is unchanged by coercion |
| SpringConfig.CoerceBooleanText | app/config.py:78-79 | "true"/"false" in any letter case become that boolean, checked before the digit rule |
| SpringConfig.CoerceDigitText | app/config.py:80-81 | an all-digit string becomes the integer `int()` reads from it |
| SpringConfig.CoerceOtherText | app/config.py:77-81 | any other string stays as it is |
| SpringConfig.CoerceValueIdempotent | app/config.py:77-81 | coercing twice is coercing once |
| SpringConfig.LoadSpec | app/config.py:56-88 | `ValueError` exactly when the URL is missing or empty, with its message; a load only for a received body with `propertySources`; any other exception is the format error or carries the network prefix |
| SpringConfig.ExchangeErrors | app/config.py:65-71 | a failed request raises "Network error connecting to Config Server: <reason>"; a body without `propertySources` raises "Configuration error: Invalid configuration format received from server" |
| SpringConfig.LoadConfigFromSpringConfig | app/config.py:56-88 | the merge loop and the coercion loop compute exactly the specification: `ValueError` for a missing URL, the network prefix for a failed request, the format error for a body without `propertySources`, else the coerced merge |
| SpringConfig.LoadedConfig | app/config.py:69-83 | a received body loads iff it has `propertySources`; then the keys are exactly those some source defines |
| SpringConfig.LoadedValue | app/config.py:73-81 | each loaded value is the coerced value of the last source defining the key |
| SpringConfig.MissingServerUrl | app/config.py:59-60 | an empty or missing URL raises the bare `ValueError`, not re-wrapped |
| SpringConfig.OverrideExample | app/config.py:73-75 | a second source's "port" overrides the first's |
| LlmReply.BraceSpan | app/utils/english_words.py:130 | the span starts at the first `{` and ends at the last `}` |
| LlmReply.BraceSpanExists | app/utils/english_words.py:130-135 | the regular expression matches iff some `{` precedes some `}` |
| LlmReply.BraceSpanIsWidest | app/utils/english_words.py:130-133 | the span contains every `{ … }` span of the reply |
| LlmReply.ParseReply | app/utils/english_words.py:123-135 | the reply itself when it decodes, else the brace span's decoding, else a failure |
| LlmReply.ParseWrappedReply | app/utils/words.py:48-59 | a JSON body wrapped in text without braces is read from its braces |
| LlmReply.Completed | app/utils/english_words.py:158-164 | keys are the data's plus the required ones; present values untouched; missing ones `""` |
| LlmReply.CompleteFields | app/utils/english_words.py:158-164 | the field loop computes exactly that completion |
| LlmReply.CompletedIdempotent | app/utils/english_words.py:158-164 | completing twice is completing once |
| LlmReply.CardOf | app/utils/english_words.py:169-185 | a card's audio links are non-empty iff the field is a non-empty string, and then are the TTS link of it |
| EnglishWords.SingleWordOf | app/utils/english_words.py:83-166 | the call's exception propagates; an unreadable reply gives the apology; a decoded object is completed with all seven fields |
| EnglishWords.GetSingleEnglishWord | app/utils/english_words.py:121-166 | the method computes exactly `SingleWordOf` |
| EnglishWords.AddWord | app/utils/english_words.py:47-55 | one iteration: an exception so far or now is the outcome, an apology adds nothing, word data adds its card at the end; at most one card more |
| EnglishWords.Cards | app/utils/english_words.py:45-55 | never more cards than requests |
| EnglishWords.CollectCards | app/utils/english_words.py:45-55 | the loop over `range(count)` yields exactly `Cards` of the requested count: the cards in order, or the first exception |
| EnglishWords.FetchEnglishWordsFlex | app/utils/english_words.py:41-80 | the loop, the `except` and the packaging compute exactly `FetchReply` |
| EnglishWords.CardsStayRaised | app/utils/english_words.py:45-55 | once a request raised, later requests change nothing: the first exception is the outcome |
| EnglishWords.FetchReply | app/utils/english_words.py:57-80 | text replies are the error or the "no words" text; one card gives alt text `英文單字學習 - <name>`; a carousel holds 2 to `count` cards and its alt text names the requested count |
| EnglishWords.CardsRaisedIff | app/utils/english_words.py:45-55 | the loop raises iff some request among the first `count` raises |
| EnglishWords.CardsAreGoodCards | app/utils/english_words.py:45-55 | a loop that does not raise collects exactly the cards of the word-data replies, in request order |
| EnglishWords.FetchReplyCases | app/utils/english_words.py:45-80 | any raising request gives "無法取得英文單字內容"; otherwise no card gives the "no words" text, one card its bubble, two or more a carousel of all cards in request order with the count in its alt text |
| EnglishWords.OneGoodReplyGivesBubble | app/utils/english_words.py:57-65 | with no exception and word data from exactly one reply, the answer is that reply's bubble |
| EnglishWords.CardsAllGood | app/utils/english_words.py:45-55 | when every reply is good, no request raises and each one adds a card |
| EnglishWords.FetchAllGood | app/utils/english_words.py:48-74 | when every reply is good and `count >= 2`, all `count` cards come back in a carousel |
| EnglishWords.GetEnglishWords | app/utils/english_words.py:31-39 | the difficulty lookup, then `fetch_english_words_flex`; `GetEnglishWordsLookup` states which ids are found |
| EnglishWords.GetEnglishWordsLookup | app/utils/english_words.py:31-39 | a difficulty exists iff the id is 1, 2 or 3; any other id gets "找不到難度代碼：<id>" without a request |
| EnglishWords.SessionTypeCallAlwaysFails | app/utils/english_words.py:121 | with the call as written, any request for one word or more ends in "無法取得英文單字內容" |
| Words.WordDataOf | app/utils/words.py:47-91 | a decoded object is used; any parse failure gives the fallback word; a non-object raises in the field loop |
| Words.WordMessage | app/utils/words.py:101-104 | alt text `英文單字：<word>` and the card of the fields |
| Words.GetEnglishWordSpec | app/utils/words.py:12-105 | the call's exception propagates unchanged; it raises iff the call raised or the reply decodes to a non-object; otherwise always a word bubble, never text |
| Words.GetEnglishWord | app/utils/words.py:12-105 | the method computes exactly the specification function |
| Words.FallbackWordComplete | app/utils/words.py:83-91 | the fallback word already has every required field, so completion keeps it; its word is "fallback" |
| Words.UnreadableReplyFallsBack | app/utils/words.py:78-91 | an unreadable reply gives the fallback card, never an error |
| Words.ObjectReplyCompleted | app/utils/words.py:93-99 | a decoded object's card has all seven fields and keeps every given value |
| JapaneseWords.GetJapaneseWordSpec | app/utils/japanese_words.py:12-96 | the call's exception propagates unchanged; it raises iff the call raised or the reply decodes to a non-object; the answer is text iff the reply cannot be read, and then it is the apology |
| JapaneseWords.GetJapaneseWord | app/utils/japanese_words.py:12-96 | the method computes exactly the specification function |
| JapaneseWords.ValidJsonUsedAsIs | app/utils/japanese_words.py:50-53 | a reply that is JSON as it stands is used without brace extraction |
| JapaneseWords.UnreadableReplyApologises | app/utils/japanese_words.py:54-61 | no decodable reply or span gives the apology text, not a card |
| JapaneseWords.JapaneseCard | app/utils/japanese_words.py:84-115 | all eight fields present, given values kept, alt text `日文單字：<word>`, audio with the `tl=en` prefix |
| JapaneseWords.SessionTypeCallRaises | app/utils/japanese_words.py:47 | with the call as written, the exception reaches the caller |
| GroqService.Sent | app/services/groq_service.py:27-33 | the API receives the stored history followed by the new user message |
| GroqService.AfterChat | app/services/groq_service.py:21-39 | the user's history grows by the user message and, when the API answered, the assistant reply (2 or 1 messages); no other history changes |
| GroqService.AfterChatWellFormed | app/services/groq_service.py:21-39 | every history keeps the system prompt first and only there, and each assistant message follows a user message |
| GroqService.FirstChat | app/services/groq_service.py:21-39 | a first successful call leaves exactly system prompt, question, answer |
| GroqService.ChatSessions.ChatWithGroq | app/services/groq_service.py:12-41 | the reply is the API's answer to the accumulated history; the histories become `AfterChat` of the old ones; well-formedness is kept |
| GoogleTts.GenerateAudioUrl | app/utils/google_tts.py:5-9 | `""` iff the text is missing or empty; otherwise the fixed `tl=en` prefix followed by `quote(text)`; `generate_audio_url` of app/utils/words.py:219-223 is the same function |
| GoogleTts.Quote | app/utils/google_tts.py:8 | `urllib.parse.quote`: UTF-8 encoding, then percent-encoding of every byte outside the unreserved set and `/`; `QuoteIsInvertible` states what it promises |
| GoogleTts.QuoteIsInvertible | app/utils/google_tts.py:8 | `quote` loses nothing: percent-decoding and UTF-8 decoding return the text; it emits only unreserved characters, `/` and `%XX` |
| GoogleTts.Utf8RoundTrip | app/utils/google_tts.py:8 | UTF-8 decoding undoes encoding |
| GoogleTts.PercentRoundTrip | app/utils/google_tts.py:8 | percent-decoding undoes percent-encoding |
| GoogleTts.AudioUrlOf | app/utils/english_words.py:174-185 | a card field yields a link iff it is a non-empty string; anything else yields `""` |

## Left out

- **Card and menu layout.** Flex bubbles, carousels and menus (`create_*_bubble`, `get_*_menu`, `get_*_list_flex`, `get_today_other_reminder_records`): only the alt text and the two audio links of a card are modelled. The difficulty name in the English bubble header is also left out.
- **News fetching.** `fetch_google_news_flex` and `shorten_url` do HTTP, HTML parsing and random shuffling. `get_news` for a known topic is modelled as the fetch it would start: the topic's position and the count. `News.FetchArguments` turns that into the name, feed URL and count that `fetch_google_news_flex` receives.
- **Menu examples.** The example inputs "1/5" and "1/11" are covered by the general statements `News.AcceptsInRange` and `News.RejectsCountAboveTen`, not stated on their own.
- **External calls.** The language model, `json.loads`, `requests.get`, `response.raise_for_status()` and `response.json()` are parameters, not models.
- **Python `int()` and `str.isdigit()`.** Both accept only an optional sign and ASCII digits here. Python also accepts `_` separators and non-ASCII digits.
- **`str.lower()`.** It lowers the ASCII range only. That is exact for the `"true"`/`"false"` test. The case-insensitive duplicate check compares non-ASCII letters exactly.
- **Non-object JSON replies.** A reply decoding to JSON that is not an object is modelled as raising `TypeError` in the field loop. A JSON array, or a string holding every field name, would instead pass the `not in` tests.
- **Response objects.** The `.text` and `.json` branches for non-string responses are not modelled, because `chat_with_groq` always returns a string.
- **Request timeout.** The `timeout=10` of the config request is not modelled.
- **Malformed config bodies.** A non-list `propertySources` is not modelled, and neither is a `source` that is not an object.
- **Prompt texts.** The prompt texts sent to the language model are left out; they do not affect the logic.
- **App config wrappers.** `load_app_config`, `exit_with_error`, `print_config_info` and `Config` are outside this model.
- **Clock.** `created_at` and the date of a done mark are values the caller supplies.
- **Concurrency.** The module-level stores are unlocked. Every operation here is sequential.
- **Logging.** Every `logger` call is left out.
- OtherReminder.ReminderStore.Valid: the store invariant is a ghost predicate. Every method requires it and keeps it, while the Python module simply starts from its empty stores.
- Subscriptions.SubscriptionManager.GetUserSubscriptions: the contract states membership. Insertion order follows from its definition as a filter and from `Subscriptions.RemoveUserKeepsOthers`.
- Subscriptions.SubscriptionManager.GetSubscriptionsByTime: likewise, membership is stated and the order follows from the filter.

## Findings

| source | as written | input that shows it | evidently intended | confidence | as-written member | corrected member |
|---|---|---|---|---|---|---|
| app/utils/english_words.py:121 | `chat_with_groq(user_id, prompt, session_type="english")`, but `chat_with_groq` takes only `user_id`, `message` and `model`, so the call raises `TypeError` and `fetch_english_words_flex` answers "無法取得英文單字內容" | `get_english_words(u, 1, 1)` | the word cards, one per good reply | not executed | EnglishWords.SessionTypeCallAlwaysFails | EnglishWords.FetchAllGood |
| app/utils/japanese_words.py:47 | `chat_with_groq(user_id, prompt, session_type="japanese")` raises the same `TypeError`, outside the `try`, so `get_japanese_word` raises | `get_japanese_word(u)` with any reply | the card of the reply, or the apology | not executed | JapaneseWords.SessionTypeCallRaises | JapaneseWords.JapaneseCard |
