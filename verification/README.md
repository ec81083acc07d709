# Batch vote reassembler and helpers — a Dafny model

This project models the deterministic core of a command-line (and Kivy
GUI) client for a community site: the batch-vote runner, which fires one
vote request per task id from a thread pool and prints the results in
ascending id order through a reorder buffer; the classifier that turns a
vote reply into success / already-voted / failed; the validity probe; the
numeric prompts with their defaults, clamps and range swap; the file-name
sanitiser; the key ordering of the annotated JSON writer; the Unix
timestamp guard; the profile-label fallbacks; the user-name searcher's
cache and duplicate suppression; the GUI's buffered log panel; and the
GUI dialogs' defaulting and phone masking.

Modules, one per file:

- `Wrappers` (`wrappers.dfy`): `Option`.
- `Text` (`text.dfy`): substring test (Python `in`), whitespace strip,
  decimal printing (`str`) and parsing (`int`) of integers.
- `Vote` (`vote.dfy`): replies, `vote_do`, `vote_check`, `process_task`.
- `Reassembler` (`reassembler.dfy`): the output buffer, `flush_output`,
  the whole run under an arbitrary completion order.
- `Inputs` (`inputs.dfy`): console prompts, clamps, id range and task list.
- `BatchVote` (`batch.dfy`): the batch-vote menu end to end.
- `FileNames` (`filenames.dfy`): `INVALID_CHARS` substitution and the
  result-file names built from it.
- `KeyOrder` (`keyorder.dfy`): key order of `format_json_with_comments`.
- `Profile` (`profile.dfy`): `timestamp_to_datetime` guard and the
  `get_sex*_text` getters.
- `UserSearch` (`usersearch.dfy`): `UsernamePostSearcher`.
- `LogPanel` (`logpanel.dfy`): the GUI's `log` / `_flush_log_buffer`.
- `Dialogs` (`dialogs.dfy`): `_do_batch_crawl`, `_do_batch_vote`, the
  account list's phone masking.

Concurrency is modelled as order: the pool's workers finish in some
order, given as a sequence `completion` of distinct task ids, and each
finished task calls `flush_output` under the output lock, which is what
`Reassembler.Submit` does. The network is a parameter: each task id maps
to the reply the server gives (`Vote.Reply`), and the searcher's profile
fetch is a function from user id to an optional profile.

Python's `int()` on a string is modelled as: strip ASCII whitespace, an
optional `+` or `-`, then one or more ASCII digits; anything else raises
(`None`). `str()` of an integer is `Text.Decimal`.

Behaviour of the code that the model follows, and that a reader might not
expect:

- With the probe switched on, every probed task ends "处理异常", whatever
  the server answers (see Findings).
- The vote verdict depends on the HTTP status and on whether the body
  decodes as a JSON object, not only on the body's code and message;
  `Vote.VoteDo` models all of these.
- The user cache is checked and filled without a lock, so two threads can
  fetch the same user; the model runs the searcher sequentially (see Left
  out).
- The console `batch_vote` swaps a reversed range and clamps its pool size
  to 10..500. The GUI's `_do_batch_vote` also swaps the range but passes
  its thread count on unclamped: "0" reaches `batch_vote_gui` as 0
  (`Dialogs.ZeroIsAnAnswer`), where a pool of size 0 or less raises.

## Model

| member | source | states |
|---|---|---|
| Text.ContainsIff | app/your_code.py:2052 | Python's substring test `sub in s` holds exactly when `sub` occurs at some position of `s` |
| Text.DecimalRoundTrip | app/your_code.py:2146-2147 | parsing the printed form of any integer with `int()` gives the integer back |
| Text.ParseInt | app/your_code.py:2146-2147 | `int()` of a blank answer raises: a parse succeeds only when something is left after stripping whitespace |
| Text.Strip | app/your_code.py:2161 | the result is the slice of the answer starting after its leading whitespace, and it neither starts nor ends with whitespace; that only whitespace is cut away is Text.StripSpec |
| Text.StripSpec | app/your_code.py:2161 | `s.strip()` is the slice of `s` between leading and trailing whitespace, and neither starts nor ends with whitespace |
| Text.StripIdempotent | app/your_code.py:2161 | stripping a stripped answer changes nothing |
| Text.Decimal | app/your_code.py:2146-2147 | `str(n)` starts with `-` exactly for a negative number and is otherwise digits; Text.DecimalRoundTrip reads it back |
| Vote.VoteDo | app/your_code.py:2040-2057 | the vote is ok exactly when the reference classifier `Vote.Classify` (200 object reply; code 1, or code 0 with an `AlreadyMarked` message) says success or already-voted; non-200 replies report the HTTP status as code with empty message and data; a raised request or unparsable body reports code 0 and empty message and data; otherwise code, message and data are the body's |
| Vote.VoteCheck | app/your_code.py:2029-2038 | a task is valid exactly when the probe gets a 200 reply whose body has code 1; for a 200 object the reported code is the body's, a missing one read as 0, with the body's message and data; non-200 reports the status and "HTTP 非 200"; an exception or undecodable body reports code 0 |
| Vote.ProbeAgreesWithVote | app/your_code.py:2029-2050 | the probe accepts a reply exactly when the vote call would classify the same reply as a success, and both then report code 1 |
| Vote.VoteOutcome | app/your_code.py:2269-2280 | the result type derived from `vote_do`'s tuple is `Vote.Classify` of the reply |
| Vote.ProcessTask | app/your_code.py:2251-2284 | as written: with the probe on, every task's entry is the "处理异常" failure; without it the entry's kind is `Vote.Classify` of the reply and its code, message and data are `vote_do`'s |
| Vote.ProcessTaskIntended | app/your_code.py:2255-2280 | corrected: an invalid probe fails the task with the probe's code, message and data; a valid probe or no probe gives exactly the entry of the probe-free path, the vote's classification (Vote.Classify) with its code, message and data |
| Vote.CheckFirstAlwaysFails | app/your_code.py:2256-2257 | for every probe reply the probe accepts and every vote reply that wins, the task still fails as written, and succeeds under the corrected definition |
| Vote.IntendedAgreesWithoutProbe | app/your_code.py:2255-2280 | without the probe the written and corrected `process_task` give the same entry |
| Vote.ClassifierExamples | app/your_code.py:2049-2055 | code 1 is success; code 0 with "已投" or "重复" in the message is already-voted; code 0 without a marker, another code, or a non-200 reply fail |
| Reassembler.Init | app/your_code.py:2177-2189 | a fresh run has nothing emitted, an empty buffer, and counters that agree with the (empty) output |
| Reassembler.Emit | app/your_code.py:2195-2247 | emitting the buffered entry at the cursor appends its record, bumps exactly the counter of its kind, appends the id to the success or already list only for those kinds, removes it from the buffer and advances the cursor by one |
| Reassembler.Flush | app/your_code.py:2190-2249 | flushing keeps the order, never moves the cursor back or past the end, stops at the first id not in the buffer, and keeps counters equal to the kinds of the emitted records |
| Reassembler.FlushRecords | app/your_code.py:2193-2249 | the records a flush emits are the buffered entries of the consecutive ids from the cursor, in order |
| Reassembler.FlushBuffer | app/your_code.py:2246-2249 | a flush removes exactly the emitted ids from the buffer and leaves the rest |
| Reassembler.Submit | app/your_code.py:2286-2288 | submitting a finished task buffers its entry and flushes, keeping the order and the counter bookkeeping |
| Reassembler.Run | app/your_code.py:2298-2302 | after any completion sequence the counters add up to the number of emitted lines and match the emitted records |
| Reassembler.KindsPartition | app/your_code.py:2198-2205 | every emitted record is counted once: success, already and failed counts add up to the number of records |
| Reassembler.TalliedConserves | app/your_code.py:2198-2205 | when counters match the records, the three counters sum to the cursor |
| Reassembler.InitInv | app/your_code.py:2177-2189 | the reorder invariant holds before any task finishes |
| Reassembler.SubmitKeepsInv | app/your_code.py:2286-2288 | each finished task keeps the invariant: emitted lines are exactly the outcomes of the first ids in order, the cursor sits at the first unfinished id, and the buffer holds exactly the finished, not yet emitted ids |
| Reassembler.RunInv | app/your_code.py:2298-2302 | the invariant holds after any prefix of any completion order of distinct ids |
| Reassembler.RunComplete | app/your_code.py:2298-2316 | once every task has finished, in whatever order, every id was printed once in ascending order with its own outcome, the buffer is empty and the counters add up to the number of tasks |
| Reassembler.RunDrains | app/your_code.py:2298-2302 | once every task has finished, the cursor is at the end, the buffer is empty and the emitted records are every id's outcome in id order |
| Reassembler.RunIndependentOfCompletion | app/your_code.py:2298-2302 | two completion orders of the same tasks give the same final report |
| Reassembler.IdsOfKindMembers | app/your_code.py:2198-2203 | an id is in the success (already) list exactly when it is in the range and its outcome is success (already) |
| Reassembler.SuccessAlreadyDisjoint | app/your_code.py:2198-2203 | no id is in both the success and the already list |
| Reassembler.IdsOfKindIncreasing | app/your_code.py:2179 | over an ascending order the success and already lists are ascending |
| Reassembler.CountIsIdsLength | app/your_code.py:2198-2203 | the success (already) counter equals the length of the success (already) list |
| Inputs.Clamp | app/your_code.py:1028 | `max(lo, min(hi, x))` lies in `[lo, hi]`, is `x` inside it and the nearer bound outside |
| Inputs.ReadSetting | app/your_code.py:1026-1036 | a blank answer gives the clamped default, an integer answer its clamped value, any other answer the default unclamped |
| Inputs.SearchPages | app/your_code.py:1026-1030 | the page count used by the search lies in 1..5000 |
| Inputs.SearchThreads | app/your_code.py:1032-1036 | the search's thread count lies in 1..200 |
| Inputs.VoteThreads | app/your_code.py:2158-2164 | the vote pool size lies in 10..500 |
| Inputs.ReadRange | app/your_code.py:2145-2153 | the range is read exactly when both answers are integers; it is then ordered and holds the same two numbers |
| Inputs.TaskIds | app/your_code.py:2155 | `list(range(start, end + 1))` has `end - start + 1` elements (none if `end < start`), the i-th being `start + i` |
| Inputs.TaskIdsShape | app/your_code.py:2155 | the task list is strictly ascending and holds exactly the ids of the closed range |
| BatchVote.BatchVote | app/your_code.py:2145-2172 | the run happens exactly when the range parses and the "确定开始？" question is answered `y`, over the task list of the swapped range |
| BatchVote.BatchVoteReport | app/your_code.py:2298-2330 | without the probe, in any completion order: one line per id in ascending order, counters add up to the range size, and the success and already lists are ascending and hold exactly the ids whose reply classifies that way |
| BatchVote.CheckFirstBatchAllFailed | app/your_code.py:2255-2267 | as written, with the probe on, every task of the range counts as failed and both id lists are empty |
| BatchVote.IntendedProbeRun | app/your_code.py:2255-2267 | with the corrected `process_task`, an id is in the success list exactly when its probe is valid and its vote succeeds |
| FileNames.Substitute | app/your_code.py:26 | every character of `<>:"/\|?*` becomes `_` and every other character is kept, position by position |
| FileNames.Sanitize | app/your_code.py:1130 | the sanitised name is the first `min(len, 20)` characters with each invalid one replaced, and holds no invalid character |
| FileNames.SanitizeIdempotent | app/your_code.py:1130 | sanitising a sanitised name changes nothing |
| FileNames.SafeName | app/your_code.py:1130 | a given name is sanitised to at most 20 characters; an empty name falls back to `用户_<id>`, whose id part parses back to the user id; either way no invalid character is left |
| FileNames.SearchFileName | app/your_code.py:1128-1131 | the text between `<id>_` and `.txt` is the safe name of the user's name (`用户_<id>` when the key is absent); the user id parses back from the text before the first `_`; the whole name holds no invalid character; a present name (even the defaulted `用户_<id>`) adds at most 20 characters |
| FileNames.SearchFileNamesDistinct | app/your_code.py:1128-1131 | two different users never get the same result file, whatever their names |
| FileNames.MissingNameFallbackTruncated | app/your_code.py:1129-1130 | a missing name with a long id yields a `用户_<id>` that is cut to 20 characters by the sanitiser |
| FileNames.AttentionFileName | app/your_code.py:2597-2602 | for a known name the text between `<id>_` and `.txt` is the sanitised name, at most 20 characters; otherwise the file is `<id>_用户关注列表.txt`; the user id parses back from the text before the first `_` and no invalid character appears |
| FileNames.AttentionFileNamesDistinct | app/your_code.py:2597-2602 | two different users never get the same follow-list file |
| KeyOrder.PullSpec | app/your_code.py:614-618 | pulling a field list collects the present fields in the field list's order and removes each from the keys |
| KeyOrder.Pull | app/your_code.py:614-618 | the pulled fields and the keys left over hold exactly the original keys between them, and only listed fields are pulled |
| KeyOrder.Remove | app/your_code.py:617 | `keys.remove(field)` takes exactly one occurrence of the field out of the keys |
| KeyOrder.OrderKeys | app/your_code.py:606-634 | the written key order is `KeepIn(Priority(keys), keys)` followed by `KeepOut(keys, Priority(keys))`: the present fields of the priority list (`KeyOrder.Priority`, the follow-list list when `IsAttentionData`, else the post list) in priority order, then the remaining keys in their original order; and it is a permutation of the keys |
| KeyOrder.PriorityPermutes | app/your_code.py:606-634 | moving the present priority fields to the front keeps the same multiset of keys |
| KeyOrder.NoPriorityKeysUnchanged | app/your_code.py:627-634 | keys containing no priority field keep their order |
| Profile.TimestampGuard | app/your_code.py:2404-2415 | a timestamp is converted exactly when present, non-zero, and within 0..2000000000 |
| Profile.LabelFallback | app/your_code.py:928-954 | a provided text that is non-empty, not "未知" and not `用户_`-prefixed wins; otherwise the code's table entry or empty; never a placeholder |
| Profile.SexText | app/your_code.py:928-935 | gender text: the usable provided text, else the label of the given integer code (codes 1 to 5), else empty; a missing, string or other value gives empty; never a placeholder |
| Profile.SexOText | app/your_code.py:937-946 | orientation text: the usable provided text, else the label of the integer code, or of the value of a non-empty ASCII digit string; any other value, and a missing one (code 0), gives empty |
| Profile.SexPText | app/your_code.py:948-954 | role text: the usable provided text, else the label of the given integer code (codes 1 to 5; 0 is empty), else empty |
| Profile.DigitStringsOnlyForOrientation | app/your_code.py:933-946 | a digit-string code looks up the same label as the number for orientation, and no label for gender |
| Profile.FallbackExamples | app/your_code.py:928-954 | worked cases: "未知" and `用户_` texts fall back to the table; code 5 is "Switch"; string "3" is "男同" |
| UserSearch.GetCached | app/your_code.py:113-123 | a cached user is returned without a fetch; otherwise one fetch is made and only a non-empty result is cached |
| UserSearch.GetCachedKeepsInv | app/your_code.py:113-123 | with a sound cache, the lookup returns what a fetch would, and the cache stays sound |
| UserSearch.AuthorId | app/your_code.py:139-140 | a truthy `user.id` wins, otherwise `user_id`; the result is truthy exactly when one of the two is |
| UserSearch.ScanPost | app/your_code.py:137-159 | scanning one post adds at most one found user, only when its id was unseen and its name contains the keyword; that a matching author is then seen is UserSearch.ScanPostFinds |
| UserSearch.SearchPage | app/your_code.py:125-176 | a page scan keeps the keyword, only appends reports and only adds seen ids; a post that raises ends the page |
| UserSearch.BrokenPostEndsPage | app/your_code.py:137-143 | a post that raises abandons the page: the page's result equals scanning only the posts before it |
| UserSearch.SearchAll | app/your_code.py:188-200 | the whole search keeps the keyword, only appends reports and only adds seen ids |
| UserSearch.NewSearcherInv | app/your_code.py:105-111 | a fresh searcher satisfies the invariant |
| UserSearch.NewSearcher | app/your_code.py:105-111 | a new searcher has the keyword and nothing found, seen, cached or fetched |
| UserSearch.ReportKeepsOnce | app/your_code.py:153-159 | reporting an unseen matching user keeps "seen ids are exactly the reported ids, each reported once, each name contains the keyword" |
| UserSearch.ScanPostKeepsInv | app/your_code.py:137-159 | scanning a post keeps the invariant |
| UserSearch.ScanPostFinds | app/your_code.py:137-159 | with a sound searcher, the author of a post whose looked-up name contains the keyword is seen after the scan: reported now or earlier |
| UserSearch.SearchPageFinds | app/your_code.py:125-159 | every matching author of a post before the first post that raises is seen once the page is scanned |
| UserSearch.SearchPageKeepsInv | app/your_code.py:125-176 | a page keeps the invariant |
| UserSearch.SearchAllKeepsInv | app/your_code.py:188-200 | the whole search keeps the invariant: no user is reported twice and the cache agrees with the fetch |
| UserSearch.SearchAllFinds | app/your_code.py:137-200 | whatever order the pages run in, every matching author of a readable post is reported; with SearchAllKeepsInv, no user is reported twice and every report carries a name holding the keyword |
| UserSearch.DuplicateAuthorReportedOnce | app/your_code.py:153-159 | two posts by the same matching author produce one report and one fetch |
| LogPanel.Log | main.py:878-886 | a log call appends the joined arguments and a newline to the buffer, leaves the text, and schedules one flush only if none is pending |
| LogPanel.Join | main.py:880 | `' '.join(args)` is as long as the arguments together (`LogPanel.TotalLength`) plus one space between each two, and starts with the first argument |
| LogPanel.JoinSnoc | main.py:880 | joining one more argument appends a space and that argument |
| LogPanel.FlushLog | main.py:888-904 | a flush empties the buffer; an empty buffer leaves the text; otherwise the new text is a suffix of old text plus the buffered lines joined by `LogPanel.Concat`, the whole of it when that is at most 15000 characters and exactly its last 10000 characters when longer |
| LogPanel.Fire | main.py:886 | a scheduled flush firing decrements the pending count, empties the buffer and shows the flushed text, a bounded suffix of old text plus buffer; with nothing pending nothing changes |
| LogPanel.StepKeepsInv | main.py:878-904 | lines are buffered only while a flush is scheduled |
| LogPanel.RunKeepsSuffix | main.py:878-904 | after any interleaving of log calls and flushes, the displayed text plus the buffer is a suffix of everything logged |
| Dialogs.DialogInt | main.py:793-795 | a missing or empty field gives the default; a field of spaces is not empty and raises instead; any other field is read by `int()` |
| Dialogs.DialogIntReadsBack | main.py:793-795 | a field holding the printed form of a number gives that number |
| Dialogs.SpacesAreNotBlank | main.py:795 | a thread count of two spaces ends the callback rather than taking the default 50 |
| Dialogs.DoBatchCrawl | main.py:692-695 | the crawl runs exactly when each field is blank or an integer; a blank start is 1 and blank pages 3; any other field gives its own value |
| Dialogs.CrawlReadsBack | main.py:692-695 | fields filled with two printed numbers crawl exactly those numbers |
| Dialogs.DoBatchVote | main.py:793-799 | the vote runs exactly when each of start, end and threads is blank or an integer; the range is ordered and holds the two numbers; threads default to 50 |
| Dialogs.ParseDigits | main.py:794 | a non-empty ASCII digit string parses to its value |
| Dialogs.ZeroIsAnAnswer | main.py:795 | a thread count of "0" is passed on as 0: only an empty or missing field takes the default 50 |
| Dialogs.SwapAboveDefaultEnd | main.py:793-797 | with the end and threads fields empty, a start above 100 becomes the end, 100 the start, and threads are 50 |
| Dialogs.PhoneDisplay | main.py:376 | numbers of at least 7 characters show the first 3, `****`, and the last 4; shorter ones show "Token" |
| Dialogs.PhoneDisplayHidesMiddle | main.py:376 | two numbers that agree on the first 3 and last 4 characters display the same |

## Left out

- The HTTP requests, the thread pool, locks and `time.sleep` are not modelled; replies are parameters and concurrency is a completion order.
- `ResultSaver` and every file write, the printed lines, speed and elapsed-time figures, and the `data=` display truncation are not modelled: they do not affect the counters or the order.
- Exception message texts (`请求异常: …`) are not modelled; a raised request carries no text. `process_task` does not read `vote_do`'s status text.
- JSON `null` or non-integer `code`/`msg`/`data` values are not modelled: `code` is an optional integer, `msg` an optional string. Python's `True == 1` is not modelled.
- Vote.VoteCheck: the status text of a raised request or undecodable body (`请求异常: …`) is not stated in the contract, because exception texts are not modelled.
- Text.ParseInt: its own contract only states that a blank answer never parses; the value it yields is stated by Text.DecimalRoundTrip and Dialogs.ParseDigits. Underscores between digits and non-ASCII digits or whitespace, which Python's `int()` accepts, are not modelled.
- The user cache is modelled sequentially; the unlocked check-then-fill race (two threads fetching the same user) is not modelled.
- A page whose listing fails is modelled as a page with no posts. An exception while reading a post's author fields is a `Broken` post, which ends the page with the earlier posts' effects kept; an exception raised after a user was reported (while printing or saving it) is not modelled.
- Pages run concurrently in the code, so the found list can interleave users from different pages and a page's posts need not be contiguous; the model runs each page's posts together, pages in any order. Only the seen-check is locked in the code.
- The `found_page` field written into the cached profile dictionary is kept on the report (`Found.page`), not on the cache entry.
- UserSearch.SearchPage, UserSearch.SearchAll: their own contracts state that the keyword is kept and reports are only appended; the reporting and cache invariant they keep is stated by the `…KeepsInv` lemmas.
- The final "确定开始？" confirmation and the "y/n" probe question are Booleans; the `.strip().lower() == 'y'` test on their text is not modelled.
- `batch_vote_gui`, which `_do_batch_vote` calls, is not modelled; the dialog model ends at the arguments it passes.
- Profile.SexOText: `str.isdigit()` also accepts non-ASCII digits; Python converts a fullwidth "３" to 3 and raises on a superscript "²". The model treats every non-ASCII-digit string as a string that finds no label.
- JSON numbers that are not integers and Booleans in the `sex`, `sex_o` and `sex_p` fields are `OtherValue` and give "", whereas Python finds the label for `2.0` or `True` because they hash like 2 and 1.
- Text.Strip: only the six ASCII whitespace characters are stripped; Python's `str.strip()` also removes the separators U+001C to U+001F, U+0085 and Unicode spaces such as U+00A0 and U+3000.
- The JSON pretty-printing and comment annotation of `format_json_with_comments` are not modelled; only its key order is.
- `datetime.fromtimestamp` and `strftime` are not modelled; the guard returns the timestamp it accepts.
- The Kivy widgets and `Clock` are not modelled; `Clock.schedule_once` is an event the caller fires.

## Findings

| source | as written | input that shows it | evidently intended | confidence | as-written member | corrected member |
|---|---|---|---|---|---|---|
| app/your_code.py:2257 | `valid, _, check_code, check_msg, check_data = self.vote_check(task_id)` unpacks five names from the four-element tuple `vote_check` returns, so it raises `ValueError`, caught as "处理异常" | probe switched on ("y"), any task id, any server replies | an invalid probe fails the task with the probe's code, message and data; a valid probe goes on to `vote_do` | high, not executed | Vote.ProcessTask (shown by Vote.CheckFirstAlwaysFails and BatchVote.CheckFirstBatchAllFailed) | Vote.ProcessTaskIntended (proved by BatchVote.IntendedProbeRun) |

`BatchVote.BatchVote` runs the code as written; `BatchVote.IntendedProbeRun`
states the run with the corrected `process_task`.
