# clawnbot core, modelled in Dafny

clawnbot is a personal Telegram bot. This project models the parts of it
that are logic and not plumbing. There are four of them.

- **The `/hatirlat` parser** (module `Reminder`). It takes the command's
  words, the date extractor's answer and the clock. It returns either a
  refusal or the instant the reminder fires at together with its text.
  - The words are joined with single spaces.
  - Only the first match of the extractor counts.
  - A time strictly before now is moved one day later. If it is still
    before a second reading of the clock, the request is refused.
  - The text is the joined words with every copy of the matched time
    expression removed, then stripped.
  - When that leaves nothing, "Hatırlatma" is used. After that, one leading
    `-` or `:` is dropped and the rest stripped again.
- **The reminder job table** (module `Jobs`, class `Jobs.Scheduler`). It is
  the scheduler's store of jobs.
  - `/hatirlat` adds a job named after the chat it belongs to
    (`str(chat_id)`).
  - `/liste` shows the jobs carrying the caller's name, earliest run time
    first, as the job store returns them.
  - `/iptal` refuses a missing id, an unknown id or another chat's job, and
    otherwise removes that one job.
  - The store keeps three invariants: ids are distinct, every job's name
    is the tag of its chat, and jobs are ordered by run time. A new job is
    placed after every job firing at the same time or earlier.
- **The reply to a shell command** (module `Term`). Standard output is cut
  to 3000 characters and standard error to 1000. Each goes in a fenced
  block, and a fixed message is used when both are empty.
- **The notes-service probe listing** (module `Notion`). There is one line
  `   - [TYPE] title` per search result.
  - A page takes its title from the first property whose id is `"title"`.
  - A database takes it from its own title list.
  - Anything else is "Untitled".
  - An empty result list gives a warning instead.

Module `Text` holds the Python string built-ins these rely on. They are
stated over Dafny strings, one `char` per code point as in Python 3:
- `str.strip()`, with Python's whitespace set;
- `str.replace(pat, "")`;
- `s[:n]`, `" ".join` and `str(int)`.

Module `Wrappers` holds `Option`.

Behaviour worth knowing:
- `str.replace` removes every occurrence of the time expression, not only
  the first, in one left-to-right pass (`Text.RemoveAllSplit`,
  `Reminder.AllCopiesRemoved`). Pieces brought together by the removal are
  not removed again (`Text.RemovalCanLeaveOccurrence`).
- A past time is rolled forward by one day, once, and refused only when it
  is still in the past after that (`Reminder.RolloverOnce`).
- The reminder text can be empty. This happens when the remainder is a lone
  separator, because the default is chosen before the separator is dropped
  (`Reminder.EmptyMessageIff`, `Reminder.LoneSeparatorGivesEmpty`).
- A time equal to the current instant is accepted (`Reminder.NotBeforeNowKept`).

## Model

| member | source | states |
|---|---|---|
| Text.Strip | clawnbot.py:191 | `strip()` gives a piece of the input. It is empty exactly when the input is all whitespace, and otherwise starts and ends with a non-whitespace character |
| Text.StripRemovesOnlyEnds | clawnbot.py:191 | `strip()` removes only whitespace: everything it drops before and after the piece it keeps is whitespace |
| Text.StripIdempotent | clawnbot.py:196 | stripping an already stripped text changes nothing |
| Text.StripTrimmed | clawnbot.py:191 | a text without whitespace at either end is its own strip |
| Text.RemoveAll | clawnbot.py:191 | `replace(found_text, "")` never lengthens the text. It leaves the text unchanged when the pattern is empty or does not occur |
| Text.RemoveAllLeading | clawnbot.py:191 | an occurrence at the very start is removed |
| Text.RemoveAllTrailing | clawnbot.py:191 | when the first occurrence is the one at the end, removing all occurrences leaves what precedes it |
| Text.RemoveAllSplit | clawnbot.py:191 | the scan goes left to right: when the first occurrence in `mid + pat + rest` is the one after `mid`, the result is `mid` followed by the removal applied to `rest` |
| Text.RemovalCanLeaveOccurrence | clawnbot.py:191 | the removal is a single pass: removing `ab` from `aabb` leaves `ab` |
| Text.RemoveAllRepeat | clawnbot.py:191 | every occurrence is removed: `n` copies of the pattern become the empty text |
| Text.Take | clawnbot.py:393 | `s[:n]` has length `min(len(s), n)` and is a prefix of `s` |
| Text.Join | clawnbot.py:98 | the joined text begins with the first word, and is that word alone when there is one word |
| Text.JoinAppend | clawnbot.py:98 | joining one more word appends the separator and that word to the joined text |
| Text.JoinLength | clawnbot.py:98 | the length of `" ".join(words)` is the total length of the words plus one separator between each pair of neighbouring words |
| Text.NatToString | clawnbot.py:212 | `str(n)` is non-empty and starts with a digit |
| Text.IntToString | clawnbot.py:212 | `str(i)` is non-empty and starts with `-` exactly when `i` is negative |
| Text.NatToStringInjective | clawnbot.py:212 | different naturals have different decimal renderings |
| Text.IntToStringInjective | clawnbot.py:212 | different integers have different renderings |
| Text.SliceOfSlice | clawnbot.py:196 | a piece of a piece of a text is a piece of that text |
| Reminder.WithDefault | clawnbot.py:192-193 | the result is never empty, and a non-empty remainder is kept as it is |
| Reminder.DropSeparator | clawnbot.py:195-196 | a text that does not start with `-` or `:` is kept. One that does gets shorter, and becomes empty exactly when only whitespace follows the separator |
| Reminder.Finish | clawnbot.py:192-196 | the cleaned-up text is empty exactly when the remainder is a separator followed only by whitespace |
| Reminder.ExtractMessage | clawnbot.py:191-196 | when the time expression is empty or does not occur in the text, the message is the whole text cleaned up |
| Reminder.ParseReminder | clawnbot.py:76-199 | no words gives usage. An extractor fault gives the date error. No match gives "no time expression". For the first match, "past" holds exactly when it is before now and still before the second reading one day later, and that later time is shown. Otherwise the result is ready at the match (not before now) or one day later (not before the second reading), with the text extracted from the joined words |
| Reminder.FirstMatchOnly | clawnbot.py:178 | matches after the first never change the outcome |
| Reminder.NotBeforeNowKept | clawnbot.py:180 | a time not before now, an equal one included, is accepted unchanged |
| Reminder.RolloverOnce | clawnbot.py:180-185 | a past time is moved exactly one day, once. It is refused exactly when that is still before the second reading, and is otherwise scheduled one day later |
| Reminder.ScheduledNotInPast | clawnbot.py:180-185 | with clocks that do not go backwards, a scheduled instant is never before the first reading |
| Reminder.MessageTrimmed | clawnbot.py:191-196 | the reminder text never begins or ends with whitespace |
| Reminder.EmptyMessageIff | clawnbot.py:191-196 | the text is empty exactly when the stripped remainder is one separator followed only by whitespace |
| Reminder.MessageFromText | clawnbot.py:191-196 | the text is the default or a piece of the words with the time expression removed |
| Reminder.EmptyRemainderGetsDefault | clawnbot.py:192-193 | an empty remainder gives "Hatırlatma" |
| Reminder.LoneSeparatorGivesEmpty | clawnbot.py:192-196 | a remainder of exactly `-` or `:` gives the empty text |
| Reminder.OneSeparatorDropped | clawnbot.py:195-196 | only one separator is dropped: `--x` gives `-x` |
| Reminder.SeparatorAndSpaceDropped | clawnbot.py:195-196 | for any text after a leading separator, the separator is dropped and that text stripped again |
| Reminder.AllCopiesRemoved | clawnbot.py:191 | a text that begins and ends with the time expression loses both copies |
| Reminder.TimeThenMessage | clawnbot.py:98-199 | for "time expression, space, message", the request is ready at the matched time with exactly that message |
| Reminder.OnlyTimeGetsDefault | clawnbot.py:191-199 | a request made only of the time expression gets the default text |
| Jobs.Tag | clawnbot.py:212 | the tag is non-empty and starts with `-` exactly for a negative chat id |
| Jobs.TagIdentifiesChat | clawnbot.py:212 | two chats have the same tag exactly when they are the same chat |
| Jobs.Find | clawnbot.py:250-251 | `get_job` finds nothing exactly when no job has the id. Otherwise it returns a stored job with that id |
| Jobs.FindUnique | clawnbot.py:250 | with distinct ids, the job found is the only one with that id |
| Jobs.OwnedBy | clawnbot.py:228 | the filter keeps exactly the jobs with the given name and is never longer than the store |
| Jobs.OwnedByAppend | clawnbot.py:228 | the filter keeps store order: filtering two runs of jobs is filtering each in turn |
| Jobs.ListingIsOwnJobs | clawnbot.py:225-228 | in a tagged store, a chat's listing holds exactly the jobs delivering to that chat |
| Jobs.WithoutId | clawnbot.py:259 | removal keeps exactly the jobs with another id. The ids left are the old ones minus the removed id |
| Jobs.WithoutAbsentId | clawnbot.py:259 | removing an id no job has changes nothing |
| Jobs.WithoutIdSplice | clawnbot.py:259 | removing the id of a job that is unique in the store leaves the jobs before it followed by the jobs after it |
| Jobs.DistinctSplit | clawnbot.py:259 | in a store with distinct ids, the jobs around any one job do not carry its id |
| Jobs.RemoveOnlyThatJob | clawnbot.py:259 | with distinct ids, removing the id of job `k` removes that job and only that job, keeping the order of the rest |
| Jobs.WithoutIdDistinct | clawnbot.py:259 | removal keeps ids distinct |
| Jobs.Insert | clawnbot.py:208-213 | adding a job gives a store one longer, holding exactly the old jobs and the new one |
| Jobs.InsertPermutes | clawnbot.py:208-213 | adding a job is a permutation of the old store plus that job |
| Jobs.InsertPosition | clawnbot.py:208-213 | the new job lands after every job that fires no later than it, and before the first job that fires later |
| Jobs.InsertByRunTime | clawnbot.py:208-213 | adding a job keeps the store ordered by run time |
| Jobs.InsertDistinct | clawnbot.py:208-213 | adding a job with a fresh id keeps ids distinct, and the store's ids gain exactly that id |
| Jobs.OwnedByRunTime | clawnbot.py:226-228 | the listing of a store ordered by run time is ordered by run time |
| Jobs.WithoutIdRunTime | clawnbot.py:259 | removing a job keeps the store ordered by run time |
| Jobs.ListLine | clawnbot.py:237 | each listing line starts with a bullet and ends with a newline |
| Jobs.ListLineShowsJob | clawnbot.py:237 | each listing line shows the job's id in backticks, then `: ` and its run time, then ` - ` and its message |
| Jobs.ListLines | clawnbot.py:235-237 | the lines are empty exactly when there are no jobs |
| Jobs.ListLinesAppend | clawnbot.py:235-237 | the listing of two runs of jobs is the listing of the first followed by the listing of the second |
| Jobs.ListReply | clawnbot.py:230-237 | no jobs gives the "no reminders" reply. Otherwise the reply is the header followed by one line per job, in order |
| Jobs.Scheduler.constructor | clawnbot.py:44-47 | the store opens on the jobs the database already holds (none on the first run), which must have distinct ids, be tagged and be ordered by run time |
| Jobs.Scheduler.AddJob | clawnbot.py:207-213 | the job gets `name = str(chat_id)`, the chat id, the message and the instant, and is inserted by run time. The store keeps distinct ids, tags and run-time order |
| Jobs.Scheduler.RemoveJob | clawnbot.py:259 | the store becomes the old one without that id and stays valid |
| Jobs.Scheduler.ScheduleMessage | clawnbot.py:76-213 | the outcome is the parse. Exactly when it is ready, one tagged job is inserted by run time; otherwise the store is unchanged |
| Jobs.Scheduler.ListJobs | clawnbot.py:225-228 | exactly the stored jobs whose chat is the caller's, earliest run time first |
| Jobs.Scheduler.CancelJob | clawnbot.py:243-259 | no id gives usage and an unknown id gives "not found". Another chat's job gives "not owned", and the caller's own job is cancelled. Only a cancel changes the store: it removes exactly that id, and the store stays valid |
| Jobs.CancelTwice | clawnbot.py:250-259 | after a cancel the same request finds nothing. After a refusal, the same request is refused the same way and the store is unchanged |
| Term.ComposeReply | clawnbot.py:391-398 | each of the four empty/non-empty cases of output and errors gives its reply. The reply is never empty and is at most 4096 code points long |
| Term.StdoutSection | clawnbot.py:393 | the output section is at most 3000 characters plus its fixed head and end, and shows something when there was output |
| Term.StderrSection | clawnbot.py:395 | the error section is at most 1000 characters plus its fixed head and end, and shows something when there were errors |
| Term.StdoutSectionShowsPrefix | clawnbot.py:393 | the output section shows exactly the first 3000 characters of the output |
| Term.StderrSectionShowsPrefix | clawnbot.py:395 | the error section shows exactly the first 1000 characters of the errors |
| Term.OnlyPrefixMatters | clawnbot.py:393 | outputs that agree on their first 3000 characters give the same section |
| Notion.FirstTitleIndex | debug_notion.py:45-50 | the position found is the first property whose id is "title". None means no such property |
| Notion.AsciiUpper | debug_notion.py:56 | `upper()` keeps the length and upper-cases each ASCII letter |
| Notion.TitleText | debug_notion.py:48-49 | the title text is "Untitled" or the `plain_text` of the list's first element |
| Notion.Title | debug_notion.py:40-55 | any type other than page or database is "Untitled". Otherwise the title is "Untitled" or the first `plain_text` of a database's title list or of a page's title property |
| Notion.LineText | debug_notion.py:56 | the line is `   - [`, the upper-cased type, `] `, then the title |
| Notion.Line | debug_notion.py:56 | a result's line is `   - [`, its upper-cased type, `] `, then its title |
| Notion.DeriveTitle | debug_notion.py:40-54 | the loop with its early `break` computes the title: for a page the first title property decides, for a database its title list does, and otherwise "Untitled" |
| Notion.RenderResults | debug_notion.py:36-56 | no results gives the warning alone. Otherwise there is one line `   - [TYPE] title` per result, in result order |
| Notion.OtherTypesUntitled | debug_notion.py:41-55 | any type other than page or database is "Untitled" |
| Notion.FirstTitlePropertyDecides | debug_notion.py:45-50 | whatever follows a page's first title property is never read |
| Notion.EmptyFirstTitleStaysUntitled | debug_notion.py:47-50 | an empty title list on the first title property leaves "Untitled", even if a later property has id "title" |
| Notion.NonEmptyTitleList | debug_notion.py:48-49 | a non-empty title list gives `plain_text` of its first element, or "Untitled" when that key is missing |
| Notion.KnownTypesUpperCased | debug_notion.py:56 | "page" and "database" are shown as PAGE and DATABASE |

## Left out

- Telegram transport is I/O and is not modelled: sending replies, registering handlers, polling, and delivering a fired reminder. Each reply is an outcome value instead.
- The date extractor (`search_dates`) is an input. The model takes the exception it may raise as `Fault`, and its matches as a list of (text, instant) pairs. An extractor answer of `None` is the same as an empty list.
- The word-window loops at clawnbot.py:107-158 are not modelled. Their results (`best_date`, `final_dt`) are overwritten at line 199. They run before the `try` at line 165, so an exception they raise is not caught by the handler at lines 201-204 and the command ends with no reply and no job. Such exceptions come from `dateparser.parse` (lines 114 and 150), or from comparing a time carrying a time zone with `datetime.now()` (lines 117 and 151). No `Reminder.Outcome` stands for that path. Line 114 passes a setting named `'To'`; a dateparser release that rejects unknown setting names would raise there for every non-empty request.
- Dates are integer microseconds on one naive local clock. Time zones, calendar arithmetic and `datetime` overflow near its maximum are not modelled.
- The two readings of `datetime.now()` (lines 180 and 183) are the parameters `now` and `recheck`. The model assumes nothing about how they relate, except in `Reminder.ScheduledNotInPast`.
- `strftime` and `str(datetime)` renderings are not modelled. The success reply (lines 215-221) and the past-time reply (line 184) are the `Ready` and `PastTime` outcomes. The listing's time text is a function parameter of `Jobs.ListReply`.
- The scheduler's persistence and firing are not modelled: APScheduler, its SQLAlchemy job store and `DateTrigger`. A fired job leaving the store is not modelled either. A job's id comes from the scheduler, so it is a parameter that must be fresh.
- Jobs.Scheduler.AddJob: the store returns jobs ordered by next run time. Among jobs with the same run time the model places the newer one last, while the SQLAlchemy store leaves that order to the database.
- Jobs.Scheduler.ScheduleMessage: inherits the tie order of `Jobs.Scheduler.AddJob` for jobs with equal run times.
- Jobs.Scheduler.AddJob: requires a fresh id rather than modelling the scheduler's id generator.
- The language-model call and the shell execution in `/term` are a foreign service and an external process; only the reply text built from their output is modelled. The timeout and exception replies are not modelled either. The copy of the reply composition at clawnbot.py:304-311 is the same text as lines 391-398, so `Term.ComposeReply` covers both.
- Term.ComposeReply: the 4096 bound counts code points of the composed text. If Telegram counts UTF-16 code units, output with characters outside the Basic Multilingual Plane can exceed its limit. Telegram's Markdown parsing of the reply is not modelled.
- The probe's HTTP request, environment loading and status-code branches (debug_notion.py:7-34, 58-63) are I/O and are not modelled. The two count and success lines it prints before the listing are not modelled either.
- Notion.AsciiUpper: models `str.upper()` on ASCII letters only. Other letters, and upper-casings that change the length, are left as they are.
- A result without an `object` key makes the probe call `upper()` on `None`. The `AttributeError` is caught by the handler at debug_notion.py:62-63, which prints an error line and skips the remaining results. That path is not modelled, and neither are JSON `null` values. Every result is modelled with an object type string, and a missing list is modelled as an empty one.
- debug_mail.py and temp_notion_write.py are one-off scripts around external processes and have no logic worth modelling. They are not part of this model.
