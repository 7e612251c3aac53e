# asvz-enroller, modelled in Dafny

asvz-enroller signs a user up for an ASVZ sports lesson as soon as
enrollment opens. A Flask web app stores each user's ASVZ credentials.
A Telegram bot takes lesson addresses from a linked chat and schedules a
job. The job runs an enrollment engine that drives a browser: it logs in,
waits until enrollment opens, polls while the lesson is booked out and
clicks the register button. An admin script creates, resets, deletes and
lists the web app's accounts.

This project models the decision logic under that plumbing and proves
properties of it:

- `Wrappers` — `Option` and `Result`.
- `Text` — the Python string built-ins the core uses: `str.split` with
  one separator, `str.strip`, `in`, `re.search` for a literal prefix
  followed by `\d*`, and `int()`, including its underscores and the
  white space it skips around the number (that of `str.isspace()` except
  the ASCII information separators U+001C to U+001F, which make it fail).
- `Calendar` — naive datetimes:
  - the clock is whole seconds since 0001-01-01 00:00;
  - `strptime` with `%d.%m.%Y %H:%M`, and `strftime` with `%d.%m.%y %H:%M`;
  - subtracting one day, including the `OverflowError` on the first day;
  - `timedelta.seconds`, the within-day part of a gap.
- `Accounts` — the `user` table as a sequence of rows in table order.
  A `.scalar()` or `.first()` query returns the first matching row.
- `Enroller` — `setup`, `wait_until`, `enroll` and
  `__wait_for_free_places` from `src/enroller.py`, over an `Oracle`:
  - the oracle is a class holding the clock and queues of what the
    browser reports;
  - each loop is a method proved equal to a function on the oracle's
    state;
  - the lemmas are about those functions.
- `Bot` — `initialise_job`, `get_jobs`, `jobs`, `delete`, `confirm`,
  `answer`, `set_user_data`, `reset_token`, `user_authorized` and the
  `enroll` job wrapper from `src/bot.py`. The APScheduler job store is a
  `Scheduler` class holding a sequence of jobs.
- `App` — the `credentials` and `welcome` routes of `src/app.py`.
- `Admin` — the `admin.py` script.

The model keeps the source's quirks, each stated in a proved contract:

- the result of the login is ignored;
- `delete` indexes the scheduler's whole job list, with Python's
  negative indexing;
- `admin.py` writes `verified = False` (0), while `credentials` writes -1;
- `timedelta.seconds` drops whole days of the gap, so a sleep before
  enrollment opens is always under one day.

## Model

| member | source | states |
|---|---|---|
| Text.Split | src/enroller.py:298-301 | `str.split(sep)` gives at least one part |
| Text.SplitAtFirst | src/enroller.py:300-301 | the first part is the text before the first separator and the rest is the split of what follows it; without a separator the text is the only part |
| Text.JoinSplit | src/enroller.py:298-301 | joining the parts with the separator gives back the text |
| Text.SplitJoin | src/bot.py:151-153 | splitting a join of separator-free parts gives back the parts |
| Text.SplitPartsFree | src/enroller.py:298-301 | no part contains the separator |
| Text.StripStart | src/enroller.py:302 | `strip` drops exactly the leading white space: everything before the cut is white space and the next character is not |
| Text.StripEnd | src/enroller.py:302 | `strip` drops exactly the trailing white space, and never more than the leading cut left |
| Text.IndexOf | src/enroller.py:300 | the first position of the character, and the length exactly when it does not occur |
| Text.FindFirst | src/bot.py:218-220 | the leftmost occurrence of a pattern; `None` exactly when the text does not contain it |
| Text.DigitRun | src/bot.py:220 | `\d*` takes the longest run of digits: all digits, followed by a non-digit or the end |
| Text.ParseIntText | src/bot.py:160 | `int(str(n)) == n` for every integer |
| Text.ParseIntUnsigned | src/bot.py:160 | `int()` of a run of digit groups is its decimal value |
| Text.ParseIntNegative | src/bot.py:160 | `int()` of `-` and digit groups is the negated value |
| Text.SeparatorNotSkipped | src/bot.py:160 | `int()` fails on an information separator before or after the number, although `str.strip()` would drop it |
| Calendar.PreviousDay | src/enroller.py:309-310 | `t - timedelta(days=1)` is exactly 86400 s earlier with the same time of day; it fails exactly on 0001-01-01 |
| Calendar.YearStep | src/enroller.py:309-310 | day counts of consecutive years differ by the length of the year |
| Calendar.ParseLessonTime | src/enroller.py:304-307 | `strptime(%d.%m.%Y %H:%M)` gives only valid datetimes |
| Calendar.ParseLessonTimeText | src/enroller.py:304-307 | parsing the `dd.mm.YYYY HH:MM` text of a valid datetime gives it back |
| Calendar.ShortText | src/bot.py:80-81 | `strftime('%d.%m.%y %H:%M')` is 14 characters: day, month, two-digit year, hour and minute as two-digit decimals whose values are those of the time, separated by `.`, `.`, a space and `:` |
| Calendar.TimedeltaSeconds | src/enroller.py:113-116 | `timedelta.seconds` lies in 0..86399 and differs from the gap by whole days |
| Accounts.First | src/bot.py:48-61 | the query result is the first matching row, with no match before it; `None` exactly when no row matches |
| Accounts.Usernames | admin.py:37-40 | the usernames of all rows, in table order |
| Accounts.Without | admin.py:49-51 | the rows without the deleted one, the others in order |
| Accounts.WithoutName | admin.py:48-51 | with unique usernames, deleting the row a name finds leaves no row with that name |
| Accounts.ChatOwnerIsVerified | src/bot.py:52-54 | in a consistent table, the row found by a real chat id is linked and verified |
| Accounts.UserTable.Update | src/bot.py:63-78 | committing a changed row that keeps its username and is consistent replaces exactly that row and keeps the table's invariant (unique names, consistent rows) |
| Accounts.UserTable.Delete | admin.py:49-51 | `session.delete` and commit remove exactly that row and keep the table's invariant |
| Accounts.UserTable.Add | admin.py:77-78 | `session.add` and commit append the row; its username must be absent, as the primary key demands, and the table's invariant is kept |
| Enroller.NewCredentials | src/enroller.py:75-84 | only the five keys ETH, UZH, ZHAW, PHZH and ASVZ are accepted, each mapped to its display name |
| Enroller.LoginSucceededOnLessonSite | src/enroller.py:196-205 | an address on the lesson site counts as logged in and the identity provider's does not |
| Enroller.CheckLogin | src/enroller.py:394-403 | the login reports true exactly when the address after the redirect starts with the lesson site; browser exceptions propagate |
| Enroller.VerifyLogin | src/enroller.py:458-461 | an unknown organisation fails before the browser is used; otherwise the result is that of `check_login` |
| Enroller.LessonStartTextAt | src/enroller.py:298-302 | the raw start is the stripped text between the first and second comma of the part before the first `-`; with no comma there, `IndexError` |
| Enroller.LessonStartExample | src/enroller.py:297-307 | `'Mo, 10.05.2021 06:55 - 08:05'` gives `10.05.2021 06:55`, which parses to 10 May 2021 06:55 |
| Enroller.SetupRun | src/enroller.py:279-328 | no error exactly when all four attributes are set; the enrollment start is exactly one day before the start; the start is the parse of the raw start text; title and location are set together from the page; which exception is raised, in the order `setup` meets them: "Lesson not found" for a missing lesson, `NoSuchElement` without the date element, `NoComma` exactly when no comma precedes the first `-`, the `AsvzBotException` with the raw text when that text does not parse, `OverflowError` exactly when it parses to 0001-01-01, and `NoSuchElement` when the title or location is missing after a successful parse |
| Enroller.AsvzEnroller.Setup | src/enroller.py:279-328 | the raised error is that of `SetupRun`; the attributes assigned before the error are overwritten and those after it are left as they were |
| Enroller.Oracle.Sleep | src/enroller.py:427 | `time.sleep` moves the clock on by exactly the sleep and logs it |
| Enroller.Oracle.FindBookedOutAlert | src/enroller.py:407-414 | consumes one alert report, advances the clock by its time and logs the check |
| Enroller.Oracle.Login | src/enroller.py:333-403 | consumes one login report; a redirect costs its time plus the 3 s sleep; the result is `CheckLogin` of the report |
| Enroller.Oracle.AwaitRegister | src/enroller.py:250-265 | consumes one register report: a click costs its wait plus the 5 s sleep, a timeout the full 300 s |
| Enroller.SleepSeconds | src/enroller.py:112-123 | the sleep is under 86400 − 59 s and positive exactly when the within-day gap exceeds 59 s |
| Enroller.SleepWakesBeforeOpening | src/enroller.py:112-123 | for a gap between 59 s and one day the engine wakes exactly 59 s before enrollment opens |
| Enroller.NoSleepForShortGap | src/enroller.py:112-113 | a gap of 59 s or less is not slept |
| Enroller.SleepDropsWholeDays | src/enroller.py:112-123 | for a gap of a day or more the engine wakes a positive whole number of days too early |
| Enroller.PollRun | src/enroller.py:405-428 | the clock never goes back; "lesson has started" only after the lesson start; logins and register reports untouched; the log only grows; every check is made no earlier than the call |
| Enroller.PollTerminates | src/enroller.py:405-428 | with more alert reports than the 30 s rounds left before the lesson start, polling ends with free places or "lesson has started" |
| Enroller.AsvzEnroller.WaitForFreePlaces | src/enroller.py:405-428 | the `while True` loop computes exactly `PollRun` |
| Enroller.AsvzEnroller.WaitUntil | src/enroller.py:103-123 | sleeps exactly `SleepSeconds` and nothing else |
| Enroller.EnrollLoop | src/enroller.py:239-270 | polling runs only in rounds that start after enrollment opened; "lesson has started" only after the lesson start; the clock never goes back; the log only grows |
| Enroller.EnrollRun | src/enroller.py:213-274 | `enroll` keeps the clock monotone; "lesson has started" only after the lesson start; every alert check happens after enrollment opened |
| Enroller.EnrolledAfterTimeouts | src/enroller.py:250-270 | an enrollment consumes register reports that all timed out, then exactly one click |
| Enroller.LoginResultsIgnored | src/enroller.py:213-248 | oracles that differ only in the addresses the logins reach give the same outcome, clock and log |
| Enroller.AsvzEnroller.Enroll | src/enroller.py:213-274 | the method computes exactly `EnrollRun`, waiting only when the clock is before the enrollment start |
| Enroller.GetEnroller | src/enroller.py:463-468 | an unknown organisation fails first, then a setup error, and otherwise it succeeds; on success the enroller is new, complete and holds the page's attributes and the credentials |
| Bot.Authorized | src/bot.py:107-114 | authorized exactly when the chat is private and some user has its chat id; the user is the first such row |
| Bot.RemoveExactlyOne | src/bot.py:179-184 | with distinct ids, removing a job's id takes out exactly that job and keeps the others in order |
| Bot.Scheduler.AddJob | src/bot.py:102-104 | the job gets a fresh id and is inserted without disturbing the others |
| Bot.Scheduler.RemoveJob | src/bot.py:182 | `remove_job` finds the job exactly when its id is present; the job list becomes `WithoutJob` |
| Bot.TriggerFor | src/bot.py:100-104 | run now exactly when the enrollment start is before now, otherwise a date trigger at exactly the enrollment start |
| Bot.InitialiseJob | src/bot.py:97-104 | decryption fails first, then an unknown organisation, then setup, and it fails only in these cases; a failure adds no job; success inserts one job with the URL, the credentials, the lesson, the chat and `TriggerFor` |
| Bot.JobsOf | src/bot.py:125-127 | exactly the jobs of the chat |
| Bot.JobsOfAppend | src/bot.py:125-127 | the filter keeps scheduler order |
| Bot.JobsOfAll | src/bot.py:125-127 | a chat that owns every job sees them all |
| Bot.JobsText | src/bot.py:147-154 | "No jobs found." exactly when the chat has no jobs |
| Bot.JobsTextLines | src/bot.py:150-153 | the listing is a heading, then one line `i. summary` per job numbered from 1 in order, then an empty line |
| Bot.JobsCommand | src/bot.py:140-155 | nothing for a chat that is not authorized; otherwise "No jobs found." exactly when none of the jobs is the chat's, and in every case the listing `JobsText` of the chat's own jobs |
| Bot.JobsCommandListing | src/bot.py:145-153 | the reply to an authorized chat with jobs is the heading and one line `i. summary` per own job, numbered from 1 in scheduler order |
| Bot.ListIndex | src/bot.py:172 | Python's `xs[i]`: valid exactly for −n ≤ i < n, with negative indices counting from the end |
| Bot.DeleteChoice | src/bot.py:158-176 | missing or non-integer number, empty global list, number above its length, too negative a number raising `IndexError`, or the job at Python index n − 1 of the global list |
| Bot.DeleteCommand | src/bot.py:157-176 | nothing for a chat that is not authorized, otherwise the `delete` decision |
| Bot.JobNumber | src/bot.py:159-163 | a text without a space has no second word, so no number is read |
| Bot.JobNumberOfCommand | src/bot.py:160 | `/delete n` reads the number n |
| Bot.DeleteSeparatorAsksAgain | src/bot.py:159-163 | `/delete` followed by U+001C and `1` asks for the number again, as `int()` raises there |
| Bot.DeleteSelectsNth | src/bot.py:164-173 | for 1 ≤ n ≤ len, `/delete n` selects the n-th job of the global list |
| Bot.DeleteCountsFromEnd | src/bot.py:168-172 | n ≤ 0 is not rejected and selects from the end of the list |
| Bot.DeleteBelowRaises | src/bot.py:172 | a number below 1 − len raises `IndexError` |
| Bot.DeleteCrossesChats | src/bot.py:125-172 | with another chat's job first, `/delete 1` selects it although the listing shows this chat's own job as number 1 |
| Bot.DeleteAgreesForSingleChat | src/bot.py:147-172 | when every job is the chat's, `/delete n` selects the n-th listed job |
| Bot.Confirm | src/bot.py:178-184 | an authorized "Yes" removes the stored job and nothing else; any other reply changes nothing; a missing stored id raises `KeyError` and an absent job `JobLookupError` |
| Bot.LessonUrlIn | src/bot.py:218-224 | `None` exactly when the message lacks the prefix; otherwise the URL is the prefix plus the longest digit run, at the prefix's leftmost occurrence |
| Bot.LinkedRecord | src/bot.py:63-70 | sets Telegram name, chat, `linked = True` and `verified = 1`, changes nothing else, and is consistent |
| Bot.RetractedRecord | src/bot.py:72-78 | clears the token and ASVZ username, sets `verified = -1` and changes nothing else |
| Bot.SetUserData | src/bot.py:63-70 | re-reads the user by name and links exactly that row to the chat |
| Bot.ResetToken | src/bot.py:72-78 | re-reads the user by name and retracts exactly that row |
| Bot.AnswerToken | src/bot.py:198-212 | only a user found by the token and not linked is welcomed; then decryption failure, verification error, failed login (retract) or success (link) |
| Bot.AnswerJob | src/bot.py:213-226 | unverified users get no job; a message without the prefix gets no job; otherwise an unreadable password, an unknown organisation or a setup error raises before any message and adds no job, and else exactly one job is inserted for the extracted URL, the chat, the page's lesson, the credentials and `TriggerFor`, and "Job submitted." is sent |
| Bot.Answer | src/bot.py:194-226 | an unauthorized chat never schedules a job; an authorized chat never changes the user table |
| Bot.AuthorizedUserVerified | src/bot.py:107-114 | in a consistent table the user of an authorized real chat is verified |
| Bot.EnrollJob | src/bot.py:86-95 | exactly one message: the error text when `enroll` raised, the success text with the summary when it enrolled |
| Bot.RepliesDiffer | src/bot.py:92-94 | the success and error messages are never equal |
| App.DataRequiredMeans | src/app.py:21-24 | a field passes `DataRequired` exactly when it holds a character that is not white space |
| App.CurrentUser | src/app.py:79-81 | the signed-in user is the row named in the session |
| App.WithCredentials | src/app.py:113-121 | sets the form's ASVZ login, the encrypted password and a new token; resets the Telegram name, `linked`, the chat and `verified = -1`; keeps username, password and `authenticated` |
| App.Credentials | src/app.py:108-125 | without a session user nothing changes; an invalid form changes nothing; a valid one replaces the user's row by `WithCredentials` |
| App.ViewOf | src/app.py:132-133 | the placeholder exactly when the ASVZ password is not empty, and "Not yet linked!" exactly when no Telegram name is stored |
| App.Welcome | src/app.py:127-133 | the view of the signed-in user, re-read from the table |
| App.WelcomeAfterCredentials | src/app.py:113-133 | after a valid submission the page shows the new token and "Not yet linked!", and the placeholder exactly when the encrypted password is not empty |
| App.CredentialsReopenLinking | src/app.py:117-121 | after new credentials the new token finds that user unlinked, so the bot starts verification |
| Admin.NewAccount | admin.py:64-76 | empty ASVZ fields, not linked, `verified = 0`, chat 0, the given hash and token, consistent |
| Admin.AddFresh | admin.py:77-78 | adding an account whose name is absent keeps names unique and makes it the only row with that name |
| Admin.Run | admin.py:15-79 | no username and no `-l` exits 1; `-l` lists all usernames and wins; reset or delete of an absent user exits 1; delete removes and exits 0 and wins over reset; create on an existing user exits 1; create and reset add the new account; nothing changes on any exit-1 path |
| Admin.ResetLeavesOneRecord | admin.py:48-78 | after a reset exactly one record has the name, and every other user's record is kept |

## Left out

- The browser is replaced by the `Oracle`. Left out are XPaths, `send_keys`, `implicitly_wait`, `refresh`, `driver.quit` and the organisation-specific login forms.
- The clock counts whole seconds, and sub-second time is not modelled. The discarded `replace(tzinfo=...)` and the CET zone of the scheduler are left out, so all times are naive.
- `Enroller.Outcome.Exhausted` belongs to the model: the oracle ran out of reports where the source would go on waiting. While the register button keeps timing out, the source loops forever; the model's loop ends only because the reports run out.
- The oracle does not rule out a click on the register button after more than 300 s of waiting.
- Unicode digits: `\d` in Python regular expressions, and `int()` and `strptime`, accept non-ASCII digits. The model accepts ASCII digits only.
- APScheduler internals are left out: the executor pool, persistence, restarts and firing the job at its trigger time. Where the job store places a new job is a parameter of `Bot.Scheduler.AddJob`.
- Fernet `encrypt` and `decrypt`, `sha256_crypt` and `secrets.token_urlsafe` are function parameters or given values.
- `decrypt` raising `InvalidToken` is `None`.
- The handlers `start`, `help`, `cancel` and `unknown`, the `ConversationHandler` states, `message_dispatcher`, `response_queue` and the Telegram and Flask wiring are left out. They hold no decision logic beyond the messages they send.
- The web app's `index`, `login` and `logout` routes are not part of this model, nor is Flask-Login's session handling. The session is given as the signed-in username.
- `main()` of `src/enroller.py`, `create_user.py`, `src/create_user.py`, `broadcast.py` and `src/broadcast_message.py` are not part of this model.
- The sender's Telegram username is a string. A Telegram user without a username (Python `None`) is not modelled.
- Logging is left out.
