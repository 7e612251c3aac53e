/** The decisions of the Telegram bot in `src/bot.py`: scheduling an
    enrollment job, listing and deleting a chat's jobs, finding a lesson
    address in a message, linking a chat to an account, and the message
    sent once a job has run. The scheduler is a sequence of jobs in the
    order its job store reports them. */
module Bot {
  import opened Wrappers
  import opened Text
  import opened Calendar
  import opened Accounts
  import opened Enroller

  const LessonUrlPrefix: string := LessonBaseUrl + "/tn/lessons/"

  const NoJobsText := "No jobs found."
  const AskNumberText := "Please specify a job number."
  const NumberNotFoundText := "Job number not found. Try again."
  const DeletedText := "Job deleted."
  const SubmittedText := "Job submitted."
  const NotVerifiedText := "Your login credentials are not yet verified. This might take some minutes. Resubmit the job in a few minutes. You will be notified when you're credentials have been verified."
  const NoUrlText := "Could not find a lesson url in your message. It should look like " + LessonBaseUrl + "/tn/lessons/ followed by some number."
  const RetractedText := "Your login credentials are not valid and your authorization has been retracted. Please visit https://asvz.jkminder.ch to change them and reauthorize."
  const LinkedText := "Your login credentials have been verified. Your account is now linked to this telegram account. Send /help for more information on how to use me."
  const EnrollFailedText := "An error occured while enrolling."

  function WelcomeText(username: string): string {
    "Welcome " + username + "! You are now authorized. Verifying your login credentials..."
  }

  function EnrolledText(summary: string): string {
    "You have been successfully enrolled for " + summary + "!"
  }

  // ---------------------------------------------------------------------
  // Authorization

  /** `Update`: the chat a message came from, the sender's Telegram
      username and the text. */
  datatype Message = Message(chatId: int, isPrivate: bool, sender: string, text: string)

  /** `user_authorized`: the first user linked to the chat, and only in a
      private chat. */
  function Authorized(rows: seq<User>, m: Message): (r: Option<nat>)
    ensures r.Some? <==> m.isPrivate && exists k :: 0 <= k < |rows| && rows[k].chatId == m.chatId
    ensures r.Some? ==> r == First(rows, ChatIs(m.chatId))
  {
    if m.isPrivate then First(rows, ChatIs(m.chatId)) else None
  }

  // ---------------------------------------------------------------------
  // Jobs and the scheduler

  /** `scheduler.add_job(enroll, ...)` without a trigger runs the job at
      once; `trigger='date'` runs it at `run_date`. */
  datatype Trigger = RunNow | RunAt(runDate: DateTime)

  /** A scheduled call `enroll(enroller, chat_id)`. The job store keeps a
      copy of the enroller: its address, credentials and lesson
      attributes. */
  datatype Job = Job(id: nat, url: string, creds: Credentials, lesson: Lesson, chatId: int, trigger: Trigger)

  /** `enroller_summary`: `'%d.%m.%y %H:%M'` start, title and location. */
  function Summary(l: Lesson): string
    requires Complete(l)
  {
    ShortText(l.start.value) + " - " + l.title.value + " (" + l.location.value + ")"
  }

  predicate DistinctIds(jobs: seq<Job>) {
    forall i, j :: 0 <= i < j < |jobs| ==> jobs[i].id != jobs[j].id
  }

  /** The jobs without the one whose id is `id`. */
  function WithoutJob(jobs: seq<Job>, id: nat): (r: seq<Job>)
  {
    if jobs == [] then []
    else if jobs[0].id == id then WithoutJob(jobs[1..], id)
    else [jobs[0]] + WithoutJob(jobs[1..], id)
  }

  lemma {:induction false} WithoutAbsentJob(jobs: seq<Job>, id: nat)
    requires forall i :: 0 <= i < |jobs| ==> jobs[i].id != id
    ensures WithoutJob(jobs, id) == jobs
    decreases |jobs|
  {
    if jobs != [] {
      assert forall i :: 0 <= i < |jobs[1..]| ==> jobs[1..][i] == jobs[i + 1];
      WithoutAbsentJob(jobs[1..], id);
      assert jobs == [jobs[0]] + jobs[1..];
    }
  }

  lemma DistinctTail(jobs: seq<Job>)
    requires DistinctIds(jobs) && jobs != []
    ensures DistinctIds(jobs[1..])
  {
    forall i, j | 0 <= i < j < |jobs[1..]| ensures jobs[1..][i].id != jobs[1..][j].id {
      assert jobs[1..][i] == jobs[i + 1] && jobs[1..][j] == jobs[j + 1];
    }
  }

  /** With distinct ids `remove_job` takes out exactly one job and keeps
      the others in order. */
  lemma {:induction false} RemoveExactlyOne(jobs: seq<Job>, k: nat)
    requires DistinctIds(jobs) && k < |jobs|
    ensures WithoutJob(jobs, jobs[k].id) == jobs[..k] + jobs[k + 1..]
    decreases k
  {
    var tail := jobs[1..];
    if k == 0 {
      forall i | 0 <= i < |tail| ensures tail[i].id != jobs[0].id {
        assert tail[i] == jobs[i + 1];
      }
      WithoutAbsentJob(tail, jobs[0].id);
      assert jobs[..0] + jobs[1..] == tail;
    } else {
      var id := jobs[k].id;
      assert tail[k - 1] == jobs[k];
      assert jobs[0].id != id;
      DistinctTail(jobs);
      RemoveExactlyOne(tail, k - 1);
      assert WithoutJob(jobs, id) == [jobs[0]] + WithoutJob(tail, id);
      assert tail[..k - 1] == jobs[1..k];
      assert tail[k..] == jobs[k + 1..];
      assert jobs[..k] == [jobs[0]] + jobs[1..k];
    }
  }

  /** Taking one job out keeps the ids distinct and below `bound`. */
  lemma DropKeepsStore(jobs: seq<Job>, k: nat, bound: nat)
    requires k < |jobs| && DistinctIds(jobs)
    requires forall i :: 0 <= i < |jobs| ==> jobs[i].id < bound && Complete(jobs[i].lesson)
    ensures var r := jobs[..k] + jobs[k + 1..];
            && DistinctIds(r)
            && forall i :: 0 <= i < |r| ==> r[i].id < bound && Complete(r[i].lesson)
  {
    var r := jobs[..k] + jobs[k + 1..];
    forall i | 0 <= i < |r| ensures r[i] == jobs[if i < k then i else i + 1] {
    }
  }

  /** The APScheduler scheduler with its job store. */
  class Scheduler {
    var jobs: seq<Job>
    var nextId: nat

    ghost predicate Valid()
      reads this
    {
      && DistinctIds(jobs)
      && forall i :: 0 <= i < |jobs| ==> jobs[i].id < nextId && Complete(jobs[i].lesson)
    }

    constructor ()
      ensures Valid() && jobs == []
    {
      jobs := [];
      nextId := 0;
    }

    /** `add_job`: a new job with a fresh id, at the place `pos` the job
        store gives it. */
    method AddJob(url: string, creds: Credentials, lesson: Lesson, chatId: int, trigger: Trigger, pos: nat) returns (id: nat)
      requires Valid() && pos <= |jobs| && Complete(lesson)
      modifies this
      ensures Valid()
      ensures id == old(nextId) && nextId == old(nextId) + 1
      ensures jobs == old(jobs)[..pos] + [Job(id, url, creds, lesson, chatId, trigger)] + old(jobs)[pos..]
    {
      id := nextId;
      jobs := jobs[..pos] + [Job(id, url, creds, lesson, chatId, trigger)] + jobs[pos..];
      nextId := nextId + 1;
    }

    /** `remove_job(id)`; `false` where it raises `JobLookupError`. */
    method RemoveJob(id: nat) returns (found: bool)
      requires Valid()
      modifies this
      ensures Valid() && nextId == old(nextId)
      ensures found <==> exists k :: 0 <= k < |old(jobs)| && old(jobs)[k].id == id
      ensures jobs == WithoutJob(old(jobs), id)
    {
      found := exists k :: 0 <= k < |jobs| && jobs[k].id == id;
      if !found {
        WithoutAbsentJob(jobs, id);
        return;
      }
      var k :| 0 <= k < |jobs| && jobs[k].id == id;
      RemoveExactlyOne(jobs, k);
      DropKeepsStore(jobs, k, nextId);
      jobs := jobs[..k] + jobs[k + 1..];
    }
  }

  /** The run-now-or-later decision of `initialise_job`: at once when
      enrollment is already open, otherwise at the enrollment start. */
  function TriggerFor(es: DateTime, now: int): (t: Trigger)
    requires Valid(es)
    ensures t.RunNow? <==> Instant(es) < now
    ensures t.RunAt? ==> t.runDate == es
  {
    if Instant(es) < now then RunNow else RunAt(es)
  }

  datatype JobError = BadPassword | EnrollerFailed(error: EnrollerError)

  /** `initialise_job`: decrypt the password (`decrypt` gives `None` where
      Fernet raises), build and set up the enroller, and add the job. */
  method InitialiseJob(sched: Scheduler, url: string, user: string, password: string, org: string, chatId: int,
                       decrypt: string -> Option<string>, page: LessonPage, now: int, pos: nat)
    returns (r: Result<nat, JobError>)
    requires sched.Valid() && pos <= |sched.jobs|
    modifies sched
    ensures sched.Valid()
    ensures r.Failure? ==> sched.jobs == old(sched.jobs)
    ensures r.Failure? ==> decrypt(password).None? || org !in Organisations || SetupRun(page).1.Some?
    ensures decrypt(password).None? ==> r == Failure(BadPassword)
    ensures decrypt(password).Some? && org !in Organisations ==> r == Failure(EnrollerFailed(NoOrganisation))
    ensures decrypt(password).Some? && org in Organisations && SetupRun(page).1.Some? ==>
              r == Failure(EnrollerFailed(SetupFailed(SetupRun(page).1.value)))
    ensures r.Success? ==>
              var l := SetupRun(page).0;
              && Complete(l)
              && sched.jobs == old(sched.jobs)[..pos] + [Job(r.value, url, NewCredentials(org, user, decrypt(password).value).value, l, chatId, TriggerFor(l.enrollmentStart.value, now))] + old(sched.jobs)[pos..]
  {
    var plain := decrypt(password);
    if plain.None? {
      return Failure(BadPassword);
    }
    var e := GetEnroller(url, user, plain.value, org, page);
    if e.Failure? {
      return Failure(EnrollerFailed(e.error));
    }
    var enroller := e.value;
    var trigger := TriggerFor(enroller.enrollmentStart.value, now);
    var id := sched.AddJob(enroller.lessonUrl, enroller.creds, enroller.Attributes(), chatId, trigger, pos);
    return Success(id);
  }

  // ---------------------------------------------------------------------
  // /jobs

  /** `get_jobs(chat_id)`: the jobs whose `args[1]` is the chat. */
  function JobsOf(jobs: seq<Job>, chat: int): (r: seq<Job>)
    ensures forall j :: j in r <==> j in jobs && j.chatId == chat
    ensures |r| <= |jobs|
  {
    if jobs == [] then []
    else if jobs[0].chatId == chat then [jobs[0]] + JobsOf(jobs[1..], chat)
    else JobsOf(jobs[1..], chat)
  }

  /** The filter keeps the scheduler's order. */
  lemma {:induction false} JobsOfAppend(a: seq<Job>, b: seq<Job>, chat: int)
    ensures JobsOf(a + b, chat) == JobsOf(a, chat) + JobsOf(b, chat)
    decreases |a|
  {
    if a == [] {
      assert a + b == b;
    } else {
      assert (a + b)[1..] == a[1..] + b;
      JobsOfAppend(a[1..], b, chat);
    }
  }

  /** A chat whose jobs are all the jobs sees the whole list. */
  lemma {:induction false} JobsOfAll(jobs: seq<Job>, chat: int)
    requires forall j :: j in jobs ==> j.chatId == chat
    ensures JobsOf(jobs, chat) == jobs
    decreases |jobs|
  {
    if jobs != [] {
      JobsOfAll(jobs[1..], chat);
    }
  }

  /** Every job's lesson has the attributes `job_summary` reads. */
  predicate Listable(js: seq<Job>) {
    forall i :: 0 <= i < |js| ==> Complete(js[i].lesson)
  }

  /** `job_summary` of each job, in order. */
  function Summaries(js: seq<Job>): (r: seq<string>)
    requires Listable(js)
    ensures |r| == |js| && forall i :: 0 <= i < |js| ==> r[i] == Summary(js[i].lesson)
    decreases |js|
  {
    if js == [] then [] else [Summary(js[0].lesson)] + Summaries(js[1..])
  }

  /** Line `n` of the listing: `f"{n}. {job_summary(job)}"`. */
  function ListingLine(n: nat, summary: string): string {
    IntText(n) + ". " + summary
  }

  /** The lines of the listing, numbered from `first`. */
  function ListingLines(summaries: seq<string>, first: nat): (lines: seq<string>)
    ensures |lines| == |summaries|
    decreases |summaries|
  {
    if summaries == [] then []
    else [ListingLine(first, summaries[0])] + ListingLines(summaries[1..], first + 1)
  }

  function Numbered(summaries: seq<string>, first: nat): string
    decreases |summaries|
  {
    if summaries == [] then ""
    else ListingLine(first, summaries[0]) + "\n" + Numbered(summaries[1..], first + 1)
  }

  /** The text `jobs` sends for the chat's jobs. */
  function JobsText(js: seq<Job>): (msg: string)
    requires Listable(js)
    ensures msg == NoJobsText <==> js == []
  {
    if js == [] then NoJobsText else "Jobs:\n" + Numbered(Summaries(js), 1)
  }

  /** The `jobs` handler behind the `authorized` decorator: nothing for a
      chat that is not authorized, otherwise the listing of the chat's
      own jobs. */
  function JobsCommand(rows: seq<User>, m: Message, jobs: seq<Job>): (reply: Option<string>)
    requires forall j :: j in jobs ==> Complete(j.lesson)
    ensures reply.None? <==> Authorized(rows, m).None?
    ensures reply.Some? ==> (reply.value == NoJobsText <==> forall j :: j in jobs ==> j.chatId != m.chatId)
    ensures reply.Some? ==> Listable(JobsOf(jobs, m.chatId)) && reply.value == JobsText(JobsOf(jobs, m.chatId))
  {
    if Authorized(rows, m).None? then None
    else
      var own := JobsOf(jobs, m.chatId);
      assert own == [] <==> forall j :: j in jobs ==> j.chatId != m.chatId by {
        if own != [] { assert own[0] in own; }
      }
      assert Listable(own) by {
        forall i | 0 <= i < |own| ensures Complete(own[i].lesson) { assert own[i] in own; }
      }
      Some(JobsText(own))
  }

  lemma {:induction false} NumberedJoin(summaries: seq<string>, first: nat)
    ensures Numbered(summaries, first) == Join(ListingLines(summaries, first) + [""], '\n')
    decreases |summaries|
  {
    if summaries != [] {
      NumberedJoin(summaries[1..], first + 1);
      var line := ListingLine(first, summaries[0]);
      var rest := ListingLines(summaries[1..], first + 1) + [""];
      var parts := ListingLines(summaries, first) + [""];
      assert parts == [line] + rest;
      assert Join(parts, '\n') == line + "\n" + Join(rest, '\n');
    }
  }

  lemma {:induction false} ListingLinesAt(summaries: seq<string>, first: nat, i: nat)
    requires i < |summaries|
    ensures ListingLines(summaries, first)[i] == ListingLine(first + i, summaries[i])
    decreases i
  {
    if i > 0 {
      ListingLinesAt(summaries[1..], first + 1, i - 1);
    }
  }

  /** A listing line holds no line break when the summary holds none. */
  lemma ListingLineFree(n: nat, summary: string)
    requires '\n' !in summary
    ensures '\n' !in ListingLine(n, summary)
  {
    DecimalLacks(n, '\n');
  }

  lemma ListingFree(summaries: seq<string>, first: nat)
    requires forall i :: 0 <= i < |summaries| ==> '\n' !in summaries[i]
    ensures forall k :: 0 <= k < |summaries| ==> '\n' !in ListingLines(summaries, first)[k]
  {
    forall k | 0 <= k < |summaries| ensures '\n' !in ListingLines(summaries, first)[k] {
      ListingLinesAt(summaries, first, k);
      ListingLineFree(first + k, summaries[k]);
    }
  }

  /** `jobs` numbers the chat's jobs from 1 in scheduler order, one per
      line after the heading (when no title or location holds a line
      break). */
  lemma JobsTextLines(js: seq<Job>)
    requires js != []
    requires Listable(js) && forall i :: 0 <= i < |js| ==> '\n' !in Summary(js[i].lesson)
    ensures var lines := Split(JobsText(js), '\n');
            && |lines| == |js| + 2 && lines[0] == "Jobs:" && lines[|js| + 1] == ""
            && forall i :: 0 <= i < |js| ==> lines[i + 1] == ListingLine(i + 1, Summary(js[i].lesson))
  {
    ListingSplit(Summaries(js));
  }

  /** The listing of line-free summaries splits into its heading, one
      numbered line per summary and the empty text after the last break. */
  lemma ListingSplit(summaries: seq<string>)
    requires summaries != []
    requires forall i :: 0 <= i < |summaries| ==> '\n' !in summaries[i]
    ensures var lines := Split("Jobs:\n" + Numbered(summaries, 1), '\n');
            && |lines| == |summaries| + 2 && lines[0] == "Jobs:" && lines[|summaries| + 1] == ""
            && forall i :: 0 <= i < |summaries| ==> lines[i + 1] == ListingLine(i + 1, summaries[i])
  {
    var body := ListingLines(summaries, 1);
    var parts := ["Jobs:"] + body + [""];
    NumberedJoin(summaries, 1);
    assert parts[1..] == body + [""];
    assert "Jobs:\n" + Numbered(summaries, 1) == Join(parts, '\n');
    ListingFree(summaries, 1);
    forall k | 0 <= k < |parts| ensures '\n' !in parts[k] {
      if 1 <= k <= |summaries| {
        assert parts[k] == body[k - 1];
      }
    }
    SplitJoin(parts, '\n');
    forall i | 0 <= i < |summaries| ensures parts[i + 1] == ListingLine(i + 1, summaries[i]) {
      ListingLinesAt(summaries, 1, i);
    }
  }

  /** The `jobs` reply to an authorized chat with jobs is the numbered
      listing of that chat's own jobs, in scheduler order. */
  lemma JobsCommandListing(rows: seq<User>, m: Message, jobs: seq<Job>)
    requires forall j :: j in jobs ==> Complete(j.lesson) && '\n' !in Summary(j.lesson)
    requires Authorized(rows, m).Some? && JobsOf(jobs, m.chatId) != []
    ensures var own := JobsOf(jobs, m.chatId);
            var lines := Split(JobsCommand(rows, m, jobs).value, '\n');
            && |lines| == |own| + 2 && lines[0] == "Jobs:"
            && forall i :: 0 <= i < |own| ==> lines[i + 1] == ListingLine(i + 1, Summary(own[i].lesson))
  {
    var own := JobsOf(jobs, m.chatId);
    forall i | 0 <= i < |own| ensures Complete(own[i].lesson) && '\n' !in Summary(own[i].lesson) {
      assert own[i] in own;
    }
    JobsTextLines(own);
  }

  // ---------------------------------------------------------------------
  // /delete and the confirmation

  /** `int(text.split(" ")[1])`; `None` where this raises (no second
      word, or not an integer). */
  function JobNumber(text: string): (r: Option<int>)
    ensures ' ' !in text ==> r.None?
  {
    SplitAtFirst(text, ' ');
    var words := Split(text, ' ');
    if |words| < 2 then None else ParseInt(words[1])
  }

  /** Python's `xs[i]` position for a list of length `n`: negative
      indices count from the end; `None` where it raises `IndexError`. */
  function ListIndex(i: int, n: nat): (r: Option<nat>)
    ensures r.Some? <==> -(n as int) <= i < n
    ensures r.Some? && i >= 0 ==> r.value == i
    ensures r.Some? && i < 0 ==> r.value == n + i
  {
    if 0 <= i < n then Some(i) else if -(n as int) <= i < 0 then Some(n + i) else None
  }

  datatype DeleteReply =
    | AskForNumber
    | NoJobs
    | NumberNotFound
    | Selected(job: Job)       // stores `job.id` and moves to CONFIRM
    | IndexRaised              // `jobs[job_id-1]` raised `IndexError`

  /** What `delete` does with the number it read: the number indexes the
      scheduler's whole job list, not the chat's own listing, and is not
      checked from below. */
  function DeleteChoice(number: Option<int>, jobs: seq<Job>): (r: DeleteReply)
    ensures number.None? <==> r == AskForNumber
    ensures r == NoJobs <==> number.Some? && jobs == []
    ensures r == NumberNotFound <==> number.Some? && jobs != [] && number.value > |jobs|
    ensures r.Selected? ==> ListIndex(number.value - 1, |jobs|).Some?
    ensures r.Selected? ==> r.job == jobs[ListIndex(number.value - 1, |jobs|).value]
    ensures r == IndexRaised <==> number.Some? && jobs != [] && number.value < 1 - |jobs|
  {
    match number
    case None => AskForNumber
    case Some(n) =>
      if |jobs| == 0 then NoJobs
      else if n > |jobs| then NumberNotFound
      else
        var k := ListIndex(n - 1, |jobs|);
        if k.None? then IndexRaised else Selected(jobs[k.value])
  }

  /** `delete`. */
  function DeleteStep(text: string, jobs: seq<Job>): DeleteReply {
    DeleteChoice(JobNumber(text), jobs)
  }

  /** The `delete` handler behind the `authorized` decorator. */
  function DeleteCommand(rows: seq<User>, m: Message, jobs: seq<Job>): (r: Option<DeleteReply>)
    ensures r.None? <==> Authorized(rows, m).None?
    ensures r.Some? ==> r.value == DeleteStep(m.text, jobs)
  {
    if Authorized(rows, m).None? then None else Some(DeleteStep(m.text, jobs))
  }

  /** The message `delete` sends. */
  function DeleteText(r: DeleteReply): Option<string>
    requires r.Selected? ==> Complete(r.job.lesson)
  {
    match r
    case AskForNumber => Some(AskNumberText)
    case NoJobs => Some(NoJobsText)
    case NumberNotFound => Some(NumberNotFoundText)
    case Selected(job) => Some("Are you sure you want to delete job '" + Summary(job.lesson) + "'?")
    case IndexRaised => None
  }

  /** `/delete arg` splits into the command and `arg` when `arg` holds no
      space. */
  lemma DeleteCommandWords(arg: string)
    requires ' ' !in arg
    ensures Split("/delete " + arg, ' ') == ["/delete", arg]
  {
    SplitJoin(["/delete", arg], ' ');
    assert Join(["/delete", arg], ' ') == "/delete " + arg;
  }

  /** `/delete n` reads the number `n`. */
  lemma JobNumberOfCommand(n: int)
    ensures JobNumber("/delete " + IntText(n)) == Some(n)
  {
    var m: nat := if n < 0 then -n else n;
    DecimalLacks(m, ' ');
    assert IntText(n) == (if n < 0 then "-" else "") + Decimal(m);
    DeleteCommandWords(IntText(n));
    ParseIntText(n);
  }

  /** `/delete \x1c1` asks for the number again: `int()` does not skip the
      information separator that `str.strip()` would drop. */
  lemma DeleteSeparatorAsksAgain(jobs: seq<Job>)
    ensures DeleteStep("/delete " + ['\U{1C}'] + "1", jobs) == AskForNumber
  {
    var arg := ['\U{1C}'] + "1";
    assert "/delete " + ['\U{1C}'] + "1" == "/delete " + arg;
    DeleteCommandWords(arg);
    SeparatorNotSkipped('\U{1C}', "1");
  }

  /** `/delete n` is the choice for the number `n`. */
  lemma DeleteByCommand(jobs: seq<Job>, n: int)
    ensures DeleteStep("/delete " + IntText(n), jobs) == DeleteChoice(Some(n), jobs)
  {
    JobNumberOfCommand(n);
  }

  lemma ChoiceSelects(jobs: seq<Job>, n: int)
    requires 1 - |jobs| <= n <= |jobs| && jobs != []
    ensures 1 <= n ==> DeleteChoice(Some(n), jobs) == Selected(jobs[n - 1])
    ensures n <= 0 ==> DeleteChoice(Some(n), jobs) == Selected(jobs[|jobs| + n - 1])
  {
    assert ListIndex(n - 1, |jobs|).Some?;
  }

  /** `/delete n` for `1 <= n <= len(jobs)` selects the `n`-th job of the
      whole list. */
  lemma DeleteSelectsNth(jobs: seq<Job>, n: int)
    requires 1 <= n <= |jobs|
    ensures DeleteStep("/delete " + IntText(n), jobs) == Selected(jobs[n - 1])
  {
    ChoiceSelects(jobs, n);
    DeleteByCommand(jobs, n);
  }

  /** `/delete 0` (and other small numbers) are not rejected: they select
      from the end of the list, as Python's negative indices do. */
  lemma DeleteCountsFromEnd(jobs: seq<Job>, n: int)
    requires 1 - |jobs| <= n <= 0
    ensures DeleteStep("/delete " + IntText(n), jobs) == Selected(jobs[|jobs| + n - 1])
  {
    ChoiceSelects(jobs, n);
    DeleteByCommand(jobs, n);
  }

  /** Below that `delete` raises `IndexError`. */
  lemma DeleteBelowRaises(jobs: seq<Job>, n: int)
    requires jobs != [] && n < 1 - |jobs|
    ensures DeleteStep("/delete " + IntText(n), jobs) == IndexRaised
  {
    DeleteByCommand(jobs, n);
  }

  /** The number `jobs` shows and the one `delete` uses disagree: with
      another chat's job first, `/delete 1` from the second chat selects
      the other chat's job, though the listing shows it the second chat's
      own job as number 1. */
  lemma DeleteCrossesChats(a: Job, b: Job)
    requires a.chatId != b.chatId
    ensures JobsOf([a, b], b.chatId) == [b]
    ensures DeleteStep("/delete " + IntText(1), [a, b]) == Selected(a)
  {
    assert [a, b][1..] == [b];
    DeleteSelectsNth([a, b], 1);
  }

  /** The two agree when every job belongs to the chat. */
  lemma DeleteAgreesForSingleChat(jobs: seq<Job>, chat: int, n: int)
    requires forall j :: j in jobs ==> j.chatId == chat
    requires 1 <= n <= |JobsOf(jobs, chat)|
    ensures DeleteStep("/delete " + IntText(n), jobs) == Selected(JobsOf(jobs, chat)[n - 1])
  {
    JobsOfAll(jobs, chat);
    DeleteSelectsNth(jobs, n);
  }

  datatype ConfirmError = NoStoredJob | JobLookupError

  /** `confirm`, behind the `authorized` decorator: remove the stored job
      exactly when an authorized chat replies "Yes". `stored` is
      `context.user_data.get("job")`; a missing key raises `KeyError`. */
  method Confirm(sched: Scheduler, rows: seq<User>, m: Message, stored: Option<nat>) returns (r: Result<seq<string>, ConfirmError>)
    requires sched.Valid()
    modifies sched
    ensures sched.Valid()
    ensures Authorized(rows, m).None? || m.text != "Yes" ==> r == Success([]) && sched.jobs == old(sched.jobs)
    ensures Authorized(rows, m).Some? && m.text == "Yes" && stored.None? ==> r == Failure(NoStoredJob) && sched.jobs == old(sched.jobs)
    ensures Authorized(rows, m).Some? && m.text == "Yes" && stored.Some? ==>
              var present := exists k :: 0 <= k < |old(sched.jobs)| && old(sched.jobs)[k].id == stored.value;
              && (present ==> r == Success([DeletedText]))
              && (!present ==> r == Failure(JobLookupError))
              && sched.jobs == WithoutJob(old(sched.jobs), stored.value)
  {
    if Authorized(rows, m).None? || m.text != "Yes" {
      return Success([]);
    }
    if stored.None? {
      return Failure(NoStoredJob);
    }
    var found := sched.RemoveJob(stored.value);
    if !found {
      return Failure(JobLookupError);
    }
    return Success([DeletedText]);
  }

  // ---------------------------------------------------------------------
  // Messages

  /** The address `answer` submits: `re.search` for the literal prefix
      followed by `\d*`, that is the leftmost prefix and the longest run
      of digits after it. */
  function LessonUrlIn(text: string): (r: Option<string>)
    ensures r.None? <==> !Contains(text, LessonUrlPrefix)
    ensures r.Some? ==> |LessonUrlPrefix| <= |r.value| && r.value[..|LessonUrlPrefix|] == LessonUrlPrefix
    ensures r.Some? ==> AllDigits(r.value[|LessonUrlPrefix|..])
    ensures r.Some? ==>
              exists i: nat ::
                && OccursAt(text, r.value, i)
                && (forall k: nat :: k < i ==> !OccursAt(text, LessonUrlPrefix, k))
                && (i + |r.value| < |text| ==> !IsDigit(text[i + |r.value|]))
  {
    match FindFirst(text, LessonUrlPrefix)
    case None => None
    case Some(i) =>
      var start := i + |LessonUrlPrefix|;
      var n := DigitRun(text[start..]);
      var url := text[i..start + n];
      assert url[..|LessonUrlPrefix|] == text[i..start];
      assert url[|LessonUrlPrefix|..] == text[start..][..n];
      assert OccursAt(text, url, i);
      Some(url)
  }

  /** The record after `set_user_data`: linked to the chat and verified. */
  function LinkedRecord(u: User, sender: string, chat: int): (v: User)
    ensures v.telegramUsername == sender && v.chatId == chat && v.linked && v.verified == 1
    ensures v.username == u.username && v.password == u.password && v.authenticated == u.authenticated
    ensures v.asvzUsername == u.asvzUsername && v.asvzPassword == u.asvzPassword && v.asvzOrganisation == u.asvzOrganisation
    ensures v.accessToken == u.accessToken
    ensures Consistent(v)
  {
    u.(telegramUsername := sender, chatId := chat, linked := true, verified := 1)
  }

  /** The record after `reset_token`: token and ASVZ username cleared and
      the login marked unverified; an unlinked record stays consistent. */
  function RetractedRecord(u: User): (v: User)
    ensures v.accessToken == "" && v.asvzUsername == "" && v.verified == -1
    ensures v.username == u.username && v.password == u.password && v.authenticated == u.authenticated
    ensures v.asvzPassword == u.asvzPassword && v.asvzOrganisation == u.asvzOrganisation
    ensures v.linked == u.linked && v.chatId == u.chatId && v.telegramUsername == u.telegramUsername
    ensures Consistent(u) && !u.linked ==> Consistent(v) && !v.linked
  {
    u.(accessToken := "", asvzUsername := "", verified := -1)
  }

  /** `set_user_data`: re-reads the user by name and links it to the
      chat; `false` where the lookup gives `None`. */
  method SetUserData(table: UserTable, username: string, sender: string, chat: int) returns (found: bool)
    requires table.Valid()
    modifies table
    ensures table.Valid()
    ensures found <==> First(old(table.rows), UsernameIs(username)).Some?
    ensures found ==> var k := First(old(table.rows), UsernameIs(username)).value;
                      table.rows == old(table.rows)[k := LinkedRecord(old(table.rows)[k], sender, chat)]
    ensures !found ==> table.rows == old(table.rows)
  {
    var k := First(table.rows, UsernameIs(username));
    if k.None? {
      return false;
    }
    table.Update(k.value, LinkedRecord(table.rows[k.value], sender, chat));
    return true;
  }

  /** `reset_token`: retracts the user's token and ASVZ username. The
      table stays consistent because it is only called for a user who is
      not linked. */
  method ResetToken(table: UserTable, username: string) returns (found: bool)
    requires table.Valid()
    requires forall k :: 0 <= k < |table.rows| && table.rows[k].username == username ==> !table.rows[k].linked
    modifies table
    ensures table.Valid()
    ensures found <==> First(old(table.rows), UsernameIs(username)).Some?
    ensures found ==> var k := First(old(table.rows), UsernameIs(username)).value;
                      table.rows == old(table.rows)[k := RetractedRecord(old(table.rows)[k])]
    ensures !found ==> table.rows == old(table.rows)
  {
    var k := First(table.rows, UsernameIs(username));
    if k.None? {
      return false;
    }
    table.Update(k.value, RetractedRecord(table.rows[k.value]));
    return true;
  }

  datatype AnswerError = PasswordUnreadable | VerifyFailed(verifyError: VerifyError) | JobFailed(jobError: JobError)

  /** What `answer` does with an access token sent from a chat that is
      not authorized: the user with that token, if not yet linked, is
      welcomed, has their ASVZ login checked (`login` is what the browser
      reports) and is then linked to the chat or has the token retracted.
      Any other text changes nothing and sends nothing. */
  ghost predicate TokenOutcome(rows: seq<User>, rows': seq<User>, m: Message, decrypt: string -> Option<string>,
                               login: LoginObs, sent: seq<string>, error: Option<AnswerError>)
  {
    var t := First(rows, TokenIs(m.text));
    if t.None? || rows[t.value].linked then
      rows' == rows && sent == [] && error.None?
    else
      var u := rows[t.value];
      match decrypt(u.asvzPassword)
      case None => rows' == rows && sent == [WelcomeText(u.username)] && error == Some(PasswordUnreadable)
      case Some(plain) =>
        match VerifyLogin(u.asvzOrganisation, u.asvzUsername, plain, login)
        case Failure(e) => rows' == rows && sent == [WelcomeText(u.username)] && error == Some(VerifyFailed(e))
        case Success(ok) =>
          && error.None?
          && (!ok ==> sent == [WelcomeText(u.username), RetractedText] && rows' == rows[t.value := RetractedRecord(u)])
          && (ok ==> sent == [WelcomeText(u.username), LinkedText] && rows' == rows[t.value := LinkedRecord(u, m.sender, m.chatId)])
  }

  /** What `answer` does for the user `u` of an authorized chat: refuse
      while the login is unverified, otherwise submit the first lesson
      address of the message as a job, or say that there is none. */
  ghost predicate JobOutcome(u: User, m: Message, decrypt: string -> Option<string>, page: LessonPage, now: int,
                             jobs: seq<Job>, jobs': seq<Job>, pos: nat, sent: seq<string>, error: Option<AnswerError>)
  {
    if u.verified == -1 then
      sent == [NotVerifiedText] && error.None? && jobs' == jobs
    else if !Contains(m.text, LessonUrlPrefix) then
      sent == [NoUrlText] && error.None? && jobs' == jobs
    else
      match decrypt(u.asvzPassword)
      case None => error == Some(JobFailed(BadPassword)) && sent == [] && jobs' == jobs
      case Some(plain) =>
        if u.asvzOrganisation !in Organisations then
          error == Some(JobFailed(EnrollerFailed(NoOrganisation))) && sent == [] && jobs' == jobs
        else if SetupRun(page).1.Some? then
          error == Some(JobFailed(EnrollerFailed(SetupFailed(SetupRun(page).1.value)))) && sent == [] && jobs' == jobs
        else
          var l := SetupRun(page).0;
          && error.None? && sent == [SubmittedText]
          && pos < |jobs'| && |jobs'| == |jobs| + 1
          && jobs'[..pos] + jobs'[pos + 1..] == jobs
          && jobs'[pos].url == LessonUrlIn(m.text).value
          && jobs'[pos].chatId == m.chatId
          && jobs'[pos].lesson == l
          && Some(jobs'[pos].creds) == NewCredentials(u.asvzOrganisation, u.asvzUsername, plain)
          && jobs'[pos].trigger == TriggerFor(l.enrollmentStart.value, now)
  }

  lemma InsertedAt(xs: seq<Job>, pos: nat, x: Job)
    requires pos <= |xs|
    ensures var ys := xs[..pos] + [x] + xs[pos..];
            pos < |ys| && |ys| == |xs| + 1 && ys[pos] == x && ys[..pos] + ys[pos + 1..] == xs
  {
    var ys := xs[..pos] + [x] + xs[pos..];
    assert ys[..pos] == xs[..pos];
    assert ys[pos + 1..] == xs[pos..];
  }

  /** `answer` for a chat that is not authorized. */
  method AnswerToken(table: UserTable, m: Message, decrypt: string -> Option<string>, login: LoginObs)
    returns (sent: seq<string>, error: Option<AnswerError>)
    requires table.Valid()
    modifies table
    ensures table.Valid()
    ensures TokenOutcome(old(table.rows), table.rows, m, decrypt, login, sent, error)
  {
    sent, error := [], None;
    var t := First(table.rows, TokenIs(m.text));
    if t.None? || table.rows[t.value].linked {
      return;
    }
    var u := table.rows[t.value];
    sent := [WelcomeText(u.username)];
    var plain := decrypt(u.asvzPassword);
    if plain.None? {
      error := Some(PasswordUnreadable);
      return;
    }
    var v := VerifyLogin(u.asvzOrganisation, u.asvzUsername, plain.value, login);
    if v.Failure? {
      error := Some(VerifyFailed(v.error));
      return;
    }
    // The lookup by name finds the same row: usernames are unique.
    assert First(table.rows, UsernameIs(u.username)) == t;
    if !v.value {
      var _ := ResetToken(table, u.username);
      sent := sent + [RetractedText];
    } else {
      var _ := SetUserData(table, u.username, m.sender, m.chatId);
      sent := sent + [LinkedText];
    }
  }

  /** `answer` for the user `u` of an authorized chat. */
  method AnswerJob(sched: Scheduler, u: User, m: Message, decrypt: string -> Option<string>,
                   page: LessonPage, now: int, pos: nat)
    returns (sent: seq<string>, error: Option<AnswerError>)
    requires sched.Valid() && pos <= |sched.jobs|
    modifies sched
    ensures sched.Valid()
    ensures JobOutcome(u, m, decrypt, page, now, old(sched.jobs), sched.jobs, pos, sent, error)
  {
    sent, error := [], None;
    if u.verified == -1 {
      sent := [NotVerifiedText];
    } else if Contains(m.text, LessonUrlPrefix) {
      var url := LessonUrlIn(m.text).value;
      var r := InitialiseJob(sched, url, u.asvzUsername, u.asvzPassword, u.asvzOrganisation, m.chatId, decrypt, page, now, pos);
      if r.Failure? {
        error := Some(JobFailed(r.error));
        return;
      }
      InsertedAt(old(sched.jobs), pos, sched.jobs[pos]);
      sent := [SubmittedText];
    } else {
      sent := [NoUrlText];
    }
  }

  /** `answer`, for a text message: a chat that is not authorized may only
      send an access token and never schedules a job; an authorized chat
      sends lesson addresses and never changes the user table. `sent`
      holds the messages sent before it returns or raises. */
  method Answer(table: UserTable, sched: Scheduler, m: Message, decrypt: string -> Option<string>,
                login: LoginObs, page: LessonPage, now: int, pos: nat)
    returns (sent: seq<string>, error: Option<AnswerError>)
    requires table.Valid() && sched.Valid() && pos <= |sched.jobs|
    modifies table, sched
    ensures table.Valid() && sched.Valid()
    ensures Authorized(old(table.rows), m).None? ==>
              && TokenOutcome(old(table.rows), table.rows, m, decrypt, login, sent, error)
              && sched.jobs == old(sched.jobs)
    ensures Authorized(old(table.rows), m).Some? ==>
              && JobOutcome(old(table.rows)[Authorized(old(table.rows), m).value], m, decrypt, page, now, old(sched.jobs), sched.jobs, pos, sent, error)
              && table.rows == old(table.rows)
  {
    var auth := Authorized(table.rows, m);
    if auth.None? {
      sent, error := AnswerToken(table, m, decrypt, login);
    } else {
      sent, error := AnswerJob(sched, table.rows[auth.value], m, decrypt, page, now, pos);
    }
  }

  /** Under the table's invariant the "not yet verified" reply cannot
      happen for a real chat: the user an authorized chat finds is linked
      and therefore verified. */
  lemma AuthorizedUserVerified(rows: seq<User>, m: Message)
    requires AllConsistent(rows) && m.chatId != 0
    requires Authorized(rows, m).Some?
    ensures rows[Authorized(rows, m).value].verified == 1
  {
    ChatOwnerIsVerified(rows, m.chatId);
  }

  // ---------------------------------------------------------------------
  // The job itself

  /** A message for a chat. */
  datatype Response = Response(chatId: int, text: string)

  /** `enroll(enroller, chat_id)`: run the enrollment and send exactly one
      message about it. `None` only where the oracle ran out. */
  method EnrollJob(enroller: AsvzEnroller, chatId: int, env: Oracle) returns (response: Option<Response>)
    requires enroller.Ready()
    modifies env
    ensures var outcome := EnrollRun(old(env.State()), Instant(enroller.enrollmentStart.value), Instant(enroller.lessonStart.value)).0;
            && (outcome.Enrolled? ==> response == Some(Response(chatId, EnrolledText(Summary(enroller.Attributes())))))
            && (outcome.Raised? ==> response == Some(Response(chatId, EnrollFailedText)))
            && (outcome.Exhausted? <==> response.None?)
  {
    var outcome := enroller.Enroll(env);
    match outcome {
      case Enrolled =>
        response := Some(Response(chatId, EnrolledText(Summary(enroller.Attributes()))));
      case Raised(_) =>
        response := Some(Response(chatId, EnrollFailedText));
      case Exhausted =>
        response := None;
    }
  }

  /** The two replies can be told apart: no summary makes the success
      message read like the error message. */
  lemma RepliesDiffer(summary: string)
    ensures EnrolledText(summary) != EnrollFailedText
  {
    assert EnrolledText(summary)[0] == 'Y';
    assert EnrollFailedText[0] == 'A';
  }
}
