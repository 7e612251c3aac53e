/** The enrollment engine of `src/enroller.py`: reading the lesson page,
    the sleep before enrollment opens, and the loop that polls for free
    places and clicks the register button. The browser and the wall clock
    are one `Oracle`: a clock in whole seconds, and queues of what the
    browser reports each time the engine looks at the page. */
module Enroller {
  import opened Wrappers
  import opened Text
  import opened Calendar

  const LessonBaseUrl: string := "https://schalter.asvz.ch"

  /** `login_before_enrollment_seconds = 1 * 59` */
  const LoginLeadSeconds: nat := 59
  /** `retry_interval_sec = 1 * 30` */
  const RetryIntervalSeconds: nat := 30
  /** `WebDriverWait(driver, 5 * 60)` on the register button */
  const RegisterTimeoutSeconds: nat := 300
  /** `time.sleep(3)` after submitting the login form */
  const RedirectWaitSeconds: nat := 3
  /** `time.sleep(5)` after clicking the register button */
  const AfterClickSeconds: nat := 5

  /** `ORGANISATIONS`: key to the name SwitchAAI displays. */
  const Organisations: map<string, string> := map[
    "ETH" := "ETH Z\U{fc}rich",
    "UZH" := "Universit\U{e4}t Z\U{fc}rich",
    "ZHAW" := "ZHAW - Z\U{fc}rcher Hochschule f\U{fc}r Angewandte Wissenschaften",
    "PHZH" := "PH Z\U{fc}rich - P\U{e4}dagogische Hochschule Z\U{fc}rich",
    "ASVZ" := "ASVZ"]

  /** The dictionary `CredentialsManager.get()` returns. */
  datatype Credentials = Credentials(organisation: string, username: string, password: string)

  /** `CredentialsManager(org, uname, password, ...).get()`; `None` where
      the organisation key is unknown and Python raises `KeyError`. */
  function NewCredentials(org: string, username: string, password: string): (r: Option<Credentials>)
    ensures r.None? <==> org !in {"ETH", "UZH", "ZHAW", "PHZH", "ASVZ"}
    ensures r.Some? ==> r.value.organisation == Organisations[org]
    ensures r.Some? ==> r.value.username == username && r.value.password == password
  {
    if org in Organisations then Some(Credentials(Organisations[org], username, password)) else None
  }

  /** The exceptions the browser raises. */
  datatype DriverError = ElementMissing | WaitTimedOut | BrowserFailure

  /** The test `check_login` and `__organisation_login` make after the
      redirect: `driver.current_url.startswith(LESSON_BASE_URL)`. */
  predicate LoginSucceeded(url: string) {
    |url| >= |LessonBaseUrl| && url[..|LessonBaseUrl|] == LessonBaseUrl
  }

  /** A page of the lesson site counts as logged in, the identity
      provider's page does not. */
  lemma LoginSucceededOnLessonSite(path: string)
    ensures LoginSucceeded(LessonBaseUrl + path)
    ensures !LoginSucceeded("https://login.eduid.ch" + path)
  {
    var other := "https://login.eduid.ch" + path;
    if |other| >= |LessonBaseUrl| {
      assert other[8] != LessonBaseUrl[8];
    }
  }

  /** What the browser reports for one login: the address it was
      redirected to and the seconds the form took, or an exception. */
  datatype LoginObs = LoginRedirect(elapsed: nat, url: string) | LoginRaised(error: DriverError)

  /** `AsvzEnroller.check_login`: whether the login ended on the lesson
      site; the browser's exceptions propagate. */
  function CheckLogin(obs: LoginObs): (r: Result<bool, DriverError>)
    ensures r.Success? <==> obs.LoginRedirect?
    ensures r.Success? ==> (r.value <==> LoginSucceeded(obs.url))
  {
    match obs
    case LoginRedirect(_, url) => Success(LoginSucceeded(url))
    case LoginRaised(e) => Failure(e)
  }

  datatype VerifyError = UnknownOrganisation | VerifyRaised(error: DriverError)

  /** `verify_login`: the credentials are built first, so an unknown
      organisation fails before the browser is used. */
  function VerifyLogin(org: string, username: string, password: string, obs: LoginObs): (r: Result<bool, VerifyError>)
    ensures org !in Organisations ==> r == Failure(UnknownOrganisation)
    ensures org in Organisations && obs.LoginRaised? ==> r == Failure(VerifyRaised(obs.error))
    ensures org in Organisations && obs.LoginRedirect? ==> r == Success(LoginSucceeded(obs.url))
  {
    var _ :- (if NewCredentials(org, username, password).None? then Failure(UnknownOrganisation) else Success(()));
    match CheckLogin(obs)
    case Success(ok) => Success(ok)
    case Failure(e) => Failure(VerifyRaised(e))
  }

  // ---------------------------------------------------------------------
  // setup

  /** What the lesson page holds: whether it is the not-found page, and
      the `Datum/Zeit` entry (its inner HTML), the `h1` title and the
      `Anlage` entry, each `None` where the element is missing. */
  datatype LessonPage = LessonPage(notFound: bool, interval: Option<string>, title: Option<string>, location: Option<string>)

  datatype SetupError =
    | LessonNotFound         // `Exception("Lesson not found")`
    | NoSuchElement          // a `find_element` that failed
    | NoComma                // `IndexError` from `.split(",")[1]`
    | ParseFailed(raw: string) // `AsvzBotException("Failed to parse ...")`
    | Overflow               // `OverflowError` from `lesson_start - day`

  /** `raw.split("-")[0].split(",")[1].strip()`; `None` where there is no
      comma before the first dash and Python raises `IndexError`. */
  function LessonStartText(interval: string): Option<string>
  {
    var parts := Split(Split(interval, '-')[0], ',');
    if |parts| < 2 then None else Some(Strip(parts[1]))
  }

  /** The same text found by position: the part before the first dash,
      from its first comma to its next comma, white space stripped. */
  lemma {:induction false} LessonStartTextAt(interval: string)
    ensures var head := interval[..IndexOf(interval, '-')];
            var i := IndexOf(head, ',');
            && (LessonStartText(interval).None? <==> i == |head|)
            && (i < |head| ==>
                 var tail := head[i + 1..];
                 LessonStartText(interval) == Some(Strip(tail[..IndexOf(tail, ',')])))
  {
    var head := interval[..IndexOf(interval, '-')];
    SplitAtFirst(interval, '-');
    assert Split(interval, '-')[0] == head;
    SplitAtFirst(head, ',');
    var i := IndexOf(head, ',');
    if i < |head| {
      var tail := head[i + 1..];
      SplitAtFirst(tail, ',');
      assert Split(head, ',')[1] == Split(tail, ',')[0];
      assert Split(tail, ',')[0] == tail[..IndexOf(tail, ',')];
    }
  }

  lemma ExampleHead(s: string)
    requires s == "Mo, 10.05.2021 06:55 - 08:05"
    ensures s[..IndexOf(s, '-')] == "Mo, 10.05.2021 06:55 "
  {
    var head := "Mo, 10.05.2021 06:55 ";
    assert s == head + "- 08:05";
    assert s[21] == '-' && s[..21] == head && '-' !in head;
    IndexOfAt(s, '-', 21);
  }
  lemma ExampleComma(head: string)
    requires head == "Mo, 10.05.2021 06:55 "
    ensures IndexOf(head, ',') == 2 && head[3..] == " 10.05.2021 06:55 "
  {
    var tail := " 10.05.2021 06:55 ";
    assert head == "Mo," + tail;
    assert head[2] == ',' && head[3..] == tail && ',' !in head[..2];
    IndexOfAt(head, ',', 2);
  }
  lemma ExampleStrip(tail: string)
    requires tail == " 10.05.2021 06:55 "
    ensures tail[..IndexOf(tail, ',')] == tail
    ensures Strip(tail) == "10.05.2021 06:55"
  {
    assert ',' !in tail && tail[..|tail|] == tail;
    IndexOfAt(tail, ',', |tail|);
    assert StripStart(tail) == 1 by {
      assert IsSpace(tail[0]) && !IsSpace(tail[1]);
    }
    assert StripEnd(tail) == 17 by {
      assert IsSpace(tail[17]) && !IsSpace(tail[16]);
    }
    assert tail[1..17] == "10.05.2021 06:55";
  }
  /** The example in the source's comment: the start text, and the time
      it parses to. */
  lemma LessonStartExample(s: string)
    requires s == "Mo, 10.05.2021 06:55 - 08:05"
    ensures LessonStartText(s) == Some("10.05.2021 06:55")
    ensures ParseLessonTime(LessonStartText(s).value) == Some(DateTime(2021, 5, 10, 6, 55))
  {
    ExampleHead(s);
    var head := s[..IndexOf(s, '-')];
    ExampleComma(head);
    ExampleStrip(head[3..]);
    LessonStartTextAt(s);
    ExampleTime(DateTime(2021, 5, 10, 6, 55));
  }

  lemma ExampleTime(t: DateTime)
    requires t == DateTime(2021, 5, 10, 6, 55)
    ensures ParseLessonTime("10.05.2021 06:55") == Some(t)
  {
    assert Pad2(10) == "10" && Pad2(5) == "05" && Pad2(6) == "06" && Pad2(55) == "55";
    assert Pad4(2021) == "2021";
    assert LessonTimeText(t) == "10.05.2021 06:55";
    ParseLessonTimeText(t);
  }

  /** The attributes `setup` assigns, `None` where it has not. */
  datatype Lesson = Lesson(start: Option<DateTime>, enrollmentStart: Option<DateTime>, title: Option<string>, location: Option<string>)

  const Unset := Lesson(None, None, None, None)

  predicate Complete(l: Lesson) {
    && l.start.Some? && l.enrollmentStart.Some? && l.title.Some? && l.location.Some?
    && Valid(l.start.value) && Valid(l.enrollmentStart.value)
  }

  /** The attributes `setup` assigns for a page and the exception it
      raises, if any. An exception part-way leaves the attributes assigned
      before it. */
  function SetupRun(page: LessonPage): (r: (Lesson, Option<SetupError>))
    ensures r.1.None? <==> Complete(r.0)
    ensures r.0.enrollmentStart.Some? ==>
              && r.0.start.Some? && Valid(r.0.start.value) && Valid(r.0.enrollmentStart.value)
              && Instant(r.0.enrollmentStart.value) == Instant(r.0.start.value) - SecondsPerDay
    ensures r.0.start.Some? ==>
              page.interval.Some? && LessonStartText(page.interval.value).Some?
              && ParseLessonTime(LessonStartText(page.interval.value).value) == r.0.start
    ensures r.0.title.Some? <==> r.0.location.Some?
    ensures r.0.title.Some? ==> r.0.title == page.title && r.0.location == page.location
    ensures r.1 == Some(NoComma) <==>
              && !page.notFound && page.interval.Some?
              && ',' !in page.interval.value[..IndexOf(page.interval.value, '-')]
    ensures r.1.Some? && r.1.value.ParseFailed? ==> ParseLessonTime(r.1.value.raw).None?
    // Which exception, in the order `setup` meets them.
    ensures page.notFound ==> r.1 == Some(LessonNotFound)
    ensures !page.notFound && page.interval.None? ==> r.1 == Some(NoSuchElement)
    ensures !page.notFound && page.interval.Some? && LessonStartText(page.interval.value).Some?
            && ParseLessonTime(LessonStartText(page.interval.value).value).None? ==>
              r.1 == Some(ParseFailed(LessonStartText(page.interval.value).value))
    ensures r.1 == Some(Overflow) <==>
              && !page.notFound && page.interval.Some? && LessonStartText(page.interval.value).Some?
              && ParseLessonTime(LessonStartText(page.interval.value).value).Some?
              && Ordinal(ParseLessonTime(LessonStartText(page.interval.value).value).value) == 1
    ensures r.0.enrollmentStart.Some? <==>
              && !page.notFound && page.interval.Some? && LessonStartText(page.interval.value).Some?
              && ParseLessonTime(LessonStartText(page.interval.value).value).Some?
              && Ordinal(ParseLessonTime(LessonStartText(page.interval.value).value).value) != 1
    ensures r.0.enrollmentStart.Some? ==>
              r.1 == if page.title.Some? && page.location.Some? then None else Some(NoSuchElement)
  {
    if page.notFound then (Unset, Some(LessonNotFound))
    else if page.interval.None? then (Unset, Some(NoSuchElement))
    else
      LessonStartTextAt(page.interval.value);
      match LessonStartText(page.interval.value)
      case None => (Unset, Some(NoComma))
      case Some(raw) =>
        match ParseLessonTime(raw)
        case None => (Unset, Some(ParseFailed(raw)))
        case Some(start) =>
          match PreviousDay(start)
          case None => (Unset.(start := Some(start)), Some(Overflow))
          case Some(es) =>
            if page.title.None? || page.location.None? then (Lesson(Some(start), Some(es), None, None), Some(NoSuchElement))
            else (Lesson(Some(start), Some(es), page.title, page.location), None)
  }

  /** Attributes assigned by a call, over the ones held before it. */
  function Overlay(before: Lesson, newly: Lesson): Lesson {
    Lesson(
      if newly.start.Some? then newly.start else before.start,
      if newly.enrollmentStart.Some? then newly.enrollmentStart else before.enrollmentStart,
      if newly.title.Some? then newly.title else before.title,
      if newly.location.Some? then newly.location else before.location)
  }

  // ---------------------------------------------------------------------
  // The browser and the clock

  /** What the browser reports when the booked-out alert is looked up:
      whether it is shown, and the seconds the lookup (with the page
      refresh before it) took. */
  datatype AlertObs = AlertObs(elapsed: nat, bookedOut: bool)

  /** The wait for the register button: it became clickable after `wait`
      seconds (less than `RegisterTimeoutSeconds`) and was clicked, or the
      wait or the click raised. */
  datatype RegisterObs = Clickable(wait: nat) | RegisterRaised(error: DriverError)

  datatype Event =
    | Slept(seconds: nat)
    | AlertChecked(at: int, bookedOut: bool)
    | LoginSubmitted(at: int)
    | RegisterAwaited(at: int)

  /** The oracle's whole state: the clock, what the browser will report
      next, and what the engine has done so far. */
  datatype World = World(now: int, alerts: seq<AlertObs>, logins: seq<LoginObs>, registers: seq<RegisterObs>, log: seq<Event>)

  function SleepStep(w: World, seconds: nat): (r: World)
    ensures r.now == w.now + seconds
    ensures r.alerts == w.alerts && r.logins == w.logins && r.registers == w.registers
    ensures r.log == w.log + [Slept(seconds)]
  {
    w.(now := w.now + seconds, log := w.log + [Slept(seconds)])
  }

  /** Looking for the booked-out alert; `None` when the oracle has no
      more reports. */
  function AlertStep(w: World): (r: (Option<bool>, World))
    ensures r.0.None? <==> w.alerts == []
    ensures r.0.Some? ==> r.1.alerts == w.alerts[1..] && r.0.value == w.alerts[0].bookedOut
    ensures r.0.Some? ==> r.1.now == w.now + w.alerts[0].elapsed
    ensures r.0.Some? ==> r.1.log == w.log + [AlertChecked(r.1.now, r.0.value)]
    ensures r.0.None? ==> r.1 == w
    ensures r.1.logins == w.logins && r.1.registers == w.registers
  {
    if w.alerts == [] then (None, w)
    else
      var obs := w.alerts[0];
      var t := w.now + obs.elapsed;
      (Some(obs.bookedOut), w.(now := t, alerts := w.alerts[1..], log := w.log + [AlertChecked(t, obs.bookedOut)]))
  }

  /** `__organisation_login`: submits the login form, sleeps three
      seconds and reports whether the redirect reached the lesson site. */
  function LoginStep(w: World): (r: (Option<Result<bool, DriverError>>, World))
    ensures r.0.None? <==> w.logins == []
    ensures r.0.Some? ==> r.1.logins == w.logins[1..] && r.0.value == CheckLogin(w.logins[0])
    ensures r.0.Some? && r.0.value.Success? ==> r.1.now == w.now + w.logins[0].elapsed + RedirectWaitSeconds
    ensures r.0.Some? && r.0.value.Failure? ==> r.1.now == w.now
    ensures r.0.Some? ==> r.1.log == w.log + [LoginSubmitted(w.now)]
    ensures r.0.None? ==> r.1 == w
    ensures r.1.alerts == w.alerts && r.1.registers == w.registers
  {
    if w.logins == [] then (None, w)
    else
      var obs := w.logins[0];
      var t := if obs.LoginRedirect? then w.now + obs.elapsed + RedirectWaitSeconds else w.now;
      (Some(CheckLogin(obs)), w.(now := t, logins := w.logins[1..], log := w.log + [LoginSubmitted(w.now)]))
  }

  /** The register wait: a click is followed by five seconds of sleep, a
      timeout comes after the full five minutes. */
  function RegisterStep(w: World): (r: (Option<RegisterObs>, World))
    ensures r.0.None? <==> w.registers == []
    ensures r.0.Some? ==> r.1.registers == w.registers[1..] && r.0.value == w.registers[0]
    ensures r.0.Some? ==> r.1.now >= w.now
    ensures r.0.Some? ==> r.1.log == w.log + [RegisterAwaited(w.now)]
    ensures r.0.None? ==> r.1 == w
    ensures r.1.alerts == w.alerts && r.1.logins == w.logins
  {
    if w.registers == [] then (None, w)
    else
      var obs := w.registers[0];
      var t := match obs
        case Clickable(wait) => w.now + wait + AfterClickSeconds
        case RegisterRaised(WaitTimedOut) => w.now + RegisterTimeoutSeconds
        case RegisterRaised(_) => w.now;
      (Some(obs), w.(now := t, registers := w.registers[1..], log := w.log + [RegisterAwaited(w.now)]))
  }

  /** The browser and the clock, as the engine sees them. */
  class Oracle {
    var now: int
    var alerts: seq<AlertObs>
    var logins: seq<LoginObs>
    var registers: seq<RegisterObs>
    var log: seq<Event>

    function State(): World
      reads this
    {
      World(now, alerts, logins, registers, log)
    }

    constructor (w: World)
      ensures State() == w
    {
      now, alerts, logins, registers, log := w.now, w.alerts, w.logins, w.registers, w.log;
    }

    /** `time.sleep(seconds)` */
    method Sleep(seconds: nat)
      modifies this
      ensures State() == SleepStep(old(State()), seconds)
    {
      now := now + seconds;
      log := log + [Slept(seconds)];
    }

    /** `driver.find_element(... 'ausgebucht' ...)`: `Some(true)` when the
        alert is found. */
    method FindBookedOutAlert() returns (found: Option<bool>)
      modifies this
      ensures (found, State()) == AlertStep(old(State()))
    {
      if alerts == [] {
        return None;
      }
      var obs := alerts[0];
      now := now + obs.elapsed;
      alerts := alerts[1..];
      log := log + [AlertChecked(now, obs.bookedOut)];
      found := Some(obs.bookedOut);
    }

    method Login() returns (r: Option<Result<bool, DriverError>>)
      modifies this
      ensures (r, State()) == LoginStep(old(State()))
    {
      if logins == [] {
        return None;
      }
      var obs := logins[0];
      log := log + [LoginSubmitted(now)];
      logins := logins[1..];
      if obs.LoginRedirect? {
        now := now + obs.elapsed;
        now := now + RedirectWaitSeconds;
      }
      r := Some(CheckLogin(obs));
    }

    method AwaitRegister() returns (r: Option<RegisterObs>)
      modifies this
      ensures (r, State()) == RegisterStep(old(State()))
    {
      if registers == [] {
        return None;
      }
      var obs := registers[0];
      log := log + [RegisterAwaited(now)];
      registers := registers[1..];
      match obs {
        case Clickable(wait) =>
          now := now + wait;
          now := now + AfterClickSeconds;
        case RegisterRaised(WaitTimedOut) =>
          now := now + RegisterTimeoutSeconds;
        case RegisterRaised(_) =>
      }
      r := Some(obs);
    }
  }

  // ---------------------------------------------------------------------
  // wait_until

  /** The sleep `wait_until` takes at clock `now` before enrollment opens
      at `es`: it reads only the within-day part of the gap (Python's
      `timedelta.seconds`) and sleeps only when that exceeds 59 seconds. */
  function SleepSeconds(es: int, now: int): (d: nat)
    ensures d < SecondsPerDay - LoginLeadSeconds
    ensures d > 0 <==> TimedeltaSeconds(es - now) > LoginLeadSeconds
  {
    var s := TimedeltaSeconds(es - now);
    if s > LoginLeadSeconds then s - LoginLeadSeconds else 0
  }

  /** For a gap under a day (and over the lead), the engine wakes exactly
      59 seconds before enrollment opens. */
  lemma SleepWakesBeforeOpening(es: int, now: int)
    requires LoginLeadSeconds < es - now < SecondsPerDay
    ensures now + SleepSeconds(es, now) == es - LoginLeadSeconds
  {
  }

  /** A gap of at most 59 seconds is not slept. */
  lemma NoSleepForShortGap(es: int, now: int)
    requires 0 <= es - now <= LoginLeadSeconds
    ensures SleepSeconds(es, now) == 0
  {
  }

  /** For a gap of a day or more the engine wakes a positive whole number
      of days too early (or does not sleep at all): the full days of the
      gap are dropped. */
  lemma SleepDropsWholeDays(es: int, now: int)
    requires es - now >= SecondsPerDay
    requires SleepSeconds(es, now) > 0
    ensures var late := (es - LoginLeadSeconds) - (now + SleepSeconds(es, now));
            late > 0 && late % SecondsPerDay == 0
  {
    var delta := es - now;
    var s := TimedeltaSeconds(delta);
    assert delta == (delta / SecondsPerDay) * SecondsPerDay + s;
    assert delta / SecondsPerDay >= 1;
    var late := (es - LoginLeadSeconds) - (now + SleepSeconds(es, now));
    assert late == (delta / SecondsPerDay) * SecondsPerDay;
  }

  /** The clock after `wait_until(es)`. */
  function WaitUntilStep(w: World, es: int): World {
    var d := SleepSeconds(es, w.now);
    if d > 0 then SleepStep(w, d) else w
  }

  // ---------------------------------------------------------------------
  // The polling loop and the enrollment loop

  datatype PollResult = HasFreePlaces | Started | PollExhausted

  /** `ChecksAfter(log, from, t)`: every alert check logged from position
      `from` on happened after time `t`. */
  predicate ChecksAfter(log: seq<Event>, from: nat, t: int) {
    forall i :: from <= i < |log| && log[i].AlertChecked? ==> log[i].at > t
  }

  /** `__wait_for_free_places`: look for the booked-out alert; without it
      there are free places; with it, give up once the lesson has started,
      else sleep 30 seconds and look again. */
  function PollRun(w: World, ls: int): (r: (PollResult, World))
    ensures r.1.now >= w.now
    ensures r.0 == Started ==> r.1.now > ls
    ensures r.1.logins == w.logins && r.1.registers == w.registers
    ensures |w.log| <= |r.1.log| && r.1.log[..|w.log|] == w.log
    ensures ChecksAfter(r.1.log, |w.log|, w.now - 1)
    decreases |w.alerts|
  {
    var (found, w1) := AlertStep(w);
    match found
    case None => (PollExhausted, w1)
    case Some(bookedOut) =>
      if !bookedOut then (HasFreePlaces, w1)
      else if w1.now > ls then (Started, w1)
      else
        var r := PollRun(SleepStep(w1, RetryIntervalSeconds), ls);
        assert r.1.log[..|w.log|] == r.1.log[..|w1.log| + 1][..|w.log|];
        (r.0, r.1)
  }

  /** How many alert reports the loop can need before the lesson starts. */
  function PollBound(gap: int): nat {
    if gap < 0 then 0 else gap / RetryIntervalSeconds as int + 1
  }

  /** The polling loop ends: with enough reports it never runs out of
      them, because every booked-out round moves the clock 30 seconds on
      and the loop stops once the lesson start has passed. */
  lemma {:induction false} PollTerminates(w: World, ls: int)
    requires |w.alerts| > PollBound(ls - w.now)
    ensures PollRun(w, ls).0 != PollExhausted
    decreases |w.alerts|
  {
    var (found, w1) := AlertStep(w);
    if found.Some? && found.value && w1.now <= ls {
      var w2 := SleepStep(w1, RetryIntervalSeconds);
      assert ls - w2.now <= ls - w.now - RetryIntervalSeconds;
      PollTerminates(w2, ls);
    }
  }

  datatype EnrollError = Driver(error: DriverError) | LessonHasStarted

  /** How `enroll` ends. `Exhausted` is the model's own: the oracle ran out
      of reports while the source would still be waiting. */
  datatype Outcome = Enrolled | Raised(error: EnrollError) | Exhausted

  /** Checks after `t` from position `from` on, in a log that extends one
      with those checks up to its end. */
  lemma ChecksAfterExtend(log1: seq<Event>, log2: seq<Event>, from: nat, t: int)
    requires from <= |log1| <= |log2| && log2[..|log1|] == log1
    requires ChecksAfter(log1, from, t) && ChecksAfter(log2, |log1|, t)
    ensures ChecksAfter(log2, from, t)
  {
    forall i | from <= i < |log2| && log2[i].AlertChecked? ensures log2[i].at > t {
      if i < |log1| { assert log2[i] == log1[i]; }
    }
  }

  /** One round of `while not enrolled` and the rounds after it. */
  function EnrollLoop(w: World, es: int, ls: int): (r: (Outcome, World))
    ensures r.1.now >= w.now
    ensures r.0 == Raised(LessonHasStarted) ==> r.1.now > ls
    ensures |w.log| <= |r.1.log| && r.1.log[..|w.log|] == w.log
    ensures ChecksAfter(r.1.log, |w.log|, es)
    decreases |w.registers|
  {
    var (p, w1) := if es < w.now then PollRun(w, ls) else (HasFreePlaces, w);
    assert ChecksAfter(w1.log, |w.log|, es);
    match p
    case PollExhausted => (Exhausted, w1)
    case Started => (Raised(LessonHasStarted), w1)
    case HasFreePlaces =>
      var (login, w2) := LoginStep(w1);
      match login
      case None => (Exhausted, w2)
      case Some(Failure(e)) =>
        ChecksAfterExtend(w1.log, w2.log, |w.log|, es);
        (Raised(Driver(e)), w2)
      case Some(Success(_)) =>
        var (reg, w3) := RegisterStep(w2);
        ChecksAfterExtend(w1.log, w2.log, |w.log|, es);
        assert w3.log[..|w2.log|] == w2.log;
        ChecksAfterExtend(w2.log, w3.log, |w.log|, es);
        assert w3.log[..|w.log|] == w.log;
        match reg
        case None => (Exhausted, w3)
        case Some(Clickable(_)) => (Enrolled, w3)
        case Some(RegisterRaised(WaitTimedOut)) =>
          var r := EnrollLoop(w3, es, ls);
          assert r.1.log[..|w3.log|] == w3.log;
          assert r.1.log[..|w.log|] == r.1.log[..|w3.log|][..|w.log|];
          ChecksAfterExtend(w3.log, r.1.log, |w.log|, es);
          r
        case Some(RegisterRaised(e)) => (Raised(Driver(e)), w3)
  }

  /** `enroll`: log in once (its result unused), wait for the opening only
      when it lies ahead, then enter the loop. */
  function EnrollRun(w: World, es: int, ls: int): (r: (Outcome, World))
    ensures r.1.now >= w.now
    ensures r.0 == Raised(LessonHasStarted) ==> r.1.now > ls
    ensures ChecksAfter(r.1.log, |w.log|, es)
  {
    var (login, w1) := LoginStep(w);
    match login
    case None => (Exhausted, w1)
    case Some(Failure(e)) => (Raised(Driver(e)), w1)
    case Some(Success(_)) =>
      var w2 := if w1.now < es then WaitUntilStep(w1, es) else w1;
      EnrollLoop(w2, es, ls)
  }

  /** A successful enrollment consumed register reports that all timed
      out, and then one click. */
  lemma {:induction false} EnrolledAfterTimeouts(w: World, es: int, ls: int)
    requires EnrollLoop(w, es, ls).0 == Enrolled
    ensures var rest := EnrollLoop(w, es, ls).1.registers;
            var k := |w.registers| - |rest|;
            && 1 <= k <= |w.registers| && rest == w.registers[k..]
            && w.registers[k - 1].Clickable?
            && forall j :: 0 <= j < k - 1 ==> w.registers[j] == RegisterRaised(WaitTimedOut)
    decreases |w.registers|
  {
    EnrolledRound(w, es, ls);
    if w.registers[0].RegisterRaised? {
      var w3 := RoundWorld(w, es, ls);
      EnrolledAfterTimeouts(w3, es, ls);
      var rest := EnrollLoop(w3, es, ls).1.registers;
      var k' := |w3.registers| - |rest|;
      assert rest == w.registers[1..][k'..] == w.registers[k' + 1..];
      forall j | 0 <= j < k'
        ensures w.registers[j] == RegisterRaised(WaitTimedOut)
      {
        if j > 0 { assert w.registers[j] == w3.registers[j - 1]; }
      }
    }
  }

  /** The world after one round of the loop: the poll, one login and one
      register wait. */
  function RoundWorld(w: World, es: int, ls: int): World {
    var (p, w1) := if es < w.now then PollRun(w, ls) else (HasFreePlaces, w);
    var (login, w2) := LoginStep(w1);
    RegisterStep(w2).1
  }

  /** A round that ends in enrollment consumed a click; one that goes on
      consumed a timed-out wait and continues from `RoundWorld`. */
  lemma EnrolledRound(w: World, es: int, ls: int)
    requires EnrollLoop(w, es, ls).0 == Enrolled
    ensures w.registers != [] && RoundWorld(w, es, ls).registers == w.registers[1..]
    ensures w.registers[0].Clickable? || w.registers[0] == RegisterRaised(WaitTimedOut)
    ensures w.registers[0].Clickable? ==> EnrollLoop(w, es, ls).1 == RoundWorld(w, es, ls)
    ensures w.registers[0].RegisterRaised? ==> EnrollLoop(w, es, ls) == EnrollLoop(RoundWorld(w, es, ls), es, ls)
  {
    var (p, w1) := if es < w.now then PollRun(w, ls) else (HasFreePlaces, w);
    assert p == HasFreePlaces;
    var (login, w2) := LoginStep(w1);
    assert login.Some? && login.value.Success?;
    var (reg, w3) := RegisterStep(w2);
    assert w2.registers == w.registers;
    assert RoundWorld(w, es, ls) == w3;
  }

  /** Two oracles that differ only in where the logins redirect to: the
      same elapsed times and the same exceptions. */
  predicate SameLogins(a: seq<LoginObs>, b: seq<LoginObs>) {
    && |a| == |b|
    && forall i :: 0 <= i < |a| ==>
         (a[i].LoginRedirect? <==> b[i].LoginRedirect?)
         && (a[i].LoginRedirect? ==> a[i].elapsed == b[i].elapsed)
         && (a[i].LoginRaised? ==> a[i].error == b[i].error)
  }

  predicate AlikeWorlds(v: World, w: World) {
    v.(logins := w.logins) == w && SameLogins(v.logins, w.logins)
  }

  lemma {:induction false} PollIgnoresLogins(v: World, w: World, ls: int)
    requires AlikeWorlds(v, w)
    ensures PollRun(v, ls).0 == PollRun(w, ls).0
    ensures AlikeWorlds(PollRun(v, ls).1, PollRun(w, ls).1)
    decreases |w.alerts|
  {
    var (fv, v1) := AlertStep(v);
    var (fw, w1) := AlertStep(w);
    if fw.Some? && fw.value && w1.now <= ls {
      PollIgnoresLogins(SleepStep(v1, RetryIntervalSeconds), SleepStep(w1, RetryIntervalSeconds), ls);
    }
  }

  lemma LoginIgnoresUrl(v: World, w: World)
    requires AlikeWorlds(v, w)
    ensures LoginStep(v).0.Some? == LoginStep(w).0.Some?
    ensures LoginStep(v).0.Some? ==> LoginStep(v).0.value.Success? == LoginStep(w).0.value.Success?
    ensures LoginStep(v).0.Some? && LoginStep(v).0.value.Failure? ==> LoginStep(v).0.value == LoginStep(w).0.value
    ensures AlikeWorlds(LoginStep(v).1, LoginStep(w).1)
  {
    if w.logins != [] {
      assert forall i :: 1 <= i < |w.logins| ==> w.logins[1..][i - 1] == w.logins[i];
      assert forall i :: 1 <= i < |v.logins| ==> v.logins[1..][i - 1] == v.logins[i];
    }
  }

  lemma {:induction false} LoopIgnoresLoginResults(v: World, w: World, es: int, ls: int)
    requires AlikeWorlds(v, w)
    ensures EnrollLoop(v, es, ls).0 == EnrollLoop(w, es, ls).0
    ensures AlikeWorlds(EnrollLoop(v, es, ls).1, EnrollLoop(w, es, ls).1)
    decreases |w.registers|
  {
    if es < w.now {
      PollIgnoresLogins(v, w, ls);
    }
    var (p, v1) := if es < v.now then PollRun(v, ls) else (HasFreePlaces, v);
    var (q, w1) := if es < w.now then PollRun(w, ls) else (HasFreePlaces, w);
    LoginIgnoresUrl(v1, w1);
    var (login, v2) := LoginStep(v1);
    var (_, w2) := LoginStep(w1);
    var (reg, v3) := RegisterStep(v2);
    var (_, w3) := RegisterStep(w2);
    if p == HasFreePlaces && login.Some? && login.value.Success? && reg == Some(RegisterRaised(WaitTimedOut)) {
      LoopIgnoresLoginResults(v3, w3, es, ls);
    }
  }

  /** `enroll` ignores what the logins report: oracles that differ only in
      the addresses the logins end on give the same outcome at the same
      time, with the same calls made. */
  lemma LoginResultsIgnored(v: World, w: World, es: int, ls: int)
    requires AlikeWorlds(v, w)
    ensures EnrollRun(v, es, ls).0 == EnrollRun(w, es, ls).0
    ensures EnrollRun(v, es, ls).1.now == EnrollRun(w, es, ls).1.now
    ensures EnrollRun(v, es, ls).1.log == EnrollRun(w, es, ls).1.log
  {
    LoginIgnoresUrl(v, w);
    var (login, v1) := LoginStep(v);
    var (_, w1) := LoginStep(w);
    if login.Some? && login.value.Success? {
      var v2 := if v1.now < es then WaitUntilStep(v1, es) else v1;
      var w2 := if w1.now < es then WaitUntilStep(w1, es) else w1;
      LoopIgnoresLoginResults(v2, w2, es, ls);
    }
  }

  // ---------------------------------------------------------------------
  // AsvzEnroller

  class AsvzEnroller {
    const lessonUrl: string
    const creds: Credentials
    var lessonStart: Option<DateTime>
    var enrollmentStart: Option<DateTime>
    var lessonTitle: Option<string>
    var lessonLocation: Option<string>

    function Attributes(): Lesson
      reads this
    {
      Lesson(lessonStart, enrollmentStart, lessonTitle, lessonLocation)
    }

    constructor (lessonUrl: string, creds: Credentials)
      ensures this.lessonUrl == lessonUrl && this.creds == creds
      ensures Attributes() == Unset
    {
      this.lessonUrl := lessonUrl;
      this.creds := creds;
      lessonStart, enrollmentStart, lessonTitle, lessonLocation := None, None, None, None;
    }

    /** `setup`: read the lesson page and assign the attributes, in the
        order the source assigns them. */
    method Setup(page: LessonPage) returns (error: Option<SetupError>)
      modifies this
      ensures error == SetupRun(page).1
      ensures Attributes() == Overlay(old(Attributes()), SetupRun(page).0)
    {
      if page.notFound {
        return Some(LessonNotFound);
      }
      if page.interval.None? {
        return Some(NoSuchElement);
      }
      var raw := LessonStartText(page.interval.value);
      if raw.None? {
        return Some(NoComma);
      }
      var start := ParseLessonTime(raw.value);
      if start.None? {
        return Some(ParseFailed(raw.value));
      }
      lessonStart := start;
      var es := PreviousDay(start.value);
      if es.None? {
        return Some(Overflow);
      }
      enrollmentStart := es;
      if page.title.None? {
        return Some(NoSuchElement);
      }
      var title := page.title.value;
      if page.location.None? {
        return Some(NoSuchElement);
      }
      lessonLocation := page.location;
      lessonTitle := Some(title);
      error := None;
    }

    predicate Ready()
      reads this
    {
      Complete(Attributes())
    }

    /** `wait_until(enrollment_start)` */
    static method WaitUntil(env: Oracle, es: int)
      modifies env
      ensures env.State() == WaitUntilStep(old(env.State()), es)
    {
      var d := SleepSeconds(es, env.now);
      if d > 0 {
        env.Sleep(d);
      }
    }

    /** `__wait_for_free_places` */
    method WaitForFreePlaces(env: Oracle) returns (p: PollResult)
      requires Ready()
      modifies env
      ensures (p, env.State()) == PollRun(old(env.State()), Instant(lessonStart.value))
    {
      var ls := Instant(lessonStart.value);
      while true
        invariant PollRun(env.State(), ls) == PollRun(old(env.State()), ls)
        decreases |env.alerts|
      {
        var found := env.FindBookedOutAlert();
        if found.None? {
          return PollExhausted;
        }
        if !found.value {
          return HasFreePlaces;
        }
        if env.now > ls {
          return Started;
        }
        env.Sleep(RetryIntervalSeconds);
      }
    }

    /** `enroll` */
    method Enroll(env: Oracle) returns (r: Outcome)
      requires Ready()
      modifies env
      ensures (r, env.State()) ==
              EnrollRun(old(env.State()), Instant(enrollmentStart.value), Instant(lessonStart.value))
    {
      var es := Instant(enrollmentStart.value);
      var ls := Instant(lessonStart.value);
      var login := env.Login();
      if login.None? {
        return Exhausted;
      }
      if login.value.Failure? {
        return Raised(Driver(login.value.error));
      }
      if env.now < es {
        WaitUntil(env, es);
      }
      while true
        invariant EnrollLoop(env.State(), es, ls) == EnrollRun(old(env.State()), es, ls)
        decreases |env.registers|
      {
        if es < env.now {
          var p := WaitForFreePlaces(env);
          if p == PollExhausted {
            return Exhausted;
          }
          if p == Started {
            return Raised(LessonHasStarted);
          }
        }
        login := env.Login();
        if login.None? {
          return Exhausted;
        }
        if login.value.Failure? {
          return Raised(Driver(login.value.error));
        }
        var reg := env.AwaitRegister();
        if reg.None? {
          return Exhausted;
        }
        match reg.value {
          case Clickable(_) =>
            return Enrolled;
          case RegisterRaised(WaitTimedOut) =>
          case RegisterRaised(e) =>
            return Raised(Driver(e));
        }
      }
    }
  }

  datatype EnrollerError = NoOrganisation | SetupFailed(error: SetupError)

  /** `get_enroller`: credentials first (an unknown organisation raises
      before the page is read), then `setup`. */
  method GetEnroller(lessonUrl: string, username: string, password: string, org: string, page: LessonPage)
    returns (r: Result<AsvzEnroller, EnrollerError>)
    ensures org !in Organisations ==> r == Failure(NoOrganisation)
    ensures org in Organisations && SetupRun(page).1.Some? ==> r == Failure(SetupFailed(SetupRun(page).1.value))
    ensures org in Organisations && SetupRun(page).1.None? ==> r.Success?
    ensures r.Success? ==>
              && fresh(r.value) && r.value.Ready()
              && r.value.Attributes() == SetupRun(page).0
              && r.value.lessonUrl == lessonUrl
              && Some(r.value.creds) == NewCredentials(org, username, password)
  {
    var creds := NewCredentials(org, username, password);
    if creds.None? {
      return Failure(NoOrganisation);
    }
    var enroller := new AsvzEnroller(lessonUrl, creds.value);
    var error := enroller.Setup(page);
    if error.Some? {
      return Failure(SetupFailed(error.value));
    }
    return Success(enroller);
  }
}
