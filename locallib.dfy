/**
 * The scheduling and display rules of locallib.php: the session dates the
 * activity form generates, the meeting-link clean-up, the rounded time
 * differences, the status of upcoming sessions and the recording-table
 * pagination. Days and weekdays are UTC days.
 */
module LocalLib {
  import opened Wrappers
  import opened Query
  import opened Store
  import opened Lib

  const MinuteSeconds: int := 60
  const HourSeconds: int := 3600
  const WeekSeconds: int := 604800

  /** max(lo, min(hi, v)). */
  function Clamp(v: int, lo: int, hi: int): (r: int)
    requires lo <= hi
    ensures lo <= r <= hi
    ensures lo <= v <= hi ==> r == v
    ensures v < lo ==> r == lo
    ensures v > hi ==> r == hi
  {
    if v < lo then lo else if v > hi then hi else v
  }

  // ---------------------------------------------------------------------------
  // googlemeet_construct_events_data_for_add

  /** The weekday of t, 0 for Sunday (1 January 1970 was a Thursday). */
  function Weekday(t: int): (d: int)
    ensures 0 <= d < 7
  {
    (t / DaySeconds + 4) % 7
  }

  /** A difference that is a whole number of days. */
  predicate WholeDays(d: int)
  {
    d % DaySeconds == 0
  }

  /** The start of the week holding s, at the time of day of s; the week starts on Sunday or on Monday. */
  function StartWeek(s: int, sundayFirst: bool): (r: int)
    ensures r <= s < r + WeekSeconds && WholeDays(s - r)
  {
    var wday := Weekday(s);
    var back := if sundayFirst then wday else (if wday == 0 then 7 else wday) - 1;
    assert s - (s - back * DaySeconds) == DaySeconds * back;
    s - back * DaySeconds
  }

  /** The activity form fields the session dates come from; `days` holds the ticked weekdays, 0 for Sunday. */
  datatype Schedule = Schedule(
    googlemeetId: nat,
    eventDate: int,
    eventEndDate: int,
    startHour: int,
    startMinute: int,
    endHour: int,
    endMinute: int,
    addMultiply: bool,
    days: set<int>,
    period: int,
    sundayFirst: bool)

  /** A googlemeet_events row. */
  datatype Event = Event(googlemeetId: nat, eventDate: int, duration: int, timeModified: int)

  function StartTime(sch: Schedule): int
  {
    sch.startHour * HourSeconds + sch.startMinute * MinuteSeconds
  }

  function EndTime(sch: Schedule): int
  {
    sch.endHour * HourSeconds + sch.endMinute * MinuteSeconds
  }

  /** The first session: the event date at the start time. */
  function FirstDate(sch: Schedule): int
  {
    sch.eventDate + StartTime(sch)
  }

  /** The recurrence starts a day after the first session ... */
  function RepeatStart(sch: Schedule): int
  {
    FirstDate(sch) + DaySeconds
  }

  /** ... and stops before the end date at the end time. */
  function RepeatEnd(sch: Schedule): int
  {
    sch.eventEndDate + EndTime(sch)
  }

  /** The start of the k-th week window visited: the first week, advanced by `period` weeks each time. */
  function WindowStart(sch: Schedule, k: nat): int
  {
    if k == 0 then StartWeek(RepeatStart(sch), sch.sundayFirst) else WindowStart(sch, k - 1) + sch.period * WeekSeconds
  }

  ghost predicate InWindow(sch: Schedule, s: int, k: nat)
  {
    WindowStart(sch, k) <= s < WindowStart(sch, k) + WeekSeconds
  }

  /** The session on the day of s, at the start time. */
  function EventTime(sch: Schedule, s: int): int
  {
    Midnight(s) + StartTime(sch)
  }

  /**
   * A day s of the recurrence yields a session: recurrence is on, s is a
   * whole number of days into the range, lies in a visited week window, is
   * a ticked weekday, and its session is not in a holiday.
   */
  ghost predicate Eligible(sch: Schedule, holidays: seq<Holiday>, s: int)
  {
    && sch.addMultiply
    && RepeatStart(sch) <= s < RepeatEnd(sch)
    && WholeDays(s - RepeatStart(sch))
    && (exists k: nat :: InWindow(sch, s, k))
    && Weekday(s) in sch.days
    && !IsHoliday(EventTime(sch, s), holidays)
  }

  /** The row the function builds for a session. */
  function MakeEvent(sch: Schedule, date: int, now: int): Event
  {
    Event(sch.googlemeetId, date, EndTime(sch) - StartTime(sch), now)
  }

  /** The first session's row, unless it falls in a holiday. */
  function Lead(sch: Schedule, holidays: seq<Holiday>, now: int): (r: seq<Event>)
    ensures |r| <= 1
    ensures r == [] <==> IsHoliday(FirstDate(sch), holidays)
    ensures r != [] ==> r[0] == MakeEvent(sch, FirstDate(sch), now)
  {
    if IsHoliday(FirstDate(sch), holidays) then [] else [MakeEvent(sch, FirstDate(sch), now)]
  }

  /** Two moments a whole number of days apart and in order are at least a day apart. */
  lemma {:induction false} WholeDaysGap(a: int, b: int, c: int)
    requires a < b && WholeDays(a - c) && WholeDays(b - c)
    ensures b - a >= DaySeconds
  {
    assert a - c == DaySeconds * ((a - c) / DaySeconds);
    assert b - c == DaySeconds * ((b - c) / DaySeconds);
  }

  /** Adding a day keeps a whole number of days. */
  lemma {:induction false} WholeDaysStep(d: int)
    requires WholeDays(d)
    ensures WholeDays(d + DaySeconds)
  {
    assert d == DaySeconds * (d / DaySeconds);
    assert d + DaySeconds == DaySeconds * (d / DaySeconds + 1);
  }

  /** Adding whole weeks keeps a whole number of days. */
  lemma {:induction false} WholeDaysWeeks(d: int, m: nat)
    requires WholeDays(d)
    ensures WholeDays(d + m * WeekSeconds)
  {
    assert d == DaySeconds * (d / DaySeconds);
    assert m * WeekSeconds == DaySeconds * (7 * m);
    assert d + m * WeekSeconds == DaySeconds * (d / DaySeconds + 7 * m);
  }

  /** Windows visited later start later. */
  lemma {:induction false} WindowStartMono(sch: Schedule, k1: nat, k2: nat)
    requires sch.period >= 1 && k1 <= k2
    ensures WindowStart(sch, k1) <= WindowStart(sch, k2)
    decreases k2 - k1
  {
    if k1 < k2 {
      WindowStartMono(sch, k1, k2 - 1);
    }
  }

  /** A moment after the end of window k and before window k + 1 lies in no window. */
  lemma {:induction false} GapInNoWindow(sch: Schedule, k: nat, s: int)
    requires sch.period >= 1
    requires WindowStart(sch, k) + WeekSeconds <= s < WindowStart(sch, k + 1)
    ensures forall k': nat :: !InWindow(sch, s, k')
  {
    forall k': nat
      ensures !InWindow(sch, s, k')
    {
      if k' <= k {
        WindowStartMono(sch, k', k);
      } else {
        WindowStartMono(sch, k + 1, k');
      }
    }
  }

  /**
   * The state of the recurrence loop: `sdate` is a day of window `k` (or
   * the day its week ends), and the rows so far are the sessions of the
   * eligible days before `sdate`, in order.
   */
  ghost predicate Scanning(sch: Schedule, holidays: seq<Holiday>, now: int, sdate: int, startWeek: int, k: nat,
                           events: seq<Event>, sources: seq<int>)
  {
    && startWeek == WindowStart(sch, k)
    && startWeek <= sdate <= startWeek + WeekSeconds && WholeDays(sdate - startWeek)
    && RepeatStart(sch) <= sdate && WholeDays(sdate - RepeatStart(sch))
    && |sources| == |events|
    && (forall i :: 0 <= i < |events| ==> events[i] == MakeEvent(sch, EventTime(sch, sources[i]), now))
    && (forall i :: 0 <= i < |sources| ==> Eligible(sch, holidays, sources[i]) && sources[i] < sdate)
    && (forall i, j :: 0 <= i < j < |sources| ==> sources[i] < sources[j])
    && (forall s :: Eligible(sch, holidays, s) && s < sdate ==> s in sources)
  }

  /** One day of a week window: its session is added when the day is ticked and not in a holiday. */
  method ScanDay(sch: Schedule, holidays: seq<Holiday>, now: int, sdate: int, startWeek: int, ghost k: nat,
                 events: seq<Event>, ghost sources: seq<int>)
    returns (events': seq<Event>, ghost sources': seq<int>)
    requires sch.addMultiply && sch.period >= 1
    requires Scanning(sch, holidays, now, sdate, startWeek, k, events, sources)
    requires sdate < startWeek + WeekSeconds && sdate < RepeatEnd(sch)
    ensures Scanning(sch, holidays, now, sdate + DaySeconds, startWeek, k, events', sources')
  {
    var startDate := RepeatStart(sch);
    assert InWindow(sch, sdate, k);
    events', sources' := events, sources;
    if Weekday(sdate) in sch.days {
      var eventTime := Midnight(sdate) + StartTime(sch);
      if !IsHoliday(eventTime, holidays) {
        events' := events + [MakeEvent(sch, eventTime, now)];
        sources' := sources + [sdate];
      }
    }
    WholeDaysGap(sdate, startWeek + WeekSeconds, startWeek);
    WholeDaysStep(sdate - startDate);
    WholeDaysStep(sdate - startWeek);
    forall s | Eligible(sch, holidays, s) && s < sdate + DaySeconds
      ensures s in sources'
    {
      if sdate < s {
        WholeDaysGap(sdate, s, startDate);
      }
    }
  }

  /** The end of a week window: the scan jumps `period` weeks ahead, past days that lie in no window. */
  lemma {:induction false} ScanWeek(sch: Schedule, holidays: seq<Holiday>, now: int, sdate: int, startWeek: int, k: nat,
                                    events: seq<Event>, sources: seq<int>)
    requires sch.addMultiply && sch.period >= 1
    requires Scanning(sch, holidays, now, sdate, startWeek, k, events, sources)
    requires sdate == startWeek + WeekSeconds
    ensures Scanning(sch, holidays, now, startWeek + sch.period * WeekSeconds, startWeek + sch.period * WeekSeconds, k + 1, events, sources)
  {
    var startDate := RepeatStart(sch);
    var next := startWeek + sch.period * WeekSeconds;
    WholeDaysWeeks(sdate - startDate, sch.period - 1);
    assert next - startDate == sdate - startDate + (sch.period - 1) * WeekSeconds;
    forall s | Eligible(sch, holidays, s) && s < next
      ensures s in sources
    {
      if sdate <= s {
        GapInNoWindow(sch, k, s);
      }
    }
  }

  /**
   * The recurrence loop: `sdate` walks the days of a week window; when the
   * window ends, the window start advances by `period` weeks and `sdate`
   * jumps to it. The sessions are those of the eligible days, in order.
   */
  method RecurringEvents(sch: Schedule, holidays: seq<Holiday>, now: int) returns (events: seq<Event>, ghost sources: seq<int>)
    requires sch.addMultiply && sch.period >= 1
    ensures |sources| == |events|
    ensures forall i :: 0 <= i < |events| ==> events[i] == MakeEvent(sch, EventTime(sch, sources[i]), now)
    ensures forall i :: 0 <= i < |sources| ==> Eligible(sch, holidays, sources[i])
    ensures forall i, j :: 0 <= i < j < |sources| ==> sources[i] < sources[j]
    ensures forall s :: Eligible(sch, holidays, s) ==> s in sources
  {
    var endDate := RepeatEnd(sch);
    var sdate := RepeatStart(sch);
    var startWeek := StartWeek(sdate, sch.sundayFirst);
    ghost var k: nat := 0;
    events, sources := [], [];
    while sdate < endDate
      invariant Scanning(sch, holidays, now, sdate, startWeek, k, events, sources)
      decreases endDate - sdate, if sdate < startWeek + WeekSeconds then 0 else 1
    {
      if sdate < startWeek + WeekSeconds {
        events, sources := ScanDay(sch, holidays, now, sdate, startWeek, k, events, sources);
        sdate := sdate + DaySeconds;
      } else {
        ScanWeek(sch, holidays, now, sdate, startWeek, k, events, sources);
        startWeek := startWeek + sch.period * WeekSeconds;
        sdate := startWeek;
        k := k + 1;
      }
    }
  }

  /** Sessions of eligible days come in the order of the days. */
  lemma {:induction false} EventTimesIncrease(sch: Schedule, holidays: seq<Holiday>, a: int, b: int)
    requires Eligible(sch, holidays, a) && Eligible(sch, holidays, b) && a < b
    ensures EventTime(sch, a) < EventTime(sch, b)
  {
    WholeDaysGap(a, b, RepeatStart(sch));
  }

  /**
   * The recurring rows: in order of date, one for each eligible day, and
   * each the row of an eligible day.
   */
  ghost predicate RecurringSessions(sch: Schedule, holidays: seq<Holiday>, now: int, r: seq<Event>)
  {
    FromEligibleDays(sch, holidays, now, r) && CoversEligibleDays(sch, holidays, r) && DatesIncrease(r)
  }

  /** e is the row of the session of the eligible day s. */
  ghost predicate SessionOf(sch: Schedule, holidays: seq<Holiday>, now: int, s: int, e: Event)
  {
    Eligible(sch, holidays, s) && e == MakeEvent(sch, EventTime(sch, s), now)
  }

  /** e is the session of some eligible day. */
  ghost predicate IsSessionRow(sch: Schedule, holidays: seq<Holiday>, now: int, e: Event)
  {
    exists s :: SessionOf(sch, holidays, now, s, e)
  }

  /** Each row is the session of an eligible day. */
  ghost predicate FromEligibleDays(sch: Schedule, holidays: seq<Holiday>, now: int, r: seq<Event>)
  {
    forall i :: 0 <= i < |r| ==> IsSessionRow(sch, holidays, now, r[i])
  }

  /** Each eligible day has its session among the rows. */
  ghost predicate CoversEligibleDays(sch: Schedule, holidays: seq<Holiday>, r: seq<Event>)
  {
    forall s :: Eligible(sch, holidays, s) ==> exists i :: 0 <= i < |r| && r[i].eventDate == EventTime(sch, s)
  }

  /** The rows are in strictly increasing date order. */
  predicate DatesIncrease(r: seq<Event>)
  {
    forall i, j :: 0 <= i < j < |r| ==> r[i].eventDate < r[j].eventDate
  }

  /** Each row of the recurrence loop is the session of the eligible day it came from. */
  lemma {:induction false} SourcesEligible(sch: Schedule, holidays: seq<Holiday>, now: int, r: seq<Event>, sources: seq<int>)
    requires |sources| == |r|
    requires forall i :: 0 <= i < |r| ==> r[i] == MakeEvent(sch, EventTime(sch, sources[i]), now)
    requires forall i :: 0 <= i < |sources| ==> Eligible(sch, holidays, sources[i])
    ensures FromEligibleDays(sch, holidays, now, r)
  {
    forall i | 0 <= i < |r|
      ensures IsSessionRow(sch, holidays, now, r[i])
    {
      assert SessionOf(sch, holidays, now, sources[i], r[i]);
    }
  }

  /** Every eligible day the recurrence loop went through has its row. */
  lemma {:induction false} SourcesCover(sch: Schedule, holidays: seq<Holiday>, now: int, r: seq<Event>, sources: seq<int>)
    requires |sources| == |r|
    requires forall i :: 0 <= i < |r| ==> r[i] == MakeEvent(sch, EventTime(sch, sources[i]), now)
    requires forall s :: Eligible(sch, holidays, s) ==> s in sources
    ensures CoversEligibleDays(sch, holidays, r)
  {
    forall s | Eligible(sch, holidays, s)
      ensures exists i :: 0 <= i < |r| && r[i].eventDate == EventTime(sch, s)
    {
      var m :| 0 <= m < |sources| && sources[m] == s;
      assert r[m].eventDate == EventTime(sch, s);
    }
  }

  /** Days in increasing order give sessions in increasing order. */
  lemma {:induction false} SourcesInOrder(sch: Schedule, holidays: seq<Holiday>, now: int, r: seq<Event>, sources: seq<int>)
    requires |sources| == |r|
    requires forall i :: 0 <= i < |r| ==> r[i] == MakeEvent(sch, EventTime(sch, sources[i]), now)
    requires forall i :: 0 <= i < |sources| ==> Eligible(sch, holidays, sources[i])
    requires forall i, j :: 0 <= i < j < |sources| ==> sources[i] < sources[j]
    ensures DatesIncrease(r)
  {
    forall i, j | 0 <= i < j < |r|
      ensures r[i].eventDate < r[j].eventDate
    {
      EventTimesIncrease(sch, holidays, sources[i], sources[j]);
    }
  }

  /**
   * googlemeet_construct_events_data_for_add: the first session unless it is
   * a holiday, then, with recurrence on, one session for each eligible day,
   * in order.
   */
  method ConstructEvents(sch: Schedule, holidays: seq<Holiday>, now: int) returns (events: seq<Event>)
    requires sch.addMultiply ==> sch.period >= 1
    ensures var lead := Lead(sch, holidays, now);
      |lead| <= |events| && events[..|lead|] == lead && RecurringSessions(sch, holidays, now, events[|lead|..])
  {
    var eventDate := sch.eventDate + StartTime(sch);
    events := [];
    if !IsHoliday(eventDate, holidays) {
      events := events + [MakeEvent(sch, eventDate, now)];
    }
    var lead := events;
    if sch.addMultiply {
      var recurring;
      ghost var sources;
      recurring, sources := RecurringEvents(sch, holidays, now);
      SourcesEligible(sch, holidays, now, recurring, sources);
      SourcesCover(sch, holidays, now, recurring, sources);
      SourcesInOrder(sch, holidays, now, recurring, sources);
      events := events + recurring;
      assert events[|lead|..] == recurring;
    } else {
      assert events[|lead|..] == [];
    }
  }

  /** Every generated row belongs to the activity, has the same duration and is not in a holiday. */
  lemma {:induction false} SessionRows(sch: Schedule, holidays: seq<Holiday>, now: int, events: seq<Event>)
    requires var lead := Lead(sch, holidays, now);
      |lead| <= |events| && events[..|lead|] == lead && FromEligibleDays(sch, holidays, now, events[|lead|..])
    ensures forall i :: 0 <= i < |events| ==>
      events[i].googlemeetId == sch.googlemeetId && events[i].duration == EndTime(sch) - StartTime(sch) && events[i].timeModified == now
    ensures forall i :: 0 <= i < |events| ==> !IsHoliday(events[i].eventDate, holidays)
  {
    var lead := Lead(sch, holidays, now);
    var r := events[|lead|..];
    forall i | 0 <= i < |events|
      ensures events[i].googlemeetId == sch.googlemeetId && events[i].duration == EndTime(sch) - StartTime(sch)
      ensures events[i].timeModified == now && !IsHoliday(events[i].eventDate, holidays)
    {
      if i < |lead| {
        assert events[i] == lead[i];
      } else {
        SessionOfEligibleDay(sch, holidays, now, r, i - |lead|);
        assert events[i] == r[i - |lead|];
      }
    }
  }

  /** A recurring row has the activity, the duration and a date outside the holidays. */
  lemma {:induction false} SessionOfEligibleDay(sch: Schedule, holidays: seq<Holiday>, now: int, r: seq<Event>, i: nat)
    requires FromEligibleDays(sch, holidays, now, r) && i < |r|
    ensures r[i].googlemeetId == sch.googlemeetId && r[i].duration == EndTime(sch) - StartTime(sch) && r[i].timeModified == now
    ensures !IsHoliday(r[i].eventDate, holidays)
    ensures StartTime(sch) >= 0 ==> FirstDate(sch) < r[i].eventDate
  {
    assert IsSessionRow(sch, holidays, now, r[i]);
    var s :| SessionOf(sch, holidays, now, s, r[i]);
  }

  /** With a start time of day that is not negative, the first session comes before every recurring one. */
  lemma {:induction false} LeadBeforeRecurring(sch: Schedule, holidays: seq<Holiday>, now: int, r: seq<Event>, j: nat)
    requires FromEligibleDays(sch, holidays, now, r) && j < |r|
    requires StartTime(sch) >= 0 && Lead(sch, holidays, now) != []
    ensures Lead(sch, holidays, now)[0].eventDate < r[j].eventDate
  {
    SessionOfEligibleDay(sch, holidays, now, r, j);
  }

  /** With a start time of day that is not negative, all generated rows come in strictly increasing date order. */
  lemma {:induction false} SessionsInOrder(sch: Schedule, holidays: seq<Holiday>, now: int, events: seq<Event>)
    requires var lead := Lead(sch, holidays, now);
      && |lead| <= |events| && events[..|lead|] == lead
      && FromEligibleDays(sch, holidays, now, events[|lead|..]) && DatesIncrease(events[|lead|..])
    requires StartTime(sch) >= 0
    ensures DatesIncrease(events)
  {
    var lead := Lead(sch, holidays, now);
    var n := |lead|;
    var r := events[n..];
    forall i, j | 0 <= i < j < |events|
      ensures events[i].eventDate < events[j].eventDate
    {
      assert events[j] == r[j - n];
      if i < n {
        assert events[i] == lead[0];
        LeadBeforeRecurring(sch, holidays, now, r, j - n);
      } else {
        assert events[i] == r[i - n];
      }
    }
  }

  // ---------------------------------------------------------------------------
  // googlemeet_clear_url

  /** The literal part of the pattern, before the three code groups. */
  const MeetHost: string := "meet.google.com/"

  /** The length of a match: the host part, then groups of 3, 4 and 3 characters joined by hyphens. */
  const MatchLength: nat := 28

  predicate IsAlnum(c: char)
  {
    'a' <= c <= 'z' || 'A' <= c <= 'Z' || '0' <= c <= '9'
  }

  /**
   * Whether character c matches position j of the pattern. An unescaped
   * dot matches any character but a newline; `anyDot` says whether the dots
   * of the host are read that way (as written) or as literal dots.
   */
  predicate PatternChar(j: nat, c: char, anyDot: bool)
    requires j < MatchLength
  {
    if j < |MeetHost| then
      (if MeetHost[j] == '.' && anyDot then c != '\n' else c == MeetHost[j])
    else if j == 19 || j == 24 then c == '-'
    else IsAlnum(c)
  }

  /** The 28 characters m match the pattern. */
  predicate IsMatch(m: string, anyDot: bool)
  {
    |m| == MatchLength && forall j :: 0 <= j < MatchLength ==> PatternChar(j, m[j], anyDot)
  }

  /** The pattern matches url at position i. */
  predicate MatchesAt(url: string, i: nat, anyDot: bool)
  {
    i + MatchLength <= |url| && IsMatch(url[i..i + MatchLength], anyDot)
  }

  /** The leftmost match at or after position i. */
  function FirstMatchFrom(url: string, i: nat, anyDot: bool): (r: Option<nat>)
    ensures r.Some? ==> i <= r.value && MatchesAt(url, r.value, anyDot)
    ensures r.Some? ==> forall j: nat :: i <= j < r.value ==> !MatchesAt(url, j, anyDot)
    ensures r.None? ==> forall j: nat :: i <= j ==> !MatchesAt(url, j, anyDot)
    decreases |url| - i
  {
    if i + MatchLength > |url| then None
    else if MatchesAt(url, i, anyDot) then Some(i)
    else FirstMatchFrom(url, i + 1, anyDot)
  }

  /** googlemeet_clear_url as written: the dots of the host match any character. */
  function ClearUrlAsWritten(url: string): (r: Option<string>)
    ensures r.Some? <==> exists i: nat :: MatchesAt(url, i, true)
    ensures r.Some? ==> |r.value| == 8 + MatchLength && r.value[..8] == "https://"
    ensures r.Some? ==> exists i: nat ::
      && MatchesAt(url, i, true)
      && (forall j: nat :: j < i ==> !MatchesAt(url, j, true))
      && r.value == "https://" + url[i..i + MatchLength]
  {
    match FirstMatchFrom(url, 0, true)
    case None => None
    case Some(i) => Some("https://" + url[i..i + MatchLength])
  }

  /** googlemeet_clear_url with literal dots: "https://" and the first Google Meet link in url, or null. */
  function ClearUrl(url: string): (r: Option<string>)
    ensures r.Some? <==> exists i: nat :: MatchesAt(url, i, false)
    ensures r.Some? ==> |r.value| == 8 + MatchLength && r.value[..8 + |MeetHost|] == "https://" + MeetHost
    ensures r.Some? ==> MatchesAt(r.value, 8, false)
    ensures r.Some? ==> exists i: nat ::
      && MatchesAt(url, i, false)
      && (forall j: nat :: j < i ==> !MatchesAt(url, j, false))
      && r.value == "https://" + url[i..i + MatchLength]
  {
    match FirstMatchFrom(url, 0, false)
    case None => None
    case Some(i) =>
      var m := url[i..i + MatchLength];
      var link := "https://" + m;
      assert link[8..8 + MatchLength] == m;
      assert m[..|MeetHost|] == MeetHost by {
        forall j | 0 <= j < |MeetHost| ensures m[j] == MeetHost[j] {
          assert PatternChar(j, m[j], false);
        }
      }
      assert link[..8 + |MeetHost|] == "https://" + m[..|MeetHost|];
      Some(link)
  }

  /** A link whose host has other characters where the dots of meet.google.com belong. */
  const Lookalike: string := "meetXgoogleYcom/abc-defg-hij"

  /** With the dots unescaped, a lookalike host passes as a Google Meet link; with literal dots it does not. */
  lemma LookalikeHost()
    ensures ClearUrlAsWritten(Lookalike) == Some("https://" + Lookalike)
    ensures ClearUrl(Lookalike) == None
  {
    LookalikePasses(Lookalike);
    LookalikeRejected(Lookalike);
  }

  lemma {:induction false} LookalikePasses(url: string)
    requires url == Lookalike
    ensures ClearUrlAsWritten(url) == Some("https://" + url)
  {
    assert url[0..MatchLength] == url;
    assert IsMatch(url, true);
    assert FirstMatchFrom(url, 0, true) == Some(0);
  }

  lemma {:induction false} LookalikeRejected(url: string)
    requires url == Lookalike
    ensures ClearUrl(url) == None
  {
    assert !PatternChar(4, url[4], false);
    assert url[0..MatchLength] == url;
    assert !MatchesAt(url, 0, false);
    assert FirstMatchFrom(url, 1, false) == None;
    assert FirstMatchFrom(url, 0, false) == None;
  }

  /** Cleaning a cleaned link gives it back. */
  lemma {:induction false} ClearUrlIdempotent(url: string)
    requires ClearUrl(url).Some?
    ensures ClearUrl(ClearUrl(url).value) == ClearUrl(url)
  {
    var link := ClearUrl(url).value;
    forall i: nat | i < 8
      ensures !MatchesAt(link, i, false)
    {
      if i + MatchLength <= |link| {
        assert link[i] == link[..8][i];
        assert link[i..i + MatchLength][0] == link[i];
        assert !PatternChar(0, link[i], false);
      }
    }
    assert FirstMatchFrom(link, 0, false) == Some(8);
    assert link[8..8 + MatchLength] == link[8..];
    assert "https://" + link[8..] == link;
  }

  // ---------------------------------------------------------------------------
  // googlemeet_format_time_diff

  datatype TimeUnit = Minutes | Hours | Days

  /** A rounded amount of a unit, as the event_time_* strings show it. */
  datatype TimeDiff = TimeDiff(amount: int, unit: TimeUnit)

  function UnitSeconds(u: TimeUnit): int
  {
    match u
    case Minutes => MinuteSeconds
    case Hours => HourSeconds
    case Days => DaySeconds
  }

  function Abs(x: int): int
  {
    if x < 0 then -x else x
  }

  /**
   * googlemeet_format_time_diff: at least one minute, then the largest of
   * minutes, hours and days that fits, rounded half up (round() of a
   * non-negative quotient).
   */
  function FormatTimeDiff(seconds: int): (r: TimeDiff)
    ensures r.amount >= 1
    ensures Abs(seconds) < MinuteSeconds ==> r == TimeDiff(1, Minutes)
    ensures Abs(seconds) >= MinuteSeconds ==>
      2 * Abs(r.amount * UnitSeconds(r.unit) - Abs(seconds)) <= UnitSeconds(r.unit)
    ensures Abs(seconds) >= MinuteSeconds ==>
      2 * r.amount * UnitSeconds(r.unit) <= 2 * Abs(seconds) + UnitSeconds(r.unit) < 2 * (r.amount + 1) * UnitSeconds(r.unit)
    ensures r.unit == Minutes <==> Abs(seconds) < HourSeconds
    ensures r.unit == Days <==> Abs(seconds) >= DaySeconds
    ensures r.unit == Minutes ==> r.amount <= 60
    ensures r.unit == Hours ==> r.amount <= 24
  {
    var s := Abs(seconds);
    if s < MinuteSeconds then TimeDiff(1, Minutes)
    else if s < HourSeconds then TimeDiff((s + MinuteSeconds / 2) / MinuteSeconds, Minutes)
    else if s < DaySeconds then TimeDiff((s + HourSeconds / 2) / HourSeconds, Hours)
    else TimeDiff((s + DaySeconds / 2) / DaySeconds, Days)
  }

  /** A minute and a half rounds up to two minutes, as round() does at the halfway point. */
  lemma HalfwayRoundsUp()
    ensures FormatTimeDiff(90) == TimeDiff(2, Minutes)
    ensures FormatTimeDiff(5400) == TimeDiff(2, Hours)
  {
  }

  /** Only the size of the difference matters. */
  lemma {:induction false} FormatTimeDiffSymmetric(seconds: int)
    ensures FormatTimeDiff(-seconds) == FormatTimeDiff(seconds)
  {
    assert Abs(-seconds) == Abs(seconds);
  }

  // ---------------------------------------------------------------------------
  // googlemeet_get_upcoming_events

  /** The four statuses of an upcoming session. */
  datatype EventStatus = CancelledOn(reason: string) | Live | Soon | Scheduled

  /** How long before the start a session counts as soon. */
  const SoonSeconds: int := 1800

  /** The status of a session from `start` to `end` at `now`; a cancelled day wins. */
  function Classify(start: int, end: int, now: int, cancelled: seq<Cancelled>): (st: EventStatus)
    ensures st.CancelledOn? <==> IsCancelled(start, cancelled).Some?
    ensures st.CancelledOn? ==> st.reason == IsCancelled(start, cancelled).value.reason
  {
    match IsCancelled(start, cancelled)
    case Some(c) => CancelledOn(c.reason)
    case None =>
      if now >= start && now < end then Live
      else if 0 < start - now <= SoonSeconds then Soon
      else Scheduled
  }

  /**
   * For a session that has not ended and whose day is not cancelled, the
   * status depends only on the start: live once started, soon within half
   * an hour, scheduled beyond.
   */
  lemma {:induction false} StatusByStart(start: int, end: int, now: int, cancelled: seq<Cancelled>)
    requires end > now && IsCancelled(start, cancelled).None?
    ensures Classify(start, end, now, cancelled) == Live <==> start <= now
    ensures Classify(start, end, now, cancelled) == Soon <==> now < start <= now + SoonSeconds
    ensures Classify(start, end, now, cancelled) == Scheduled <==> start > now + SoonSeconds
  {
  }

  /** One upcoming session as the block shows it. */
  datatype Upcoming = Upcoming(
    timestamp: int,
    duration: int,
    today: bool,
    durationFormatted: TimeDiff,
    status: EventStatus,
    timeInfo: Option<TimeDiff>)

  /** The block entry of a session: the time since start when live, the time to start otherwise, nothing when cancelled. */
  function Describe(e: Event, now: int, cancelled: seq<Cancelled>): (u: Upcoming)
    ensures u.timestamp == e.eventDate && u.duration == e.duration
    ensures u.today <==> Midnight(now) == Midnight(e.eventDate)
    ensures u.status == Classify(e.eventDate, e.eventDate + e.duration, now, cancelled)
    ensures u.timeInfo.None? <==> u.status.CancelledOn?
    ensures u.status == Live ==> u.timeInfo == Some(FormatTimeDiff(now - e.eventDate))
    ensures u.status == Soon || u.status == Scheduled ==> u.timeInfo == Some(FormatTimeDiff(e.eventDate - now))
  {
    var status := Classify(e.eventDate, e.eventDate + e.duration, now, cancelled);
    var info := match status
      case CancelledOn(_) => None
      case Live => Some(FormatTimeDiff(now - e.eventDate))
      case _ => Some(FormatTimeDiff(e.eventDate - now));
    Upcoming(e.eventDate, e.duration, Midnight(now) == Midnight(e.eventDate), FormatTimeDiff(e.duration), status, info)
  }

  /** The query's condition: the activity's sessions that have not ended. */
  predicate NotEnded(e: Event, googlemeetId: nat, now: int)
  {
    e.googlemeetId == googlemeetId && e.eventDate + e.duration > now
  }

  /** The googlemeet_events rows the query keeps, in table order. */
  function NotEndedRows(rows: seq<Event>, googlemeetId: nat, now: int): (r: seq<Event>)
    ensures forall e :: e in r <==> e in rows && NotEnded(e, googlemeetId, now)
  {
    if rows == [] then []
    else
      var rest := NotEndedRows(rows[1..], googlemeetId, now);
      assert forall e :: e in rows <==> e == rows[0] || e in rows[1..];
      if NotEnded(rows[0], googlemeetId, now) then [rows[0]] + rest else rest
  }

  /** The ORDER BY eventdate key. */
  function EventDateKey(): (key: Event -> int)
    ensures forall e :: key(e) == e.eventDate
  {
    (e: Event) => e.eventDate
  }

  /** Sorting by the key is ORDER BY eventdate ASC. */
  lemma EventDateKeyOrder(s: seq<Event>)
    ensures SortedBy(s, EventDateKey()) <==> forall i, j :: 0 <= i < j < |s| ==> s[i].eventDate <= s[j].eventDate
  {
  }

  /** The sessions the query returns: not ended, earliest first, at most the clamped count. */
  function Soonest(rows: seq<Event>, googlemeetId: nat, now: int, maxEvents: int): (r: seq<Event>)
    ensures 1 <= |r| <= 10 || r == []
    ensures |r| <= Clamp(maxEvents, 1, 10)
    ensures r == [] <==> forall e :: e in rows ==> !NotEnded(e, googlemeetId, now)
    ensures forall i :: 0 <= i < |r| ==> r[i] in rows && NotEnded(r[i], googlemeetId, now)
    ensures forall i, j :: 0 <= i < j < |r| ==> r[i].eventDate <= r[j].eventDate
    ensures var n := |NotEndedRows(rows, googlemeetId, now)|;
      |r| == if n < Clamp(maxEvents, 1, 10) then n else Clamp(maxEvents, 1, 10)
    ensures forall e :: e in rows && NotEnded(e, googlemeetId, now) && e !in r ==>
      forall i :: 0 <= i < |r| ==> r[i].eventDate <= e.eventDate
  {
    var kept := NotEndedRows(rows, googlemeetId, now);
    var r := Window(SortBy(kept, EventDateKey()), 0, Clamp(maxEvents, 1, 10));
    SortedPage(kept, EventDateKey(), Clamp(maxEvents, 1, 10));
    assert kept == [] <==> forall e :: e in rows ==> !NotEnded(e, googlemeetId, now) by {
      if kept != [] {
        assert kept[0] in kept;
      }
    }
    r
  }

  /** googlemeet_get_upcoming_events: the block entries of the soonest sessions, earliest first. */
  method GetUpcomingEvents(rows: seq<Event>, googlemeetId: nat, maxEvents: int, cancelled: seq<Cancelled>, now: int)
    returns (upcoming: seq<Upcoming>)
    ensures var soonest := Soonest(rows, googlemeetId, now, maxEvents);
      |upcoming| == |soonest| && forall i :: 0 <= i < |upcoming| ==> upcoming[i] == Describe(soonest[i], now, cancelled)
  {
    upcoming := DescribeEach(Soonest(rows, googlemeetId, now, maxEvents), now, cancelled);
  }

  /** The foreach of googlemeet_get_upcoming_events: one block entry per session, in order. */
  method DescribeEach(events: seq<Event>, now: int, cancelled: seq<Cancelled>) returns (upcoming: seq<Upcoming>)
    ensures |upcoming| == |events| && forall i :: 0 <= i < |upcoming| ==> upcoming[i] == Describe(events[i], now, cancelled)
  {
    upcoming := [];
    for i := 0 to |events|
      invariant |upcoming| == i
      invariant forall k :: 0 <= k < i ==> upcoming[k] == Describe(events[k], now, cancelled)
    {
      upcoming := upcoming + [Describe(events[i], now, cancelled)];
    }
  }

  /** No listed session has ended, and only a session under way is live. */
  lemma {:induction false} UpcomingStatuses(rows: seq<Event>, googlemeetId: nat, maxEvents: int, cancelled: seq<Cancelled>, now: int, i: nat)
    requires i < |Soonest(rows, googlemeetId, now, maxEvents)|
    ensures var e := Soonest(rows, googlemeetId, now, maxEvents)[i];
      var st := Describe(e, now, cancelled).status;
      && (st == Live <==> IsCancelled(e.eventDate, cancelled).None? && e.eventDate <= now)
      && (st == Scheduled ==> e.eventDate > now + SoonSeconds)
  {
    var e := Soonest(rows, googlemeetId, now, maxEvents)[i];
    if IsCancelled(e.eventDate, cancelled).None? {
      StatusByStart(e.eventDate, e.eventDate + e.duration, now, cancelled);
    }
  }

  // ---------------------------------------------------------------------------
  // Pagination of the recordings table in googlemeet_print_recordings

  /** ceil(a / b) for a positive b. */
  function CeilDiv(a: nat, b: int): (q: nat)
    requires b >= 1
    ensures a == 0 <==> q == 0
    ensures a > 0 ==> (q - 1) * b < a <= q * b
    decreases a
  {
    if a == 0 then 0
    else if a <= b then 1
    else
      var q' := CeilDiv(a - b, b);
      assert (q' + 1) * b == q' * b + b;
      q' + 1
  }

  /** a <= b scales to a * m <= b * m. */
  lemma {:induction false} MulMono(a: int, b: int, m: nat)
    requires a <= b
    ensures a * m <= b * m
    decreases m
  {
    if m > 0 {
      MulMono(a, b, m - 1);
      assert a * m == a * (m - 1) + a;
      assert b * m == b * (m - 1) + b;
    }
  }

  /** A page that exists starts before the end of the recordings, and only the last page reaches it. */
  lemma {:induction false} OffsetBounds(page: nat, perPage: int, totalPages: nat, total: nat)
    requires perPage >= 1 && totalPages == CeilDiv(total, perPage)
    requires total > 0 ==> page < totalPages
    ensures total > 0 ==> page * perPage < total
    ensures page + 1 < totalPages ==> page * perPage + perPage < total
  {
    if total > 0 {
      MulMono(page, totalPages - 1, perPage);
    }
    if page + 1 < totalPages {
      MulMono(page + 1, totalPages - 1, perPage);
      assert (page + 1) * perPage == page * perPage + perPage;
    }
  }

  /** The first row of a page: the page number times the page size. */
  function PageOffset(page: nat, perPage: int, totalPages: nat, total: nat): (offset: nat)
    requires perPage >= 1 && totalPages == CeilDiv(total, perPage)
    requires total > 0 ==> page < totalPages
    ensures offset == page * perPage
    ensures total > 0 ==> offset < total
    ensures page + 1 < totalPages ==> offset + perPage < total
  {
    OffsetBounds(page, perPage, totalPages, total);
    page * perPage
  }

  /** The pagination of the recordings table. */
  datatype Pagination = Pagination(
    perPage: int,
    page: int,
    offset: int,
    totalPages: nat,
    start: int,
    end: int,
    hasPagination: bool,
    hasPrevious: bool,
    hasNext: bool)

  /**
   * The pagination arithmetic: the page size is the setting clamped to
   * [1, 20] (5 when unset), the page is clamped to the existing pages, and
   * the shown range runs from offset + 1 to the end of the page or of the
   * recordings.
   */
  function Paginate(maxRecordings: Option<int>, requestedPage: int, total: nat): (p: Pagination)
    ensures 1 <= p.perPage <= 20
    ensures maxRecordings.None? ==> p.perPage == 5
    ensures maxRecordings.Some? && 1 <= maxRecordings.value <= 20 ==> p.perPage == maxRecordings.value
    ensures p.totalPages == 0 <==> total == 0
    ensures 0 <= p.page && (total > 0 ==> p.page < p.totalPages) && (total == 0 ==> p.page == 0)
    ensures 0 <= requestedPage < p.totalPages ==> p.page == requestedPage
    ensures total > 0 ==> 0 <= p.offset < total && 1 <= p.start <= p.end <= total && p.end - p.start < p.perPage
    ensures total == 0 ==> p.start == 0 && p.end == 0
    ensures p.end == total ==> p.page + 1 >= p.totalPages
    ensures p.hasPagination <==> p.totalPages > 1
    ensures p.hasPrevious <==> p.page > 0
    ensures p.hasNext <==> p.page + 1 < p.totalPages
    ensures p.perPage == Clamp(maxRecordings.GetOr(5), 1, 20)
    ensures p.totalPages == CeilDiv(total, p.perPage)
    ensures p.page == Clamp(requestedPage, 0, if p.totalPages == 0 then 0 else p.totalPages - 1)
    ensures p.offset == p.page * p.perPage
    ensures p.start == (if total > 0 then p.offset + 1 else 0)
    ensures p.end == (if p.offset + p.perPage < total then p.offset + p.perPage else total)
  {
    var perPage := Clamp(maxRecordings.GetOr(5), 1, 20);
    var page := if requestedPage < 0 then 0 else requestedPage;
    var totalPages := CeilDiv(total, perPage);
    var lastPage := if totalPages - 1 < 0 then 0 else totalPages - 1;
    var page := if page < lastPage then page else lastPage;
    var offset := PageOffset(page, perPage, totalPages, total);
    var start := if total > 0 then offset + 1 else 0;
    var end := if offset + perPage < total then offset + perPage else total;
    Pagination(perPage, page, offset, totalPages, start, end, totalPages > 1, page > 0, page < totalPages - 1)
  }

  /** A PHP number whose type matters: `===` never equates an int with a float. */
  datatype PhpNumber = IntValue(value: int) | FloatValue(value: int)

  /**
   * The page as written at locallib.php:264: the bound max(0, ceil(...) - 1)
   * is a float unless max() keeps its integer 0, and min() keeps its first
   * argument unless the second is strictly smaller.
   */
  function ClampedPageAsWritten(page: nat, totalPages: nat): (r: PhpNumber)
    ensures r.value == if page < totalPages then page else if totalPages == 0 then 0 else totalPages - 1
    ensures r.FloatValue? <==> 2 <= totalPages <= page
  {
    var bound := if totalPages <= 1 then IntValue(0) else FloatValue(totalPages - 1);
    if bound.value < page then bound else IntValue(page)
  }

  /** The `active` flag as written: the strict comparison of the int `$i` with the clamped page. */
  predicate ActiveAsWritten(i: nat, page: PhpNumber)
  {
    page == IntValue(i)
  }

  /** A page past the last of two or more pages leaves every link inactive. */
  lemma {:induction false} PastLastPageNoActiveLink()
    ensures ClampedPageAsWritten(5, 2) == FloatValue(1)
    ensures !ActiveAsWritten(0, ClampedPageAsWritten(5, 2)) && !ActiveAsWritten(1, ClampedPageAsWritten(5, 2))
  {
  }

  /** One link of the page list: its number, the page it opens, and whether it is the current one. */
  datatype PageLink = PageLink(number: int, page: int, active: bool)

  /** The page links of googlemeet_print_recordings: one per page, only the current one active. */
  method PageLinks(totalPages: nat, page: int) returns (links: seq<PageLink>)
    ensures |links| == totalPages
    ensures forall i :: 0 <= i < totalPages ==> links[i].page == i && links[i].number == i + 1
    ensures forall i :: 0 <= i < totalPages ==> (links[i].active <==> i == page)
  {
    links := [];
    for i := 0 to totalPages
      invariant |links| == i
      invariant forall k :: 0 <= k < i ==> links[k] == PageLink(k + 1, k, k == page)
    {
      links := links + [PageLink(i + 1, i, i == page)];
    }
  }
}
