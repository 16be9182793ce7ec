/**
 * The AI analysis service (classes/ai_service.php): one analysis row per
 * recording, moved between pending, processing, completed and failed, with
 * background work queued at most once per (recording, analysis) pair.
 */
module AiService {
  import opened Wrappers
  import opened Store
  import opened Gemini

  /** The analysis object the service hands back (a row, or the object it built). */
  datatype AnalysisView = AnalysisView(
    id: nat,
    recordingId: nat,
    status: Status,
    summary: Option<string>,
    keypoints: seq<string>,
    topics: seq<string>,
    transcript: Option<string>,
    language: Option<string>,
    error: Option<string>,
    aiModel: Option<string>,
    timeCreated: Option<int>,
    timeModified: int)

  /** A stored row with the given lists in place of its JSON columns. */
  function WithLists(id: nat, row: AnalysisRow, keypoints: seq<string>, topics: seq<string>): AnalysisView
  {
    AnalysisView(id, row.recordingId, row.status, row.summary, keypoints, topics, row.transcript,
                 row.language, row.error, row.aiModel, Some(row.timeCreated), row.timeModified)
  }

  /** A stored row with its lists decoded; a NULL or empty list reads as []. */
  function Stored(id: nat, row: AnalysisRow): AnalysisView
  {
    WithLists(id, row, row.keypoints.GetOr([]), row.topics.GetOr([]))
  }

  /** The row generate_analysis writes when it starts (or restarts) the work. */
  function Restarted(existing: Option<AnalysisRow>, recordingId: nat, now: int): (row: AnalysisRow)
    ensures row.status == Processing && row.error.None? && row.timeModified == now
    ensures existing.Some? ==> row == existing.value.(status := Processing, error := None, timeModified := now)
    ensures existing.None? ==> row.recordingId == recordingId && row.timeCreated == now && row.summary.None?
  {
    match existing
    case Some(row) => row.(status := Processing, error := None, timeModified := now)
    case None => AnalysisRow(recordingId, None, None, None, None, None, Processing, None, None, now, now)
  }

  /** generate_analysis returns the stored row without writing: completed, or still processing, and no regeneration asked. */
  predicate Settled(existing: Option<AnalysisRow>, regenerate: bool)
  {
    existing.Some? && !regenerate && existing.value.status in {Completed, Processing}
  }

  const RecordingsTable: string := "googlemeet_recordings"

  /** The rows of a table whose status is pending. */
  function PendingIds(t: map<nat, AnalysisRow>): (s: set<nat>)
    ensures forall id :: id in s <==> id in t && t[id].status == Pending
  {
    set id | id in t && t[id].status == Pending
  }

  /**
   * What get_records(..., ['status' => 'pending'], 'timecreated ASC', '*', 0, limit)
   * may return: distinct pending rows, oldest first, as many as the limit
   * allows (0 means no limit), and none left out that is older than one taken.
   */
  predicate IsPendingBatch(t: map<nat, AnalysisRow>, limit: nat, ids: seq<nat>)
  {
    var all := PendingIds(t);
    (forall i :: 0 <= i < |ids| ==> ids[i] in all)
    && (forall i, j :: 0 <= i < j < |ids| ==> ids[i] != ids[j])
    && (forall i, j :: 0 <= i < j < |ids| ==> t[ids[i]].timeCreated <= t[ids[j]].timeCreated)
    && |ids| == (if limit == 0 || |all| <= limit then |all| else limit)
    && (forall i, id :: 0 <= i < |ids| && id in all && id !in ids ==> t[ids[i]].timeCreated <= t[id].timeCreated)
  }

  /** A non-empty set of ids has a least element. */
  lemma {:induction false} LeastExists(s: set<nat>)
    requires s != {}
    ensures exists x :: x in s && forall y :: y in s ==> x <= y
  {
    var x0 :| x0 in s;
    LeastFrom(s, x0, 0);
  }

  /** Counting up from a lower bound of `s` reaches its least element no later than at `x0`. */
  lemma {:induction false} LeastFrom(s: set<nat>, x0: nat, n: nat)
    requires x0 in s && forall y :: y in s ==> n <= y
    ensures exists x :: x in s && forall y :: y in s ==> x <= y
    decreases x0 - n
  {
    if n in s {
      assert n in s && forall y :: y in s ==> n <= y;
    } else {
      LeastFrom(s, x0, n + 1);
    }
  }

  /** A row of `s` created no later than any other row of `s`. */
  function Oldest(t: map<nat, AnalysisRow>, s: set<nat>): (oldest: nat)
    requires s != {} && s <= t.Keys
    ensures oldest in s && forall j :: j in s ==> t[oldest].timeCreated <= t[j].timeCreated
    decreases |s|
  {
    LeastExists(s);
    var x :| x in s && forall y :: y in s ==> x <= y;
    if s == {x} then x
    else
      var y := Oldest(t, s - {x});
      if t[x].timeCreated <= t[y].timeCreated then x else y
  }

  /** The analyses restarted in place: the listed rows become processing at `now`, the others are kept. */
  function Bump(t: map<nat, AnalysisRow>, restarted: set<nat>, now: int): (r: map<nat, AnalysisRow>)
    ensures r.Keys == t.Keys
    ensures forall id :: id in t ==> r[id].recordingId == t[id].recordingId
  {
    map id | id in t :: if id in restarted then Restarted(Some(t[id]), t[id].recordingId, now) else t[id]
  }

  /** Restarting rows in place keeps one analysis per recording. */
  lemma {:induction false} BumpValid(t: map<nat, AnalysisRow>, restarted: set<nat>, now: int)
    requires OnePerRecording(t)
    ensures OnePerRecording(Bump(t, restarted, now))
  {
    var r := Bump(t, restarted, now);
    forall a, b | a in r && b in r && r[a].recordingId == r[b].recordingId
      ensures a == b
    {
      assert t[a].recordingId == t[b].recordingId;
    }
  }

  /** The rows among `ids` whose recording exists, and the jobs queued for them. */
  function WithRecording(t: map<nat, AnalysisRow>, recordings: map<nat, Recording>, ids: seq<nat>): (s: set<nat>)
    ensures forall id :: id in s <==> id in ids && id in t && t[id].recordingId in recordings
  {
    set i | 0 <= i < |ids| && ids[i] in t && t[ids[i]].recordingId in recordings :: ids[i]
  }

  function JobsFor(t: map<nat, AnalysisRow>, ids: set<nat>): (jobs: set<Job>)
    requires ids <= t.Keys
    ensures forall id :: id in ids ==> Job(t[id].recordingId, id) in jobs
    ensures forall j :: j in jobs ==> j.analysisId in ids && j.recordingId == t[j.analysisId].recordingId
  {
    set id | id in ids :: Job(t[id].recordingId, id)
  }

  /** The four counters of get_status_counts. */
  datatype Counts = Counts(pending: nat, processing: nat, completed: nat, failed: nat)
  {
    function Get(s: Status): nat
    {
      match s
      case Pending => pending
      case Processing => processing
      case Completed => completed
      case Failed => failed
    }
  }

  /** The count a grouped result reports for a status: its last row for that status, or 0 when it has none. */
  function Reported(groups: seq<(Status, nat)>, s: Status): (n: nat)
    ensures (forall i :: 0 <= i < |groups| ==> groups[i].0 != s) ==> n == 0
  {
    if groups == [] then 0
    else if groups[|groups| - 1].0 == s then groups[|groups| - 1].1
    else Reported(groups[..|groups| - 1], s)
  }

  /** The number of analyses in a status whose recording belongs to a googlemeet instance. */
  function CountOf(t: map<nat, AnalysisRow>, recordings: map<nat, Recording>, googlemeetId: nat, s: Status): nat
  {
    |set id | id in t && t[id].status == s && t[id].recordingId in recordings
              && recordings[t[id].recordingId].googlemeetId == googlemeetId|
  }

  /** The rows `GROUP BY aa.status` returns: one per status present, with its count. */
  predicate IsGrouping(groups: seq<(Status, nat)>, t: map<nat, AnalysisRow>, recordings: map<nat, Recording>, googlemeetId: nat)
  {
    (forall i, j :: 0 <= i < j < |groups| ==> groups[i].0 != groups[j].0)
    && (forall i :: 0 <= i < |groups| ==> groups[i].1 == CountOf(t, recordings, googlemeetId, groups[i].0))
    && (forall s :: CountOf(t, recordings, googlemeetId, s) > 0 ==> exists i :: 0 <= i < |groups| && groups[i].0 == s)
  }

  lemma {:induction false} ReportedAt(groups: seq<(Status, nat)>, s: Status, i: nat)
    requires i < |groups| && groups[i].0 == s
    requires forall j :: i < j < |groups| ==> groups[j].0 != s
    ensures Reported(groups, s) == groups[i].1
    decreases |groups|
  {
    if i < |groups| - 1 {
      ReportedAt(groups[..|groups| - 1], s, i);
    }
  }

  /** On the grouped result of the table, every counter is the true count, absent statuses included. */
  lemma {:induction false} StatusCountsExact(groups: seq<(Status, nat)>, t: map<nat, AnalysisRow>,
                                             recordings: map<nat, Recording>, googlemeetId: nat, s: Status)
    requires IsGrouping(groups, t, recordings, googlemeetId)
    ensures Reported(groups, s) == CountOf(t, recordings, googlemeetId, s)
  {
    if i :| 0 <= i < |groups| && groups[i].0 == s {
      ReportedAt(groups, s, i);
    }
  }

  /** The row generate_analysis_sync writes before asking the API; unlike generate_analysis it leaves the error column as it was. */
  function SyncStart(existing: Option<AnalysisRow>, recordingId: nat, now: int): (row: AnalysisRow)
    ensures row.status == Processing && row.timeModified == now
    ensures existing.Some? ==> row == existing.value.(status := Processing, timeModified := now)
    ensures existing.None? ==> row.recordingId == recordingId && row.timeCreated == now && row.error.None?
  {
    match existing
    case Some(row) => row.(status := Processing, timeModified := now)
    case None => AnalysisRow(recordingId, None, None, None, None, None, Processing, None, None, now, now)
  }

  /** The row once the API has answered: completed with the results and the model, or failed with the exception's message. */
  function SyncFinish(start: AnalysisRow, answer: Outcome<Analysis>, model: string, now: int): (row: AnalysisRow)
    ensures row.recordingId == start.recordingId && row.timeCreated == start.timeCreated && row.timeModified == now
    ensures row.status == Completed <==> answer.Ok?
    ensures answer.Ok? ==> row.error.None? && row.aiModel == Some(model)
    ensures answer.Raise? ==> row == start.(status := Failed, error := Some(Message(answer.exc)), timeModified := now)
  {
    match answer
    case Ok(a) =>
      start.(summary := Some(a.summary), keypoints := Some(a.keypoints), topics := Some(a.topics),
             transcript := Some(a.transcript), language := Some(a.language), status := Completed,
             error := None, aiModel := Some(model), timeModified := now)
    case Raise(e) => start.(status := Failed, error := Some(Message(e)), timeModified := now)
  }

  /** What generate_analysis_sync hands back after asking the API: the built object, or the exception passed on. */
  function SyncResult(id: nat, recordingId: nat, answer: Outcome<Analysis>, model: string, created: Option<int>, now: int)
    : (r: Outcome<AnalysisView>)
    ensures r.Raise? <==> answer.Raise?
    ensures r.Raise? ==> r.exc == answer.exc
    ensures r.Ok? ==> r.value.id == id && r.value.recordingId == recordingId && r.value.status == Completed
  {
    match answer
    case Ok(a) =>
      Ok(AnalysisView(id, recordingId, Completed, Some(a.summary), a.keypoints, a.topics, Some(a.transcript),
                      Some(a.language), None, Some(model), created, now))
    case Raise(e) => Raise(e)
  }

  /**
   * After a successful synchronous run, reading the row back gives the
   * object the call returned (the update path's object has no timecreated).
   */
  lemma {:induction false} SyncReadBack(id: nat, existing: Option<AnalysisRow>, recordingId: nat, answer: Outcome<Analysis>,
                                        model: string, now: int)
    requires answer.Ok?
    requires existing.Some? ==> existing.value.recordingId == recordingId
    ensures var row := SyncFinish(SyncStart(existing, recordingId, now), answer, model, now);
      var created := if existing.Some? then None else Some(now);
      SyncResult(id, recordingId, answer, model, created, now) == Ok(Stored(id, row).(timeCreated := created))
  {
    var a := answer.value;
    var row := SyncFinish(SyncStart(existing, recordingId, now), answer, model, now);
    assert row.keypoints == Some(a.keypoints) && row.topics == Some(a.topics);
    assert row.summary == Some(a.summary) && row.transcript == Some(a.transcript) && row.language == Some(a.language);
  }

  /** The invariant of the selection loop in get_pending_analyses. */
  predicate Taking(t: map<nat, AnalysisRow>, all: set<nat>, remaining: set<nat>, ids: seq<nat>)
  {
    all <= t.Keys && remaining <= all && |remaining| + |ids| == |all|
    && (forall id :: id in all ==> (id in remaining <==> id !in ids))
    && (forall i :: 0 <= i < |ids| ==> ids[i] in all)
    && (forall i, j :: 0 <= i < j < |ids| ==> ids[i] != ids[j])
    && (forall i, j :: 0 <= i < j < |ids| ==> t[ids[i]].timeCreated <= t[ids[j]].timeCreated)
    && (forall i, id :: 0 <= i < |ids| && id in remaining ==> t[ids[i]].timeCreated <= t[id].timeCreated)
  }

  /** Taking the oldest remaining row keeps the selection invariant. */
  lemma {:induction false} TakeOldest(t: map<nat, AnalysisRow>, all: set<nat>, remaining: set<nat>, ids: seq<nat>, oldest: nat)
    requires Taking(t, all, remaining, ids)
    requires oldest in remaining && forall j :: j in remaining ==> t[oldest].timeCreated <= t[j].timeCreated
    ensures Taking(t, all, remaining - {oldest}, ids + [oldest])
  {
    var ids', remaining' := ids + [oldest], remaining - {oldest};
    assert forall i :: 0 <= i < |ids| ==> ids'[i] == ids[i];
    forall id | id in all
      ensures id in remaining' <==> id !in ids'
    {
      assert id in ids' <==> id in ids || id == oldest;
    }
  }

  /** Once as many rows as wanted are taken, they are the batch get_records returns. */
  lemma {:induction false} TakenBatch(t: map<nat, AnalysisRow>, limit: nat, remaining: set<nat>, ids: seq<nat>)
    requires Taking(t, PendingIds(t), remaining, ids)
    requires |ids| == (if limit == 0 || |PendingIds(t)| <= limit then |PendingIds(t)| else limit)
    ensures IsPendingBatch(t, limit, ids)
  {
  }

  /** The rows restarted so far are those of `ids` whose recording exists: each is bumped and has its job queued. */
  ghost predicate Restarting(t0: map<nat, AnalysisRow>, q0: set<Job>, recordings: map<nat, Recording>, ids: seq<nat>,
                             now: int, analyses: map<nat, AnalysisRow>, queue: set<Job>)
  {
    var done := WithRecording(t0, recordings, ids);
    analyses == Bump(t0, done, now) && queue == q0 + JobsFor(t0, done)
  }

  /** One more visited row: it joins the restarted ones exactly when its recording exists. */
  lemma {:induction false} WithRecordingStep(t: map<nat, AnalysisRow>, recordings: map<nat, Recording>, ids: seq<nat>, p: nat)
    ensures WithRecording(t, recordings, ids + [p])
         == WithRecording(t, recordings, ids) + (if p in t && t[p].recordingId in recordings then {p} else {})
  {
    assert forall id :: id in ids + [p] <==> id in ids || id == p;
  }

  /** Restarting one more row in place is bumping one more id. */
  lemma {:induction false} RestartStep(t: map<nat, AnalysisRow>, done: set<nat>, p: nat, now: int)
    requires p in t && p !in done
    ensures var b := Bump(t, done, now);
      b[p := Restarted(Some(b[p]), t[p].recordingId, now)] == Bump(t, done + {p}, now)
  {
  }

  /** Queueing one more restarted row's job. */
  lemma {:induction false} QueueStep(t: map<nat, AnalysisRow>, q0: set<Job>, done: set<nat>, p: nat)
    requires done <= t.Keys && p in t
    ensures (q0 + JobsFor(t, done)) + {Job(t[p].recordingId, p)} == q0 + JobsFor(t, done + {p})
  {
    assert JobsFor(t, done + {p}) == JobsFor(t, done) + {Job(t[p].recordingId, p)};
  }

  class Service {
    const client: Client

    /** The constructor builds the Gemini client from the settings. */
    constructor(settings: Settings)
      ensures client == NewClient(settings)
    {
      client := NewClient(settings);
    }

    /** is_available */
    predicate IsAvailable()
    {
      IsConfigured(client)
    }

    /** get_analysis: the recording's analysis with its lists decoded, or null. */
    method GetAnalysis(db: Database, recordingId: nat) returns (r: Option<AnalysisView>)
      requires db.Valid()
      ensures r.None? <==> forall id :: id in db.analyses ==> db.analyses[id].recordingId != recordingId
      ensures r.Some? ==> r.value.id in db.analyses && r.value == Stored(r.value.id, db.analyses[r.value.id])
      ensures r.Some? ==> r.value.recordingId == recordingId
    {
      var found := FindByRecording(db.analyses, recordingId);
      if found.None? {
        return None;
      }
      return Some(Stored(found.value, db.analyses[found.value]));
    }

    /**
     * generate_analysis: return a completed or running analysis untouched
     * unless regenerating; otherwise mark the recording's single row
     * processing (updating it in place, or inserting it) and queue one task.
     */
    method GenerateAnalysis(db: Database, recordingId: nat, regenerate: bool, now: int) returns (r: Outcome<AnalysisView>)
      requires db.Valid()
      modifies db`analyses, db`nextAnalysisId, db`queue
      ensures db.Valid()
      ensures recordingId !in db.recordings ==>
        r == Raise(MissingRecord(RecordingsTable)) && unchanged(db)
      ensures var ex := FindByRecording(old(db.analyses), recordingId);
        recordingId in db.recordings && ex.Some? && !regenerate && old(db.analyses)[ex.value].status == Completed ==>
          r == Ok(Stored(ex.value, old(db.analyses)[ex.value])) && unchanged(db)
      ensures var ex := FindByRecording(old(db.analyses), recordingId);
        recordingId in db.recordings && ex.Some? && !regenerate && old(db.analyses)[ex.value].status == Processing ==>
          r == Ok(WithLists(ex.value, old(db.analyses)[ex.value], [], [])) && unchanged(db)
      ensures var ex := FindByRecording(old(db.analyses), recordingId);
        var existing := if ex.Some? then Some(old(db.analyses)[ex.value]) else None;
        var id := if ex.Some? then ex.value else old(db.nextAnalysisId);
        recordingId in db.recordings && !Settled(existing, regenerate) ==>
          && db.analyses == old(db.analyses)[id := Restarted(existing, recordingId, now)]
          && db.queue == old(db.queue) + {Job(recordingId, id)}
          && r == Ok(AnalysisView(id, recordingId, Processing, Some(""), [], [], Some(""), None, None, None,
                                  if ex.Some? then None else Some(now), now))
    {
      if recordingId !in db.recordings {
        return Raise(MissingRecord(RecordingsTable));
      }
      var ex := FindByRecording(db.analyses, recordingId);
      if ex.Some? && !regenerate && db.analyses[ex.value].status == Completed {
        return Ok(Stored(ex.value, db.analyses[ex.value]));
      }
      if ex.Some? && db.analyses[ex.value].status == Processing && !regenerate {
        return Ok(WithLists(ex.value, db.analyses[ex.value], [], []));
      }
      var id;
      if ex.Some? {
        id := ex.value;
        db.UpdateAnalysis(id, Restarted(Some(db.analyses[id]), recordingId, now));
      } else {
        id := db.InsertAnalysis(Restarted(None, recordingId, now));
      }
      db.queue := db.queue + {Job(recordingId, id)};
      r := Ok(AnalysisView(id, recordingId, Processing, Some(""), [], [], Some(""), None, None, None,
                           if ex.Some? then None else Some(now), now));
    }

    /**
     * generate_analysis_sync: any existing row is returned as it is unless
     * regenerating; otherwise the row is marked processing, the API is asked,
     * and the row ends completed with the results or failed with the message,
     * the exception then being passed on.
     */
    method GenerateAnalysisSync(db: Database, recordingId: nat, regenerate: bool, now: int, x: Exchange)
      returns (r: Outcome<AnalysisView>)
      requires db.Valid()
      modifies db`analyses, db`nextAnalysisId
      ensures db.Valid() && db.queue == old(db.queue)
      ensures recordingId !in db.recordings ==> r == Raise(MissingRecord(RecordingsTable)) && unchanged(db)
      ensures var ex := FindByRecording(old(db.analyses), recordingId);
        recordingId in db.recordings && ex.Some? && !regenerate ==>
          r == Ok(Stored(ex.value, old(db.analyses)[ex.value])) && unchanged(db)
      ensures var ex := FindByRecording(old(db.analyses), recordingId);
        var existing := if ex.Some? then Some(old(db.analyses)[ex.value]) else None;
        var id := if ex.Some? then ex.value else old(db.nextAnalysisId);
        var answer := AnalyzeVideo(client, x).outcome;
        recordingId in db.recordings && (ex.None? || regenerate) ==>
          && db.analyses == old(db.analyses)[id := SyncFinish(SyncStart(existing, recordingId, now), answer, client.model, now)]
          && r == SyncResult(id, recordingId, answer, client.model, if ex.Some? then None else Some(now), now)
    {
      if recordingId !in db.recordings {
        return Raise(MissingRecord(RecordingsTable));
      }
      var ex := FindByRecording(db.analyses, recordingId);
      if ex.Some? && !regenerate {
        return Ok(Stored(ex.value, db.analyses[ex.value]));
      }
      var id;
      var start;
      if ex.Some? {
        id := ex.value;
        start := SyncStart(Some(db.analyses[id]), recordingId, now);
        db.UpdateAnalysis(id, start);
      } else {
        start := SyncStart(None, recordingId, now);
        id := db.InsertAnalysis(start);
      }
      ghost var existing := if ex.Some? then Some(old(db.analyses)[ex.value]) else None;
      assert start == SyncStart(existing, recordingId, now);
      assert id == if ex.Some? then ex.value else old(db.nextAnalysisId);
      assert db.analyses == old(db.analyses)[id := start];
      var answer := RequestAnalysis(x);
      var finish := SyncFinish(start, answer, client.model, now);
      db.UpdateAnalysis(id, finish);
      Overwrite(old(db.analyses), id, start, finish);
      r := SyncResult(id, recordingId, answer, client.model, if ex.Some? then None else Some(now), now);
    }

    /** The client's analyze_video call, made once per synchronous run. */
    method RequestAnalysis(x: Exchange) returns (answer: Outcome<Analysis>)
      ensures answer == AnalyzeVideo(client, x).outcome
    {
      answer := AnalyzeVideo(client, x).outcome;
    }

    /** delete_analysis: the recording's rows are gone, everything else is kept, and the call reports true. */
    method DeleteAnalysis(db: Database, recordingId: nat) returns (deleted: bool)
      requires db.Valid()
      modifies db`analyses
      ensures db.Valid()
      ensures db.analyses == WithoutRecording(old(db.analyses), recordingId)
      ensures deleted
    {
      WithoutRecordingValid(db.analyses, recordingId);
      db.analyses := WithoutRecording(db.analyses, recordingId);
      deleted := true;
    }

    /** get_pending_analyses: the oldest pending rows, by repeatedly taking the oldest one left. */
    method GetPendingAnalyses(db: Database, limit: nat) returns (ids: seq<nat>)
      ensures IsPendingBatch(db.analyses, limit, ids)
    {
      var t := db.analyses;
      var all := PendingIds(t);
      var want := if limit == 0 || |all| <= limit then |all| else limit;
      var remaining := all;
      ids := [];
      while |ids| < want
        invariant Taking(t, all, remaining, ids) && |ids| <= want
        decreases want - |ids|
      {
        var oldest := Oldest(t, remaining);
        TakeOldest(t, all, remaining, ids, oldest);
        ids := ids + [oldest];
        remaining := remaining - {oldest};
      }
      TakenBatch(t, limit, remaining, ids);
      assert IsPendingBatch(t, limit, ids);
      assert t == db.analyses;
    }

    /**
     * queue_for_analysis: an existing row is returned unchanged, so queueing
     * twice is queueing once; otherwise a pending row is inserted.
     */
    method QueueForAnalysis(db: Database, recordingId: nat, now: int) returns (id: nat, row: AnalysisRow)
      requires db.Valid()
      modifies db`analyses, db`nextAnalysisId
      ensures db.Valid()
      ensures FindByRecording(db.analyses, recordingId) == Some(id) && db.analyses[id] == row
      ensures var ex := FindByRecording(old(db.analyses), recordingId);
        ex.Some? ==> id == ex.value && row == old(db.analyses)[id] && unchanged(db)
      ensures var ex := FindByRecording(old(db.analyses), recordingId);
        ex.None? ==> (id == old(db.nextAnalysisId) && db.analyses == old(db.analyses)[id := row]
                      && row == AnalysisRow(recordingId, None, None, None, None, None, Pending, None, None, now, now))
    {
      var ex := FindByRecording(db.analyses, recordingId);
      if ex.Some? {
        return ex.value, db.analyses[ex.value];
      }
      row := AnalysisRow(recordingId, None, None, None, None, None, Pending, None, None, now, now);
      id := db.InsertAnalysis(row);
      FindByRecordingUnique(db.analyses, recordingId, id);
    }

    /**
     * get_status_counts over the rows of the grouped query: all four counters
     * start at 0 and each row overwrites its status's counter.
     */
    method GetStatusCounts(groups: seq<(Status, nat)>) returns (counts: Counts)
      ensures forall s :: counts.Get(s) == Reported(groups, s)
    {
      counts := Counts(0, 0, 0, 0);
      var i := 0;
      while i < |groups|
        invariant 0 <= i <= |groups|
        invariant forall s :: counts.Get(s) == Reported(groups[..i], s)
      {
        var (status, count) := groups[i];
        match status {
          case Pending => counts := counts.(pending := count);
          case Processing => counts := counts.(processing := count);
          case Completed => counts := counts.(completed := count);
          case Failed => counts := counts.(failed := count);
        }
        assert groups[..i + 1][..i] == groups[..i];
        i := i + 1;
      }
      assert groups[..i] == groups;
    }

    /**
     * One row of process_pending: generate_analysis with regeneration, which
     * restarts the row in place and queues its task, or raises because the
     * recording is gone and changes nothing.
     */
    method Regenerate(db: Database, recordingId: nat, now: int, ghost id: nat) returns (restarted: bool)
      requires db.Valid() && id in db.analyses && db.analyses[id].recordingId == recordingId
      modifies db`analyses, db`nextAnalysisId, db`queue
      ensures db.Valid()
      ensures restarted <==> recordingId in db.recordings
      ensures restarted ==> db.analyses == old(db.analyses)[id := Restarted(Some(old(db.analyses)[id]), recordingId, now)]
                            && db.queue == old(db.queue) + {Job(recordingId, id)}
      ensures !restarted ==> db.analyses == old(db.analyses) && db.queue == old(db.queue)
    {
      FindByRecordingUnique(db.analyses, recordingId, id);
      var r := GenerateAnalysis(db, recordingId, true, now);
      restarted := r.Ok?;
    }

    /**
     * One pass of process_pending's loop: `pending[i]` is restarted when its
     * recording exists, and the restarted set grows by it.
     */
    method RegenerateNext(db: Database, ghost t0: map<nat, AnalysisRow>, ghost q0: set<Job>, pending: seq<nat>, i: nat,
                          recordingId: nat, now: int) returns (restarted: bool)
      requires db.Valid() && i < |pending| && pending[i] in t0 && t0[pending[i]].recordingId == recordingId
      requires forall k :: 0 <= k < |pending| ==> pending[k] in t0
      requires forall j, k :: 0 <= j < k < |pending| ==> pending[j] != pending[k]
      requires Restarting(t0, q0, db.recordings, pending[..i], now, db.analyses, db.queue)
      modifies db`analyses, db`nextAnalysisId, db`queue
      ensures db.Valid() && db.recordings == old(db.recordings)
      ensures Restarting(t0, q0, db.recordings, pending[..i + 1], now, db.analyses, db.queue)
      ensures var before := WithRecording(t0, db.recordings, pending[..i]);
        WithRecording(t0, db.recordings, pending[..i + 1]) == if restarted then before + {pending[i]} else before
      ensures |WithRecording(t0, db.recordings, pending[..i + 1])|
           == |WithRecording(t0, db.recordings, pending[..i])| + if restarted then 1 else 0
    {
      ghost var p := pending[i];
      ghost var done := WithRecording(t0, db.recordings, pending[..i]);
      assert pending[..i + 1] == pending[..i] + [p];
      WithRecordingStep(t0, db.recordings, pending[..i], p);
      assert p !in done by {
        forall k | 0 <= k < i ensures pending[..i][k] != p {
          assert pending[k] != pending[i];
        }
      }
      assert p in db.analyses && db.analyses[p].recordingId == recordingId;
      restarted := Regenerate(db, recordingId, now, p);
      ghost var next := WithRecording(t0, db.recordings, pending[..i + 1]);
      if restarted {
        RestartStep(t0, done, p, now);
        QueueStep(t0, q0, done, p);
        assert next == done + {p};
        assert db.analyses == Bump(t0, next, now);
      } else {
        assert next == done;
      }
    }

    /**
     * process_pending: regenerate each of the oldest `limit` pending rows;
     * a row whose recording is gone raises, which is swallowed. The result
     * counts the rows that were restarted.
     */
    method ProcessPending(db: Database, limit: nat, now: int) returns (processed: nat, ghost visited: seq<nat>)
      requires db.Valid()
      modifies db`analyses, db`nextAnalysisId, db`queue
      ensures db.Valid()
      ensures IsPendingBatch(old(db.analyses), limit, visited)
      ensures var restarted := WithRecording(old(db.analyses), db.recordings, visited);
        && db.analyses == Bump(old(db.analyses), restarted, now)
        && db.queue == old(db.queue) + JobsFor(old(db.analyses), restarted)
      ensures processed == |WithRecording(old(db.analyses), db.recordings, visited)|
      ensures limit > 0 ==> processed <= limit
    {
      var pending := GetPendingAnalyses(db, limit);
      visited := pending;
      assert forall k :: 0 <= k < |pending| ==> pending[k] in db.analyses;
      processed := RegenerateAll(db, pending, now);
    }

    /** process_pending's loop over the batch: each row whose recording exists is restarted. */
    method RegenerateAll(db: Database, pending: seq<nat>, now: int) returns (processed: nat)
      requires db.Valid()
      requires forall k :: 0 <= k < |pending| ==> pending[k] in db.analyses
      requires forall j, k :: 0 <= j < k < |pending| ==> pending[j] != pending[k]
      modifies db`analyses, db`nextAnalysisId, db`queue
      ensures db.Valid()
      ensures var restarted := WithRecording(old(db.analyses), db.recordings, pending);
        && db.analyses == Bump(old(db.analyses), restarted, now)
        && db.queue == old(db.queue) + JobsFor(old(db.analyses), restarted)
      ensures processed == |WithRecording(old(db.analyses), db.recordings, pending)| <= |pending|
    {
      var t0 := db.analyses;
      ghost var q0 := db.queue;
      processed := 0;
      var i := 0;
      assert pending[..0] == [];
      while i < |pending|
        invariant 0 <= i <= |pending|
        invariant db.Valid()
        invariant db.recordings == old(db.recordings)
        invariant Restarting(t0, q0, db.recordings, pending[..i], now, db.analyses, db.queue)
        invariant processed == |WithRecording(t0, db.recordings, pending[..i])|
        invariant processed <= i
      {
        var restarted := RegenerateNext(db, t0, q0, pending, i, t0[pending[i]].recordingId, now);
        if restarted {
          processed := processed + 1;
        }
        ghost var next := pending[..i + 1];
        i := i + 1;
        assert pending[..i] == next;
      }
      assert pending[..i] == pending;
    }
  }
}
