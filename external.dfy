/**
 * The web services of classes/external.php that change or report recordings
 * and their analyses: the recording sync, the show/hide toggle, the manual
 * analysis editor (key-point and topic parsing, then an upsert) and the
 * replies of get_ai_analysis and generate_ai_analysis.
 */
module External {
  import opened Wrappers
  import opened Php
  import opened Store
  import opened RecordingSync
  import opened AiService
  import opened AnalysisText

  /**
   * The activity row after sync_recordings: lastsync moves when anything was
   * updated or inserted, and an empty creator email is filled in only when
   * something was inserted.
   */
  function SyncedInstance(g: Instance, updated: bool, inserted: bool, creatorEmail: string, now: int): (r: Instance)
    ensures r.lastSync == if updated || inserted then now else g.lastSync
    ensures !inserted || !IsEmpty(g.creatorEmail) ==> r.creatorEmail == g.creatorEmail
    ensures inserted && IsEmpty(g.creatorEmail) ==> r.creatorEmail == creatorEmail
  {
    var afterUpdates := if updated then g.(lastSync := now) else g;
    if inserted then
      var touched := afterUpdates.(lastSync := now);
      if IsEmpty(touched.creatorEmail) then touched.(creatorEmail := creatorEmail) else touched
    else afterUpdates
  }

  /** The activity row's writes of sync_recordings: lastsync after the updates, then again with the creator email after the inserts. */
  method TouchInstance(db: Database, googlemeetId: nat, updated: bool, inserted: bool, creatorEmail: string, now: int)
    requires googlemeetId in db.instances
    modifies db`instances
    ensures db.instances == old(db.instances)[googlemeetId :=
      SyncedInstance(old(db.instances)[googlemeetId], updated, inserted, creatorEmail, now)]
  {
    if updated {
      db.instances := db.instances[googlemeetId := db.instances[googlemeetId].(lastSync := now)];
    }
    if inserted {
      var g := db.instances[googlemeetId].(lastSync := now);
      if IsEmpty(g.creatorEmail) {
        g := g.(creatorEmail := creatorEmail);
      }
      db.instances := db.instances[googlemeetId := g];
    }
  }

  /**
   * sync_recordings: the files are split into updates and inserts, the stale
   * rows are deleted (their analysis rows are left in place), the updates
   * rewrite their rows and the inserts add rows; the activity row is touched
   * as SyncedInstance says. The listing it returns is Lib.ListRecordings.
   */
  method SyncRecordings(db: Database, googlemeetId: nat, creatorEmail: string, files: seq<DriveRecording>,
                        rows: seq<nat>, now: int)
    requires db.Valid() && Lists(db.recordings, googlemeetId, rows) && googlemeetId in db.instances
    modifies db`recordings, db`nextRecordingId, db`instances
    ensures db.Valid() && db.analyses == old(db.analyses)
    ensures db.recordings == SyncedRecordings(old(db.recordings), googlemeetId, rows, files, old(db.nextRecordingId), now, false)
    ensures var p := Partition(files, StoredIds(old(db.recordings), rows), false);
      db.instances == old(db.instances)[googlemeetId :=
        SyncedInstance(old(db.instances)[googlemeetId], p.0 != [], p.1 != [], creatorEmail, now)]
  {
    var updates, inserts := Reconcile(db, googlemeetId, rows, files, now, false);
    TouchInstance(db, googlemeetId, updates != [], inserts != [], creatorEmail, now);
  }

  /** The exception PHP raises when the toggle writes to the missing row. */
  const AssignOnBool: string := "Attempt to assign property \"visible\" on bool"

  /** A recording with its visibility flipped. */
  function Toggled(r: Recording, now: int): (u: Recording)
    ensures u.visible == !r.visible && u.timeModified == now
    ensures u.(visible := r.visible, timeModified := r.timeModified) == r
  {
    r.(visible := !r.visible, timeModified := now)
  }

  /** Toggling twice restores the visibility and every other column but the time. */
  lemma {:induction false} ToggleTwice(r: Recording, t1: int, t2: int)
    ensures Toggled(Toggled(r, t1), t2) == r.(timeModified := t2)
  {
  }

  /** showhide_recording: flips the row's visibility and replies with the new value. */
  method ShowHideRecording(db: Database, recordingId: nat, now: int) returns (r: Outcome<bool>)
    requires db.Valid()
    modifies db`recordings
    ensures db.Valid()
    ensures recordingId !in old(db.recordings) ==> r == Raise(Raised(AssignOnBool)) && unchanged(db)
    ensures recordingId in old(db.recordings) ==>
      && r == Ok(!old(db.recordings)[recordingId].visible)
      && db.recordings == old(db.recordings)[recordingId := Toggled(old(db.recordings)[recordingId], now)]
  {
    if recordingId !in db.recordings {
      return Raise(Raised(AssignOnBool));
    }
    var recording := db.recordings[recordingId];
    if recording.visible {
      recording := recording.(visible := false);
    } else {
      recording := recording.(visible := true);
    }
    recording := recording.(timeModified := now);
    db.recordings := db.recordings[recordingId := recording];
    r := Ok(recording.visible);
  }


  /** The model name a manual edit records. */
  const ManualModel: string := "manual"

  /**
   * The row save_ai_analysis writes: completed, without error, by the
   * "manual" model, with the given texts and lists. An update keeps the
   * recording, language and creation time of the row; an insert starts in
   * Spanish.
   */
  function ManualRow(existing: Option<AnalysisRow>, recordingId: nat, summary: string, keypoints: seq<string>,
                     topics: seq<string>, transcript: string, now: int): (row: AnalysisRow)
    ensures row.status == Completed && row.error.None? && row.aiModel == Some(ManualModel) && row.timeModified == now
    ensures row.summary == Some(summary) && row.transcript == Some(transcript)
    ensures row.keypoints == Some(keypoints) && row.topics == Some(topics)
    ensures existing.Some? ==> && row.recordingId == existing.value.recordingId
                               && row.language == existing.value.language
                               && row.timeCreated == existing.value.timeCreated
    ensures existing.None? ==> row.recordingId == recordingId && row.language == Some("es") && row.timeCreated == now
  {
    match existing
    case Some(row) =>
      row.(summary := Some(summary), keypoints := Some(keypoints), topics := Some(topics), transcript := Some(transcript),
           status := Completed, error := None, aiModel := Some(ManualModel), timeModified := now)
    case None =>
      AnalysisRow(recordingId, Some(summary), Some(keypoints), Some(topics), Some(transcript), Some("es"),
                  Completed, None, Some(ManualModel), now, now)
  }

  /** The reply of save_ai_analysis. */
  datatype Saved = Saved(id: nat, recordingId: nat, summary: string, keypoints: seq<string>, topics: seq<string>,
                         transcript: string, aiModel: string, timeModified: int)

  /**
   * save_ai_analysis: for an existing recording, parse the key points and the
   * topics, then update the recording's analysis row in place (keeping its
   * id) or insert one; in both cases it reads back completed with the parsed
   * lists. The key points are parsed with the bullet class as intended.
   */
  method SaveAiAnalysis(db: Database, recordingId: nat, summary: string, keypoints: string, topics: string,
                        transcript: string, now: int) returns (r: Outcome<Saved>)
    requires db.Valid()
    modifies db`analyses, db`nextAnalysisId
    ensures db.Valid()
    ensures r.Raise? <==> recordingId !in db.recordings
    ensures r.Raise? ==> r.exc == MissingRecord(RecordingsTable) && unchanged(db)
    ensures r.Ok? ==>
      var ex := FindByRecording(old(db.analyses), recordingId);
      var existing := if ex.Some? then Some(old(db.analyses)[ex.value]) else None;
      var points := KeyPoints(keypoints, IsBullet);
      var items := Topics(topics);
      && r.value == Saved(r.value.id, recordingId, summary, points, items, transcript, ManualModel, now)
      && r.value.id == (if ex.Some? then ex.value else old(db.nextAnalysisId))
      && db.analyses == old(db.analyses)[r.value.id := ManualRow(existing, recordingId, summary, points, items, transcript, now)]
      && FindByRecording(db.analyses, recordingId) == Some(r.value.id)
  {
    if recordingId !in db.recordings {
      return Raise(MissingRecord(RecordingsTable));
    }
    var points := ParseKeyPoints(keypoints, IsBullet);
    var items := ParseTopics(topics);
    var ex := FindByRecording(db.analyses, recordingId);
    var id;
    if ex.Some? {
      id := ex.value;
      db.UpdateAnalysis(id, ManualRow(Some(db.analyses[id]), recordingId, summary, points, items, transcript, now));
    } else {
      id := db.InsertAnalysis(ManualRow(None, recordingId, summary, points, items, transcript, now));
    }
    FindByRecordingUnique(db.analyses, recordingId, id);
    r := Ok(Saved(id, recordingId, summary, points, items, transcript, ManualModel, now));
  }

  /** The status column's text. */
  function StatusName(s: Status): string
  {
    match s
    case Pending => "pending"
    case Processing => "processing"
    case Completed => "completed"
    case Failed => "failed"
  }

  /** Reading a status column back. */
  function ParseStatus(name: string): (r: Option<Status>)
    ensures r.Some? ==> StatusName(r.value) == name
  {
    if name == "pending" then Some(Pending)
    else if name == "processing" then Some(Processing)
    else if name == "completed" then Some(Completed)
    else if name == "failed" then Some(Failed)
    else None
  }

  /** Every status reads back as itself, so the reply's status text names it exactly. */
  lemma {:induction false} StatusRoundTrip(s: Status)
    ensures ParseStatus(StatusName(s)) == Some(s)
  {
    match s
    case Pending =>
    case Processing =>
    case Completed =>
    case Failed =>
  }

  /** The reply fields of get_ai_analysis and generate_ai_analysis. */
  datatype Reply = Reply(id: nat, recordingId: nat, summary: string, keypoints: seq<string>, topics: seq<string>,
                         transcript: string, language: string, status: string, error: string, aiModel: string,
                         timeCreated: Option<int>, timeModified: int)

  /** An analysis as replied: NULL texts read as '', a missing language as 'en'. */
  function ReplyOf(v: AnalysisView): (r: Reply)
    ensures r.id == v.id && r.recordingId == v.recordingId && ParseStatus(r.status) == Some(v.status)
    ensures r.keypoints == v.keypoints && r.topics == v.topics
    ensures v.summary.Some? ==> r.summary == v.summary.value
    ensures v.summary.None? ==> r.summary == ""
    ensures v.language.None? ==> r.language == "en"
    ensures v.error.None? ==> r.error == ""
  {
    StatusRoundTrip(v.status);
    Reply(v.id, v.recordingId, v.summary.GetOr(""), v.keypoints, v.topics, v.transcript.GetOr(""),
          v.language.GetOr("en"), StatusName(v.status), v.error.GetOr(""), v.aiModel.GetOr(""), v.timeCreated,
          v.timeModified)
  }

  /** get_ai_analysis's reply when the recording has no analysis: every field empty or zero. */
  function NotFound(recordingId: nat): (r: Reply)
    ensures ParseStatus(r.status).None? && r.id == 0 && r.recordingId == recordingId
  {
    Reply(0, recordingId, "", [], [], "", "", "", "", "", Some(0), 0)
  }

  /** get_ai_analysis: found iff the recording has an analysis, whose row is then replied; nothing is written. */
  method GetAiAnalysis(db: Database, service: Service, recordingId: nat) returns (found: bool, r: Reply)
    requires db.Valid()
    ensures found <==> exists id :: id in db.analyses && db.analyses[id].recordingId == recordingId
    ensures found <==> ParseStatus(r.status).Some?
    ensures found ==>
      r.recordingId == recordingId && r.id in db.analyses && r == ReplyOf(Stored(r.id, db.analyses[r.id]))
    ensures !found ==> r == NotFound(recordingId)
  {
    var analysis := service.GetAnalysis(db, recordingId);
    if analysis.None? {
      return false, NotFound(recordingId);
    }
    found, r := true, ReplyOf(analysis.value);
  }

  /** generate_ai_analysis's answer to the service's outcome: exceptions come back as ai_error with their message. */
  function Answer(o: Outcome<AnalysisView>): (r: Outcome<Reply>)
    ensures o.Ok? <==> r.Ok?
    ensures o.Ok? ==> r.value == ReplyOf(o.value)
    ensures o.Raise? ==> r.exc == AiError(Message(o.exc))
  {
    match o
    case Ok(v) => Ok(ReplyOf(v))
    case Raise(e) => Raise(AiError(Message(e)))
  }

  /**
   * generate_ai_analysis: ai_not_configured (not wrapped) when the service
   * is unavailable; otherwise the answer to generate_analysis, whose effect
   * on the tables is that method's. `inner` names that call's outcome.
   */
  method GenerateAiAnalysis(db: Database, service: Service, recordingId: nat, regenerate: bool, now: int)
    returns (r: Outcome<Reply>, ghost inner: Outcome<AnalysisView>)
    requires db.Valid()
    modifies db`analyses, db`nextAnalysisId, db`queue
    ensures db.Valid()
    ensures !service.IsAvailable() ==> r == Raise(AiNotConfigured) && unchanged(db)
    ensures service.IsAvailable() ==> r == Answer(inner)
    ensures service.IsAvailable() && recordingId !in db.recordings ==>
      r == Raise(AiError(Message(MissingRecord(RecordingsTable)))) && unchanged(db)
    ensures service.IsAvailable() && recordingId in db.recordings ==>
      r.Ok? && r.value.recordingId == recordingId && FindByRecording(db.analyses, recordingId) == Some(r.value.id)
  {
    inner := Raise(AiNotConfigured);
    if !service.IsAvailable() {
      return Raise(AiNotConfigured), inner;
    }
    var outcome := service.GenerateAnalysis(db, recordingId, regenerate, now);
    inner := outcome;
    if recordingId in db.recordings {
      var ex := FindByRecording(old(db.analyses), recordingId);
      if !(ex.Some? && !regenerate && old(db.analyses)[ex.value].status in {Completed, Processing}) {
        var id := if ex.Some? then ex.value else old(db.nextAnalysisId);
        FindByRecordingUnique(db.analyses, recordingId, id);
      }
    }
    r := Answer(outcome);
  }
}
