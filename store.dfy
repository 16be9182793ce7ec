/**
 * The plugin's database tables, as the modelled code reads and writes them:
 * each table is a map from row id to row, and the adhoc-task queue is a set
 * of task payloads (queueing with the duplicate check adds to the set).
 */
module Store {
  import opened Wrappers

  /** The four values the code writes into googlemeet_ai_analysis.status. */
  datatype Status = Pending | Processing | Completed | Failed

  /**
   * A googlemeet_ai_analysis row. NULL columns are None. The keypoints and
   * topics columns hold a JSON-encoded list; the model keeps the list itself.
   */
  datatype AnalysisRow = AnalysisRow(
    recordingId: nat,
    summary: Option<string>,
    keypoints: Option<seq<string>>,
    topics: Option<seq<string>>,
    transcript: Option<string>,
    language: Option<string>,
    status: Status,
    error: Option<string>,
    aiModel: Option<string>,
    timeCreated: int,
    timeModified: int)

  /**
   * A googlemeet_recordings row; `driveId` is its `recordingid` column (the
   * Drive file id) and a NULL transcript reads as "".
   */
  datatype Recording = Recording(
    googlemeetId: nat,
    driveId: string,
    name: string,
    createdTime: int,
    duration: string,
    webViewLink: string,
    transcriptText: string,
    transcriptFileId: Option<string>,
    visible: bool,
    timeModified: int)

  /** The googlemeet instance columns the modelled code writes. */
  datatype Instance = Instance(creatorEmail: string, lastSync: int)

  /** A googlemeet_holidays row: an excluded period of days. */
  datatype Holiday = Holiday(googlemeetId: nat, name: string, startDate: int, endDate: int, timeModified: int)

  /** A googlemeet_cancelled row: one cancelled session day. */
  datatype Cancelled = Cancelled(googlemeetId: nat, date: int, reason: string, timeModified: int)

  /** The custom data of a queued process_video_analysis task. */
  datatype Job = Job(recordingId: nat, analysisId: nat)

  /** The unique foreign key on googlemeet_ai_analysis.recordingid: one analysis per recording. */
  predicate OnePerRecording(t: map<nat, AnalysisRow>)
  {
    forall a, b :: a in t && b in t && t[a].recordingId == t[b].recordingId ==> a == b
  }

  /** get_record('googlemeet_ai_analysis', ['recordingid' => r]): the id of the recording's analysis, if any. */
  function FindByRecording(t: map<nat, AnalysisRow>, recordingId: nat): (r: Option<nat>)
    requires OnePerRecording(t)
    ensures r.Some? ==> r.value in t && t[r.value].recordingId == recordingId
    ensures r.None? ==> forall id :: id in t ==> t[id].recordingId != recordingId
  {
    if exists id :: id in t && t[id].recordingId == recordingId then
      var id :| id in t && t[id].recordingId == recordingId;
      Some(id)
    else None
  }

  /** Any row of the recording is the one FindByRecording returns. */
  lemma {:induction false} FindByRecordingUnique(t: map<nat, AnalysisRow>, recordingId: nat, id: nat)
    requires OnePerRecording(t) && id in t && t[id].recordingId == recordingId
    ensures FindByRecording(t, recordingId) == Some(id)
  {
  }

  class Database {
    var analyses: map<nat, AnalysisRow>
    var recordings: map<nat, Recording>
    var instances: map<nat, Instance>
    var holidays: map<nat, Holiday>
    var cancelled: map<nat, Cancelled>
    var queue: set<Job>
    /** The ids the next insert into each table receives. */
    var nextAnalysisId: nat
    var nextRecordingId: nat
    var nextHolidayId: nat
    var nextCancelledId: nat

    /** The schema's invariants: the unique key, and fresh ids above every used one. */
    predicate Valid()
      reads this
    {
      OnePerRecording(analyses)
      && (forall id :: id in analyses ==> id < nextAnalysisId)
      && (forall id :: id in recordings ==> id < nextRecordingId)
      && (forall id :: id in holidays ==> id < nextHolidayId)
      && (forall id :: id in cancelled ==> id < nextCancelledId)
    }

    /** An empty database. */
    constructor()
      ensures Valid()
      ensures analyses == map[] && recordings == map[] && instances == map[] && queue == {}
      ensures holidays == map[] && cancelled == map[]
    {
      analyses, recordings, instances, holidays, cancelled := map[], map[], map[], map[], map[];
      queue := {};
      nextAnalysisId, nextRecordingId, nextHolidayId, nextCancelledId := 1, 1, 1, 1;
    }

    /** insert_record('googlemeet_ai_analysis'): the row gets a fresh id. */
    method InsertAnalysis(row: AnalysisRow) returns (id: nat)
      requires Valid() && FindByRecording(analyses, row.recordingId).None?
      modifies this`analyses, this`nextAnalysisId
      ensures Valid()
      ensures id == old(nextAnalysisId) && id !in old(analyses)
      ensures analyses == old(analyses)[id := row] && nextAnalysisId == id + 1
    {
      id := nextAnalysisId;
      analyses := analyses[id := row];
      nextAnalysisId := nextAnalysisId + 1;
    }

    /** update_record('googlemeet_ai_analysis') of an existing row, keeping its recording. */
    method UpdateAnalysis(id: nat, row: AnalysisRow)
      requires Valid() && id in analyses && analyses[id].recordingId == row.recordingId
      modifies this`analyses
      ensures Valid()
      ensures analyses == old(analyses)[id := row]
    {
      analyses := analyses[id := row];
    }

    /** insert_record('googlemeet_recordings'). */
    method InsertRecording(r: Recording) returns (id: nat)
      requires Valid()
      modifies this`recordings, this`nextRecordingId
      ensures Valid()
      ensures id == old(nextRecordingId) && id !in old(recordings)
      ensures recordings == old(recordings)[id := r] && nextRecordingId == id + 1
    {
      id := nextRecordingId;
      recordings := recordings[id := r];
      nextRecordingId := nextRecordingId + 1;
    }

    /** insert_record('googlemeet_holidays'). */
    method InsertHoliday(h: Holiday) returns (id: nat)
      requires Valid()
      modifies this`holidays, this`nextHolidayId
      ensures Valid()
      ensures id == old(nextHolidayId) && id !in old(holidays)
      ensures holidays == old(holidays)[id := h] && nextHolidayId == id + 1
    {
      id := nextHolidayId;
      holidays := holidays[id := h];
      nextHolidayId := nextHolidayId + 1;
    }

    /** insert_record('googlemeet_cancelled'). */
    method InsertCancelled(c: Cancelled) returns (id: nat)
      requires Valid()
      modifies this`cancelled, this`nextCancelledId
      ensures Valid()
      ensures id == old(nextCancelledId) && id !in old(cancelled)
      ensures cancelled == old(cancelled)[id := c] && nextCancelledId == id + 1
    {
      id := nextCancelledId;
      cancelled := cancelled[id := c];
      nextCancelledId := nextCancelledId + 1;
    }
  }

  /** A table after insert_record of each item in turn, the k-th item receiving id next + k. */
  function InsertedAll<T>(t: map<nat, T>, next: nat, items: seq<T>): (r: map<nat, T>)
    ensures forall id :: id in r <==> id in t || next <= id < next + |items|
    ensures forall k :: 0 <= k < |items| ==> r[next + k] == items[k]
    ensures forall id :: id in t && id < next ==> r[id] == t[id]
  {
    if items == [] then t
    else
      var n := |items| - 1;
      var r' := InsertedAll(t, next, items[..n]);
      assert forall k :: 0 <= k < n ==> items[..n][k] == items[k];
      r'[next + n := items[n]]
  }

  /** Writing a key twice leaves the second value. */
  lemma Overwrite<T>(m: map<nat, T>, k: nat, a: T, b: T)
    ensures m[k := a][k := b] == m[k := b]
  {
  }

  /** An id below the first inserted one holds what it held before. */
  lemma InsertedAllOld<T>(t: map<nat, T>, next: nat, items: seq<T>, id: nat)
    requires id in InsertedAll(t, next, items) && id < next
    ensures id in t && InsertedAll(t, next, items)[id] == t[id]
  {
  }

  /** Inserting one more item extends the table by that item at the next id. */
  lemma {:induction false} InsertedAllSnoc<T>(t: map<nat, T>, next: nat, items: seq<T>, x: T)
    ensures InsertedAll(t, next, items + [x]) == InsertedAll(t, next, items)[next + |items| := x]
  {
    assert (items + [x])[..|items|] == items;
  }

  /** delete_records on one column: the table without the rows whose `column` holds `value`. */
  function DeletedWhere<T>(t: map<nat, T>, column: T -> nat, value: nat): (r: map<nat, T>)
    ensures forall id :: id in r <==> id in t && column(t[id]) != value
    ensures forall id :: id in r ==> r[id] == t[id]
  {
    map id | id in t && column(t[id]) != value :: t[id]
  }

  /** The table without the rows of one recording (delete_records by recordingid). */
  function WithoutRecording(t: map<nat, AnalysisRow>, recordingId: nat): (r: map<nat, AnalysisRow>)
    ensures forall id :: id in r <==> id in t && t[id].recordingId != recordingId
    ensures forall id :: id in r ==> r[id] == t[id]
  {
    DeletedWhere(t, (a: AnalysisRow) => a.recordingId, recordingId)
  }

  /** Deleting rows keeps one analysis per recording. */
  lemma {:induction false} WithoutRecordingValid(t: map<nat, AnalysisRow>, recordingId: nat)
    requires OnePerRecording(t)
    ensures OnePerRecording(WithoutRecording(t, recordingId))
    ensures FindByRecording(WithoutRecording(t, recordingId), recordingId).None?
  {
  }
}
