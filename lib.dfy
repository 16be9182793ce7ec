/**
 * The module-level functions of lib.php that the activity relies on: the
 * recording listing (order, window, AI join and summary preview), the
 * Drive sync used by the scheduled sync, the holiday and cancelled-date
 * forms and their day lookups. Days are UTC days: midnight of a timestamp
 * is the timestamp less its remainder modulo 86400.
 */
module Lib {
  import opened Wrappers
  import opened Php
  import opened Query
  import opened Store
  import opened RecordingSync

  /** Seconds in a day (DAYSECS). */
  const DaySeconds: int := 86400

  /** strtotime('midnight', t) in UTC: the start of the day holding t. */
  function Midnight(t: int): (m: int)
    ensures m <= t < m + DaySeconds && m % DaySeconds == 0
  {
    t - t % DaySeconds
  }

  /** Two timestamps of the same day have the same midnight, and midnights of different days differ. */
  lemma {:induction false} MidnightSameDay(t: int, u: int)
    ensures Midnight(t) == Midnight(u) <==> t / DaySeconds == u / DaySeconds
  {
  }

  // ---------------------------------------------------------------------------
  // googlemeet_list_recordings

  /** strtoupper($order) === 'ASC'; any other order is DESC. */
  predicate IsAscending(order: string)
  {
    ToUpper(order) == "ASC"
  }

  /** The order is ascending exactly for the three letters a, s, c in either case. */
  lemma {:induction false} IsAscendingSpec(order: string)
    ensures IsAscending(order) <==>
      |order| == 3 && order[0] in "aA" && order[1] in "sS" && order[2] in "cC"
  {
    if |order| == 3 {
      var u := ToUpper(order);
      assert u == "ASC" <==> u[0] == 'A' && u[1] == 'S' && u[2] == 'C';
    }
  }

  /** The preview keeps this many bytes of a longer summary. */
  const PreviewLength: nat := 200

  /** The summary preview: the summary itself, or its first 200 bytes and "..." when it is longer. */
  function Preview(summary: string): (r: string)
    ensures |r| <= PreviewLength + 3
    ensures |summary| <= PreviewLength ==> r == summary
    ensures |summary| > PreviewLength ==> r == summary[..PreviewLength] + "..."
  {
    if |summary| > PreviewLength then summary[..PreviewLength] + "..." else summary
  }

  /** `rows` is what get_records returns for the query: each matching recording once. */
  predicate Selects(recordings: map<nat, Recording>, googlemeetId: nat, onlyVisible: bool, rows: seq<nat>)
  {
    && (forall k :: 0 <= k < |rows| ==> rows[k] in recordings && Matches(recordings[rows[k]], googlemeetId, onlyVisible))
    && (forall id :: id in recordings && Matches(recordings[id], googlemeetId, onlyVisible) ==> id in rows)
    && (forall j, k :: 0 <= j < k < |rows| ==> rows[j] != rows[k])
  }

  /** The query's conditions: the activity, and the visible flag when only visible recordings are shown. */
  predicate Matches(r: Recording, googlemeetId: nat, onlyVisible: bool)
  {
    r.googlemeetId == googlemeetId && (onlyVisible ==> r.visible)
  }

  /** The selected rows with their records. */
  function Entries(recordings: map<nat, Recording>, rows: seq<nat>): (es: seq<(nat, Recording)>)
    requires forall k :: 0 <= k < |rows| ==> rows[k] in recordings
    ensures |es| == |rows| && forall k :: 0 <= k < |rows| ==> es[k] == (rows[k], recordings[rows[k]])
    ensures forall e :: e in es ==> e.0 in rows && e.1 == recordings[e.0]
  {
    seq(|rows|, k requires 0 <= k < |rows| => (rows[k], recordings[rows[k]]))
  }

  /** The ORDER BY createdtime key: ascending, or descending as the negated time. */
  function CreatedKey(ascending: bool): (key: ((nat, Recording)) -> int)
    ensures forall e :: key(e) == if ascending then e.1.createdTime else -e.1.createdTime
  {
    if ascending then (e: (nat, Recording)) => e.1.createdTime else (e: (nat, Recording)) => -e.1.createdTime
  }

  /** Sorting by the key is ORDER BY createdtime ASC, or DESC when not ascending. */
  lemma CreatedKeyOrder(s: seq<(nat, Recording)>, ascending: bool)
    ensures ascending ==> (SortedBy(s, CreatedKey(ascending)) <==>
      forall i, j :: 0 <= i < j < |s| ==> s[i].1.createdTime <= s[j].1.createdTime)
    ensures !ascending ==> (SortedBy(s, CreatedKey(ascending)) <==>
      forall i, j :: 0 <= i < j < |s| ==> s[i].1.createdTime >= s[j].1.createdTime)
  {
  }

  /** Sorting keeps the entries it was given. */
  lemma SortedWithin(entries: seq<(nat, Recording)>, key: ((nat, Recording)) -> int)
    ensures forall e :: e in SortBy(entries, key) ==> e in entries
  {
    var sorted := SortBy(entries, key);
    forall e | e in sorted ensures e in entries {
      assert e in multiset(sorted);
    }
  }

  /** The page get_records returns: the selected rows ordered by creation time, then windowed. */
  function Page(recordings: map<nat, Recording>, rows: seq<nat>, ascending: bool, limit: nat, offset: nat)
    : (page: seq<(nat, Recording)>)
    requires forall k :: 0 <= k < |rows| ==> rows[k] in recordings
    ensures limit > 0 ==> |page| <= limit
    ensures forall i :: 0 <= i < |page| ==> page[i].0 in rows && page[i].1 == recordings[page[i].0]
    ensures ascending ==> forall i, j :: 0 <= i < j < |page| ==> page[i].1.createdTime <= page[j].1.createdTime
    ensures !ascending ==> forall i, j :: 0 <= i < j < |page| ==> page[i].1.createdTime >= page[j].1.createdTime
    ensures page == Window(SortBy(Entries(recordings, rows), CreatedKey(ascending)), offset, limit)
  {
    var entries := Entries(recordings, rows);
    var key := CreatedKey(ascending);
    var sorted := SortBy(entries, key);
    var page := Window(sorted, offset, limit);
    assert |sorted| == |rows|;
    WindowSorted(sorted, offset, limit, key);
    WindowWithin(sorted, offset, limit);
    SortedWithin(entries, key);
    page
  }

  /** How many rows the page holds: none past the end, all the rest with limit 0, else at most the limit. */
  lemma PageSize(recordings: map<nat, Recording>, rows: seq<nat>, ascending: bool, limit: nat, offset: nat)
    requires forall k :: 0 <= k < |rows| ==> rows[k] in recordings
    ensures var page := Page(recordings, rows, ascending, limit, offset);
      && (offset >= |rows| ==> page == [])
      && (offset < |rows| && limit == 0 ==> |page| == |rows| - offset)
      && (offset < |rows| && limit > 0 ==> |page| == if |rows| - offset < limit then |rows| - offset else limit)
      && (offset == 0 && limit == 0 ==> multiset(page) == multiset(Entries(recordings, rows)))
  {
    var sorted := SortBy(Entries(recordings, rows), CreatedKey(ascending));
    assert |sorted| == |rows|;
    if offset == 0 && limit == 0 {
      assert Window(sorted, 0, 0) == sorted;
    }
  }

  /** The completed analysis of a recording, which is all the listing joins. */
  function CompletedAnalysis(analyses: map<nat, AnalysisRow>, recordingId: nat): (a: Option<AnalysisRow>)
    requires OnePerRecording(analyses)
    ensures a.Some? <==> exists id :: id in analyses && analyses[id].recordingId == recordingId && analyses[id].status == Completed
    ensures a.Some? ==> a.value in analyses.Values && a.value.recordingId == recordingId && a.value.status == Completed
  {
    match FindByRecording(analyses, recordingId)
    case None => None
    case Some(id) => if analyses[id].status == Completed then Some(analyses[id]) else None
  }

  /** One listed recording as the listing returns it, with the AI fields when a completed analysis was joined. */
  datatype Listed = Listed(
    id: nat,
    googlemeetId: nat,
    name: string,
    createdTime: int,
    duration: string,
    webViewLink: string,
    visible: bool,
    hasAi: bool,
    aiSummary: string,
    aiSummaryPreview: string,
    aiKeypoints: seq<string>,
    aiKeypointsCount: nat,
    aiTopics: seq<string>,
    aiModel: string,
    aiDate: Option<int>)

  /** A recording with the joined analysis, if any. */
  function Formatted(e: (nat, Recording), ai: Option<AnalysisRow>): (l: Listed)
    ensures l.id == e.0 && l.createdTime == e.1.createdTime && l.hasAi == ai.Some?
    ensures l.aiSummaryPreview == Preview(l.aiSummary) && l.aiKeypointsCount == |l.aiKeypoints|
    ensures ai.None? ==> l.aiSummary == "" && l.aiKeypoints == [] && l.aiTopics == [] && l.aiModel == "" && l.aiDate.None?
    ensures ai.Some? ==> && l.aiSummary == ai.value.summary.GetOr("") && l.aiKeypoints == ai.value.keypoints.GetOr([])
                         && l.aiTopics == ai.value.topics.GetOr([]) && l.aiModel == ai.value.aiModel.GetOr("")
                         && l.aiDate == Some(ai.value.timeModified)
    ensures && l.googlemeetId == e.1.googlemeetId && l.name == e.1.name && l.duration == e.1.duration
            && l.webViewLink == e.1.webViewLink && l.visible == e.1.visible
  {
    var r := e.1;
    match ai
    case None =>
      Listed(e.0, r.googlemeetId, r.name, r.createdTime, r.duration, r.webViewLink, r.visible,
             false, "", "", [], 0, [], "", None)
    case Some(a) =>
      var summary := a.summary.GetOr("");
      var keypoints := a.keypoints.GetOr([]);
      Listed(e.0, r.googlemeetId, r.name, r.createdTime, r.duration, r.webViewLink, r.visible,
             true, summary, Preview(summary), keypoints, |keypoints|, a.topics.GetOr([]), a.aiModel.GetOr(""),
             Some(a.timeModified))
  }

  /** The joined analysis of a page entry: only with AI included, and only a completed one. */
  function Joined(analyses: map<nat, AnalysisRow>, includeAi: bool, e: (nat, Recording)): (a: Option<AnalysisRow>)
    requires OnePerRecording(analyses)
    ensures a.Some? <==> includeAi && CompletedAnalysis(analyses, e.0).Some?
  {
    if includeAi then CompletedAnalysis(analyses, e.0) else None
  }

  /**
   * googlemeet_list_recordings: the page of the selected recordings in the
   * requested order, each with its completed analysis when AI is included.
   */
  function Listing(recordings: map<nat, Recording>, analyses: map<nat, AnalysisRow>, rows: seq<nat>,
                   includeAi: bool, order: string, limit: nat, offset: nat): (r: seq<Listed>)
    requires OnePerRecording(analyses) && forall k :: 0 <= k < |rows| ==> rows[k] in recordings
    ensures limit > 0 ==> |r| <= limit
    ensures forall i :: 0 <= i < |r| ==> r[i].id in rows
    ensures IsAscending(order) ==> forall i, j :: 0 <= i < j < |r| ==> r[i].createdTime <= r[j].createdTime
    ensures !IsAscending(order) ==> forall i, j :: 0 <= i < j < |r| ==> r[i].createdTime >= r[j].createdTime
    ensures forall i :: 0 <= i < |r| ==> (r[i].hasAi <==> includeAi && CompletedAnalysis(analyses, r[i].id).Some?)
    ensures var page := Page(recordings, rows, IsAscending(order), limit, offset);
      && |r| == |page|
      && forall i :: 0 <= i < |r| ==> r[i] == Formatted(page[i], Joined(analyses, includeAi, page[i]))
  {
    var page := Page(recordings, rows, IsAscending(order), limit, offset);
    var r := seq(|page|, i requires 0 <= i < |page| => Formatted(page[i], Joined(analyses, includeAi, page[i])));
    assert forall i :: 0 <= i < |r| ==>
      && r[i].id == page[i].0 && r[i].createdTime == page[i].1.createdTime
      && (r[i].hasAi <==> includeAi && CompletedAnalysis(analyses, r[i].id).Some?);
    r
  }

  /** The formatting loop of googlemeet_list_recordings. */
  method ListRecordings(db: Database, rows: seq<nat>, includeAi: bool, order: string, limit: nat, offset: nat)
    returns (listed: seq<Listed>)
    requires db.Valid() && forall k :: 0 <= k < |rows| ==> rows[k] in db.recordings
    ensures listed == Listing(db.recordings, db.analyses, rows, includeAi, order, limit, offset)
  {
    var page := Page(db.recordings, rows, IsAscending(order), limit, offset);
    listed := [];
    for i := 0 to |page|
      invariant |listed| == i
      invariant forall k :: 0 <= k < i ==> listed[k] == Formatted(page[k], Joined(db.analyses, includeAi, page[k]))
    {
      var ai := None;
      if includeAi {
        ai := CompletedAnalysis(db.analyses, page[i].0);
      }
      listed := listed + [Formatted(page[i], ai)];
    }
  }

  // ---------------------------------------------------------------------------
  // sync_recordings

  /** The counters sync_recordings returns. */
  datatype Stats = Stats(inserted: nat, updated: nat, deleted: nat)

  /** The listed rows that no incoming file carries. */
  function StaleRows(recordings: map<nat, Recording>, rows: seq<nat>, fileIds: seq<string>): (ids: set<nat>)
    requires forall k :: 0 <= k < |rows| ==> rows[k] in recordings
    ensures forall id :: id in ids <==> id in rows && Stale(recordings[id], fileIds)
  {
    set k | 0 <= k < |rows| && Stale(recordings[rows[k]], fileIds) :: rows[k]
  }

  /** How many listed rows are stale. */
  function StaleCount(recordings: map<nat, Recording>, rows: seq<nat>, fileIds: seq<string>): (n: nat)
    requires forall k :: 0 <= k < |rows| ==> rows[k] in recordings
    ensures n <= |rows|
    ensures n == 0 <==> forall k :: 0 <= k < |rows| ==> !Stale(recordings[rows[k]], fileIds)
  {
    if rows == [] then 0
    else
      var m := |rows| - 1;
      assert forall k :: 0 <= k < m ==> rows[..m][k] == rows[k];
      StaleCount(recordings, rows[..m], fileIds) + if Stale(recordings[rows[m]], fileIds) then 1 else 0
  }

  /** The analysis table without the rows of the given recordings. */
  function WithoutRecordings(t: map<nat, AnalysisRow>, ids: set<nat>): (r: map<nat, AnalysisRow>)
    ensures forall id :: id in r <==> id in t && t[id].recordingId !in ids
    ensures forall id :: id in r ==> r[id] == t[id]
  {
    map id | id in t && t[id].recordingId !in ids :: t[id]
  }

  /** One more listed row adds its id to the stale ids exactly when it is stale. */
  lemma {:induction false} StaleRowsSnoc(recordings: map<nat, Recording>, rows: seq<nat>, id: nat, fileIds: seq<string>)
    requires forall k :: 0 <= k < |rows| ==> rows[k] in recordings
    requires id in recordings
    ensures StaleRows(recordings, rows + [id], fileIds)
      == StaleRows(recordings, rows, fileIds) + if Stale(recordings[id], fileIds) then {id} else {}
  {
    assert forall x :: x in rows + [id] <==> x in rows || x == id;
  }

  /** Deleting one more recording's analyses is deleting the larger set. */
  lemma {:induction false} WithoutRecordingsStep(t: map<nat, AnalysisRow>, ids: set<nat>, id: nat)
    ensures WithoutRecording(WithoutRecordings(t, ids), id) == WithoutRecordings(t, ids + {id})
  {
  }

  /**
   * The analysis deletes of sync_recordings, with the delete as intended:
   * the analysis of every stale row is deleted, and the count is returned.
   */
  method DeleteStaleAnalyses(db: Database, rows: seq<nat>, fileIds: seq<string>) returns (deleted: nat)
    requires db.Valid() && forall k :: 0 <= k < |rows| ==> rows[k] in db.recordings
    modifies db`analyses
    ensures db.Valid()
    ensures deleted == StaleCount(db.recordings, rows, fileIds)
    ensures db.analyses == WithoutRecordings(old(db.analyses), StaleRows(db.recordings, rows, fileIds))
  {
    deleted := 0;
    var i := 0;
    assert rows[..0] == [];
    while i < |rows|
      invariant 0 <= i <= |rows| && db.Valid()
      invariant deleted == StaleCount(db.recordings, rows[..i], fileIds)
      invariant db.analyses == WithoutRecordings(old(db.analyses), StaleRows(db.recordings, rows[..i], fileIds))
    {
      assert rows[..i + 1] == rows[..i] + [rows[i]];
      var d := DeleteIfStale(db, old(db.analyses), rows[..i], rows[i], fileIds);
      deleted := deleted + d;
      ghost var next := rows[..i + 1];
      i := i + 1;
      assert rows[..i] == next;
    }
    assert rows[..i] == rows;
  }

  /** One pass of the delete loop: the analyses of `id` go when its row is stale. */
  method DeleteIfStale(db: Database, ghost t0: map<nat, AnalysisRow>, ghost done: seq<nat>, id: nat, fileIds: seq<string>)
    returns (d: nat)
    requires db.Valid() && id in db.recordings && forall k :: 0 <= k < |done| ==> done[k] in db.recordings
    requires db.analyses == WithoutRecordings(t0, StaleRows(db.recordings, done, fileIds))
    modifies db`analyses
    ensures db.Valid()
    ensures db.analyses == WithoutRecordings(t0, StaleRows(db.recordings, done + [id], fileIds))
    ensures StaleCount(db.recordings, done + [id], fileIds) == StaleCount(db.recordings, done, fileIds) + d
  {
    assert (done + [id])[..|done|] == done;
    StaleRowsSnoc(db.recordings, done, id, fileIds);
    d := 0;
    if Stale(db.recordings[id], fileIds) {
      WithoutRecordingsStep(t0, StaleRows(db.recordings, done, fileIds), id);
      WithoutRecordingValid(db.analyses, id);
      db.analyses := WithoutRecording(db.analyses, id);
      d := 1;
    }
  }

  /**
   * The analysis delete of sync_recordings as written: only the analyses of
   * the last stale row go, because the loop overwrites `$deleterecordings['id']`,
   * and `deleted` is 1 whenever any row is stale.
   */
  function DeleteStaleAnalysesAsWritten(t: map<nat, AnalysisRow>, recordings: map<nat, Recording>, rows: seq<nat>,
                                        fileIds: seq<string>): (r: (map<nat, AnalysisRow>, nat))
    requires forall k :: 0 <= k < |rows| ==> rows[k] in recordings
    ensures r.1 <= 1 && (r.1 == 0 <==> StaleCount(recordings, rows, fileIds) == 0)
    ensures forall id :: id in r.0 <==> id in t && Some(t[id].recordingId) != LastStale(recordings, rows, fileIds)
    ensures forall id :: id in r.0 ==> r.0[id] == t[id]
  {
    match LastStaleIndex(recordings, rows, fileIds)
    case None => (t, 0)
    case Some(k) => (WithoutRecording(t, rows[k]), 1)
  }

  /**
   * With two stale rows, the delete as written keeps the earlier row's
   * analysis and reports one deletion; the corrected delete removes that
   * analysis and counts both rows.
   */
  lemma {:induction false} EarlierStaleAnalysisSurvives(t: map<nat, AnalysisRow>, recordings: map<nat, Recording>,
                                                        googlemeetId: nat, rows: seq<nat>, fileIds: seq<string>,
                                                        j: nat, k: nat, a: nat)
    requires Lists(recordings, googlemeetId, rows)
    requires j < k < |rows| && Stale(recordings[rows[j]], fileIds) && Stale(recordings[rows[k]], fileIds)
    requires a in t && t[a].recordingId == rows[j]
    ensures var r := DeleteStaleAnalysesAsWritten(t, recordings, rows, fileIds);
      a in r.0 && r.0[a] == t[a] && r.1 == 1
    ensures a !in WithoutRecordings(t, StaleRows(recordings, rows, fileIds))
    ensures StaleCount(recordings, rows, fileIds) >= 2
  {
    var i := LastStaleIndex(recordings, rows, fileIds);
    assert i.Some? && i.value >= k;
    StaleCountAtLeastTwo(recordings, rows, fileIds, j, k);
  }

  /** Two stale listed rows count twice. */
  lemma {:induction false} StaleCountAtLeastTwo(recordings: map<nat, Recording>, rows: seq<nat>, fileIds: seq<string>,
                                                j: nat, k: nat)
    requires forall i :: 0 <= i < |rows| ==> rows[i] in recordings
    requires j < k < |rows| && Stale(recordings[rows[j]], fileIds) && Stale(recordings[rows[k]], fileIds)
    ensures StaleCount(recordings, rows, fileIds) >= 2
    decreases |rows|
  {
    var m := |rows| - 1;
    assert forall i :: 0 <= i < m ==> rows[..m][i] == rows[i];
    if k < m {
      StaleCountAtLeastTwo(recordings, rows[..m], fileIds, j, k);
    } else {
      assert rows[..m][j] == rows[j];
    }
  }

  /** Whether sync_recordings writes lastsync: after updates, after inserts, or when nothing was deleted. */
  predicate TouchesLastSync(updated: bool, inserted: bool, deleted: bool)
  {
    updated || inserted || !deleted
  }

  /**
   * sync_recordings of lib.php: files flagged unprocessed take no part; the
   * stale rows and their analyses are deleted; the updates and inserts carry
   * transcripts; the counters say how many rows each step touched.
   */
  method SyncRecordings(db: Database, googlemeetId: nat, files: seq<DriveRecording>, rows: seq<nat>, now: int)
    returns (stats: Stats)
    requires db.Valid() && Lists(db.recordings, googlemeetId, rows) && googlemeetId in db.instances
    modifies db`recordings, db`nextRecordingId, db`instances, db`analyses
    ensures db.Valid()
    ensures db.analyses == WithoutRecordings(old(db.analyses), StaleRows(old(db.recordings), rows, FileIds(files)))
    ensures db.recordings == SyncedRecordings(old(db.recordings), googlemeetId, rows, files, old(db.nextRecordingId), now, true)
    ensures var p := Partition(files, StoredIds(old(db.recordings), rows), true);
      stats == Stats(|p.1|, |p.0|, StaleCount(old(db.recordings), rows, FileIds(files)))
    ensures db.instances == if TouchesLastSync(stats.updated > 0, stats.inserted > 0, stats.deleted > 0)
      then old(db.instances)[googlemeetId := old(db.instances)[googlemeetId].(lastSync := now)]
      else old(db.instances)
  {
    var deleted := DeleteStaleAnalyses(db, rows, FileIds(files));
    var updates, inserts := Reconcile(db, googlemeetId, rows, files, now, true);
    stats := Stats(|inserts|, |updates|, deleted);
    TouchLastSync(db, googlemeetId, updates != [] || inserts != [] || deleted == 0, now);
  }

  /** The lastsync writes of sync_recordings. */
  method TouchLastSync(db: Database, googlemeetId: nat, touch: bool, now: int)
    requires googlemeetId in db.instances
    modifies db`instances
    ensures db.instances == if touch
      then old(db.instances)[googlemeetId := old(db.instances)[googlemeetId].(lastSync := now)]
      else old(db.instances)
  {
    if touch {
      db.instances := db.instances[googlemeetId := db.instances[googlemeetId].(lastSync := now)];
    }
  }

  /** A sync that only deletes leaves lastsync where it was; every other sync moves it. */
  lemma {:induction false} LastSyncUnlessOnlyDeleted(updated: nat, inserted: nat, deleted: nat)
    ensures !TouchesLastSync(updated > 0, inserted > 0, deleted > 0) <==> updated == 0 && inserted == 0 && deleted > 0
  {
  }

  // ---------------------------------------------------------------------------
  // Holidays and cancelled dates

  /** `$array[$i] ?? null`: the entry, if the form sent one at that index. */
  function At<T>(s: seq<T>, i: nat): (r: Option<T>)
    ensures r.Some? <==> i < |s|
    ensures r.Some? ==> r.value == s[i]
  {
    if i < |s| then Some(s[i]) else None
  }

  /** A timestamp PHP treats as true: present and non-zero. */
  predicate Truthy(t: Option<int>)
  {
    t.Some? && t.value != 0
  }

  /** The repeated holiday fields of the activity form. */
  datatype HolidayForm = HolidayForm(addMultiply: bool, repeats: nat, startDates: seq<int>, endDates: seq<int>, names: seq<string>)

  /** The holiday row entry i of the form yields, if both dates are set and the end is not before the start. */
  function HolidayEntry(googlemeetId: nat, form: HolidayForm, i: nat, now: int): (h: Option<Holiday>)
    ensures h.Some? <==> Truthy(At(form.startDates, i)) && Truthy(At(form.endDates, i))
                         && At(form.endDates, i).value >= At(form.startDates, i).value
    ensures h.Some? ==> h.value == Holiday(googlemeetId, At(form.names, i).GetOr(""), form.startDates[i], form.endDates[i], now)
  {
    var start := At(form.startDates, i);
    var end := At(form.endDates, i);
    if Truthy(start) && Truthy(end) && end.value >= start.value then
      Some(Holiday(googlemeetId, At(form.names, i).GetOr(""), start.value, end.value, now))
    else None
  }

  /** A stored holiday period: both dates set and in order. */
  predicate ValidPeriod(h: Holiday)
  {
    h.startDate != 0 && h.endDate != 0 && h.startDate <= h.endDate
  }

  /** The rows the first n form entries yield, in form order. */
  function HolidayRows(googlemeetId: nat, form: HolidayForm, n: nat, now: int): (hs: seq<Holiday>)
    ensures |hs| <= n
    ensures forall k :: 0 <= k < |hs| ==> ValidPeriod(hs[k]) && hs[k].googlemeetId == googlemeetId
    ensures forall i :: 0 <= i < n && HolidayEntry(googlemeetId, form, i, now).Some? ==>
      HolidayEntry(googlemeetId, form, i, now).value in hs
    ensures forall k :: 0 <= k < |hs| ==> exists i :: 0 <= i < n && HolidayEntry(googlemeetId, form, i, now) == Some(hs[k])
  {
    if n == 0 then []
    else
      var prev := HolidayRows(googlemeetId, form, n - 1, now);
      match HolidayEntry(googlemeetId, form, n - 1, now)
      case None => prev
      case Some(h) => prev + [h]
  }

  /** The holidays table without the activity's rows (delete_records by googlemeetid). */
  function OtherHolidays(t: map<nat, Holiday>, googlemeetId: nat): (r: map<nat, Holiday>)
    ensures forall id :: id in r <==> id in t && t[id].googlemeetId != googlemeetId
    ensures forall id :: id in r ==> r[id] == t[id]
  {
    DeletedWhere(t, (h: Holiday) => h.googlemeetId, googlemeetId)
  }

  /** What googlemeet_save_holidays stores: nothing unless recurrence is on and repeats were sent. */
  function SavedHolidays(googlemeetId: nat, form: HolidayForm, now: int): seq<Holiday>
  {
    if !form.addMultiply || form.repeats == 0 then [] else HolidayRows(googlemeetId, form, form.repeats, now)
  }

  /**
   * googlemeet_save_holidays: the activity's holidays are replaced by the
   * form's valid entries, each with a fresh id.
   */
  method SaveHolidays(db: Database, googlemeetId: nat, form: HolidayForm, now: int)
    requires db.Valid()
    modifies db`holidays, db`nextHolidayId
    ensures db.Valid()
    ensures db.holidays == InsertedAll(OtherHolidays(old(db.holidays), googlemeetId), old(db.nextHolidayId),
                                       SavedHolidays(googlemeetId, form, now))
  {
    db.holidays := OtherHolidays(db.holidays, googlemeetId);
    assert db.Valid();
    if !form.addMultiply || form.repeats == 0 {
      return;
    }
    ghost var base := db.holidays;
    ghost var next := db.nextHolidayId;
    for i := 0 to form.repeats
      invariant db.Valid()
      invariant SavingHolidays(base, next, googlemeetId, form, i, now, db.holidays, db.nextHolidayId)
    {
      SaveHolidayEntry(db, base, next, googlemeetId, form, i, now);
    }
  }

  /** The first i form entries are saved: their rows are inserted above `next` into `base`. */
  ghost predicate SavingHolidays(base: map<nat, Holiday>, next: nat, googlemeetId: nat, form: HolidayForm, i: nat, now: int,
                                 holidays: map<nat, Holiday>, nextId: nat)
  {
    var rows := HolidayRows(googlemeetId, form, i, now);
    nextId == next + |rows| && holidays == InsertedAll(base, next, rows)
  }

  /** One pass of googlemeet_save_holidays's loop: the i-th entry is inserted when it is a valid period. */
  method SaveHolidayEntry(db: Database, ghost base: map<nat, Holiday>, ghost next: nat, googlemeetId: nat,
                          form: HolidayForm, i: nat, now: int)
    requires db.Valid() && SavingHolidays(base, next, googlemeetId, form, i, now, db.holidays, db.nextHolidayId)
    modifies db`holidays, db`nextHolidayId
    ensures db.Valid() && SavingHolidays(base, next, googlemeetId, form, i + 1, now, db.holidays, db.nextHolidayId)
  {
    var entry := HolidayEntry(googlemeetId, form, i, now);
    ghost var rows := HolidayRows(googlemeetId, form, i, now);
    if entry.Some? {
      assert HolidayRows(googlemeetId, form, i + 1, now) == rows + [entry.value];
      InsertedAllSnoc(base, next, rows, entry.value);
      var _ := db.InsertHoliday(entry.value);
    } else {
      assert HolidayRows(googlemeetId, form, i + 1, now) == rows;
    }
  }

  /** After the save, the activity's holidays are exactly the form's valid entries, and other activities keep theirs. */
  lemma {:induction false} SavedHolidaysSpec(t: map<nat, Holiday>, next: nat, googlemeetId: nat, form: HolidayForm, now: int)
    requires forall id :: id in t ==> id < next
    ensures var r := InsertedAll(OtherHolidays(t, googlemeetId), next, SavedHolidays(googlemeetId, form, now));
      && (forall id :: id in r && r[id].googlemeetId == googlemeetId ==> ValidPeriod(r[id]))
      && (forall id :: id in t && t[id].googlemeetId != googlemeetId ==> id in r && r[id] == t[id])
      && (forall i :: 0 <= i < form.repeats && form.addMultiply && HolidayEntry(googlemeetId, form, i, now).Some? ==>
            HolidayEntry(googlemeetId, form, i, now).value in r.Values)
      && (forall id :: id in r && r[id].googlemeetId == googlemeetId ==>
            form.addMultiply && exists i :: 0 <= i < form.repeats && HolidayEntry(googlemeetId, form, i, now) == Some(r[id]))
  {
    var others := OtherHolidays(t, googlemeetId);
    var saved := SavedHolidays(googlemeetId, form, now);
    var r := InsertedAll(others, next, saved);
    forall id | id in r && r[id].googlemeetId == googlemeetId
      ensures ValidPeriod(r[id])
      ensures form.addMultiply && exists i :: 0 <= i < form.repeats && HolidayEntry(googlemeetId, form, i, now) == Some(r[id])
    {
      assert r[next + (id - next)] == saved[id - next];
    }
    forall i | 0 <= i < form.repeats && form.addMultiply && HolidayEntry(googlemeetId, form, i, now).Some?
      ensures HolidayEntry(googlemeetId, form, i, now).value in r.Values
    {
      var h := HolidayEntry(googlemeetId, form, i, now).value;
      assert h in saved;
      var k :| 0 <= k < |saved| && saved[k] == h;
      assert r[next + k] == h;
    }
  }

  /** googlemeet_is_holiday: the day of t lies within the days of some period, both ends included. */
  function IsHoliday(t: int, holidays: seq<Holiday>): (b: bool)
    ensures b <==> exists k :: 0 <= k < |holidays| && Covers(holidays[k], t)
  {
    if holidays == [] then false
    else if Covers(holidays[0], t) then true
    else
      assert forall k :: 1 <= k < |holidays| ==> holidays[1..][k - 1] == holidays[k];
      IsHoliday(t, holidays[1..])
  }

  /** The day of t lies from the start day to the end day of the period. */
  predicate Covers(h: Holiday, t: int)
  {
    Midnight(h.startDate) <= Midnight(t) <= Midnight(h.endDate)
  }

  /** Whether a moment is a holiday depends only on its day. */
  lemma {:induction false} HolidayByDay(t: int, u: int, holidays: seq<Holiday>)
    requires t / DaySeconds == u / DaySeconds
    ensures IsHoliday(t, holidays) == IsHoliday(u, holidays)
  {
    MidnightSameDay(t, u);
    assert forall k :: 0 <= k < |holidays| ==> (Covers(holidays[k], t) <==> Covers(holidays[k], u));
  }

  /** The repeated cancelled-date fields of the activity form. */
  datatype CancelledForm = CancelledForm(addMultiply: bool, repeats: nat, dates: seq<int>, reasons: seq<string>)

  /** The cancelled row entry i of the form yields, if its date is set. */
  function CancelledEntry(googlemeetId: nat, form: CancelledForm, i: nat, now: int): (c: Option<Cancelled>)
    ensures c.Some? <==> Truthy(At(form.dates, i))
    ensures c.Some? ==> c.value == Cancelled(googlemeetId, form.dates[i], At(form.reasons, i).GetOr(""), now)
  {
    var date := At(form.dates, i);
    if Truthy(date) then Some(Cancelled(googlemeetId, date.value, At(form.reasons, i).GetOr(""), now)) else None
  }

  /** The rows the first n form entries yield, in form order. */
  function CancelledRows(googlemeetId: nat, form: CancelledForm, n: nat, now: int): (cs: seq<Cancelled>)
    ensures |cs| <= n
    ensures forall k :: 0 <= k < |cs| ==> cs[k].date != 0 && cs[k].googlemeetId == googlemeetId
    ensures forall i :: 0 <= i < n && CancelledEntry(googlemeetId, form, i, now).Some? ==>
      CancelledEntry(googlemeetId, form, i, now).value in cs
    ensures forall k :: 0 <= k < |cs| ==> exists i :: 0 <= i < n && CancelledEntry(googlemeetId, form, i, now) == Some(cs[k])
  {
    if n == 0 then []
    else
      var prev := CancelledRows(googlemeetId, form, n - 1, now);
      match CancelledEntry(googlemeetId, form, n - 1, now)
      case None => prev
      case Some(c) => prev + [c]
  }

  /** The cancelled table without the activity's rows. */
  function OtherCancelled(t: map<nat, Cancelled>, googlemeetId: nat): (r: map<nat, Cancelled>)
    ensures forall id :: id in r <==> id in t && t[id].googlemeetId != googlemeetId
    ensures forall id :: id in r ==> r[id] == t[id]
  {
    DeletedWhere(t, (c: Cancelled) => c.googlemeetId, googlemeetId)
  }

  /** What googlemeet_save_cancelled stores: nothing unless recurrence is on and repeats were sent. */
  function SavedCancelled(googlemeetId: nat, form: CancelledForm, now: int): seq<Cancelled>
  {
    if !form.addMultiply || form.repeats == 0 then [] else CancelledRows(googlemeetId, form, form.repeats, now)
  }

  /** googlemeet_save_cancelled: the activity's cancelled dates are replaced by the form's dated entries. */
  method SaveCancelled(db: Database, googlemeetId: nat, form: CancelledForm, now: int)
    requires db.Valid()
    modifies db`cancelled, db`nextCancelledId
    ensures db.Valid()
    ensures db.cancelled == InsertedAll(OtherCancelled(old(db.cancelled), googlemeetId), old(db.nextCancelledId),
                                        SavedCancelled(googlemeetId, form, now))
  {
    db.cancelled := OtherCancelled(db.cancelled, googlemeetId);
    assert db.Valid();
    if !form.addMultiply || form.repeats == 0 {
      return;
    }
    ghost var base := db.cancelled;
    ghost var next := db.nextCancelledId;
    for i := 0 to form.repeats
      invariant db.Valid()
      invariant SavingCancelled(base, next, googlemeetId, form, i, now, db.cancelled, db.nextCancelledId)
    {
      SaveCancelledEntry(db, base, next, googlemeetId, form, i, now);
    }
  }

  /** One pass of googlemeet_save_cancelled's loop: the i-th entry is inserted when it has a date. */
  method SaveCancelledEntry(db: Database, ghost base: map<nat, Cancelled>, ghost next: nat, googlemeetId: nat,
                            form: CancelledForm, i: nat, now: int)
    requires db.Valid() && SavingCancelled(base, next, googlemeetId, form, i, now, db.cancelled, db.nextCancelledId)
    modifies db`cancelled, db`nextCancelledId
    ensures db.Valid() && SavingCancelled(base, next, googlemeetId, form, i + 1, now, db.cancelled, db.nextCancelledId)
  {
    var entry := CancelledEntry(googlemeetId, form, i, now);
    ghost var rows := CancelledRows(googlemeetId, form, i, now);
    if entry.Some? {
      assert CancelledRows(googlemeetId, form, i + 1, now) == rows + [entry.value];
      InsertedAllSnoc(base, next, rows, entry.value);
      var _ := db.InsertCancelled(entry.value);
    } else {
      assert CancelledRows(googlemeetId, form, i + 1, now) == rows;
    }
  }

  /** The first i form entries are saved: their rows are inserted above `next` into `base`. */
  ghost predicate SavingCancelled(base: map<nat, Cancelled>, next: nat, googlemeetId: nat, form: CancelledForm, i: nat, now: int,
                                  cancelled: map<nat, Cancelled>, nextId: nat)
  {
    var rows := CancelledRows(googlemeetId, form, i, now);
    nextId == next + |rows| && cancelled == InsertedAll(base, next, rows)
  }

  /** After the save, the activity's cancelled dates are the form's dated entries, and other activities keep theirs. */
  lemma {:induction false} SavedCancelledSpec(t: map<nat, Cancelled>, next: nat, googlemeetId: nat, form: CancelledForm, now: int)
    requires forall id :: id in t ==> id < next
    ensures var r := InsertedAll(OtherCancelled(t, googlemeetId), next, SavedCancelled(googlemeetId, form, now));
      && (forall id :: id in r && r[id].googlemeetId == googlemeetId ==> r[id].date != 0)
      && (forall id :: id in t && t[id].googlemeetId != googlemeetId ==> id in r && r[id] == t[id])
      && (forall i :: 0 <= i < form.repeats && form.addMultiply && CancelledEntry(googlemeetId, form, i, now).Some? ==>
            CancelledEntry(googlemeetId, form, i, now).value in r.Values)
      && (forall id :: id in r && r[id].googlemeetId == googlemeetId ==>
            form.addMultiply && exists i :: 0 <= i < form.repeats && CancelledEntry(googlemeetId, form, i, now) == Some(r[id]))
  {
    var others := OtherCancelled(t, googlemeetId);
    var saved := SavedCancelled(googlemeetId, form, now);
    var r := InsertedAll(others, next, saved);
    forall id | id in r && r[id].googlemeetId == googlemeetId
      ensures r[id].date != 0
      ensures form.addMultiply && exists i :: 0 <= i < form.repeats && CancelledEntry(googlemeetId, form, i, now) == Some(r[id])
    {
      assert r[next + (id - next)] == saved[id - next];
    }
    forall i | 0 <= i < form.repeats && form.addMultiply && CancelledEntry(googlemeetId, form, i, now).Some?
      ensures CancelledEntry(googlemeetId, form, i, now).value in r.Values
    {
      var c := CancelledEntry(googlemeetId, form, i, now).value;
      assert c in saved;
      var k :| 0 <= k < |saved| && saved[k] == c;
      assert r[next + k] == c;
    }
  }

  /** The entry is for the day of t. */
  predicate SameDay(c: Cancelled, t: int)
  {
    Midnight(c.date) == Midnight(t)
  }

  /** googlemeet_is_cancelled: the position of the first entry on the day of t, if any. */
  function FirstCancelled(t: int, cancelled: seq<Cancelled>): (r: Option<nat>)
    ensures r.Some? ==> r.value < |cancelled| && SameDay(cancelled[r.value], t)
    ensures r.Some? ==> forall j :: 0 <= j < r.value ==> !SameDay(cancelled[j], t)
    ensures r.None? <==> forall j :: 0 <= j < |cancelled| ==> !SameDay(cancelled[j], t)
  {
    if cancelled == [] then None
    else if SameDay(cancelled[0], t) then Some(0)
    else
      match FirstCancelled(t, cancelled[1..])
      case None => None
      case Some(j) => Some(j + 1)
  }

  /** googlemeet_is_cancelled's answer: the first entry for the day, or false. */
  function IsCancelled(t: int, cancelled: seq<Cancelled>): (r: Option<Cancelled>)
    ensures r.Some? ==> r.value in cancelled && SameDay(r.value, t)
    ensures r.None? <==> forall j :: 0 <= j < |cancelled| ==> !SameDay(cancelled[j], t)
  {
    match FirstCancelled(t, cancelled)
    case None => None
    case Some(k) => Some(cancelled[k])
  }
}
