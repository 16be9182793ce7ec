/**
 * The reconciliation of an activity's stored recordings with the Drive files
 * of its meetings, shared by the sync_recordings web service
 * (classes/external.php) and the sync_recordings function of lib.php. An
 * incoming file whose Drive id is already stored updates that row, the others
 * are inserted, and a stored row whose Drive id is carried by no incoming
 * file is stale.
 */
module RecordingSync {
  import opened Wrappers
  import opened Php
  import opened Store

  /** One Drive recording as the sync receives it; lib.php's files may also be flagged unprocessed and carry a transcript. */
  datatype DriveRecording = DriveRecording(
    recordingId: string,
    name: string,
    createdTime: int,
    duration: string,
    webViewLink: string,
    unprocessed: bool,
    transcriptText: string,
    transcriptFileId: Option<string>)

  /** `rows` is what get_records returns for the activity: each of its recordings once, in the database's order. */
  predicate Lists(recordings: map<nat, Recording>, googlemeetId: nat, rows: seq<nat>)
  {
    && (forall k :: 0 <= k < |rows| ==> rows[k] in recordings && recordings[rows[k]].googlemeetId == googlemeetId)
    && (forall id :: id in recordings && recordings[id].googlemeetId == googlemeetId ==> id in rows)
    && (forall j, k :: 0 <= j < k < |rows| ==> rows[j] != rows[k])
  }

  /** The recordingid column of the listed rows. */
  function StoredIds(recordings: map<nat, Recording>, rows: seq<nat>): (ids: seq<string>)
    requires forall k :: 0 <= k < |rows| ==> rows[k] in recordings
    ensures |ids| == |rows| && forall k :: 0 <= k < |rows| ==> ids[k] == recordings[rows[k]].driveId
  {
    seq(|rows|, k requires 0 <= k < |rows| => recordings[rows[k]].driveId)
  }

  /** The recordingId column of the incoming files. */
  function FileIds(files: seq<DriveRecording>): (ids: seq<string>)
    ensures |ids| == |files| && forall k :: 0 <= k < |files| ==> ids[k] == files[k].recordingId
  {
    seq(|files|, k requires 0 <= k < |files| => files[k].recordingId)
  }

  /** Whether a file takes part in the update/insert split: lib.php passes over files flagged unprocessed. */
  predicate Takes(f: DriveRecording, skipUnprocessed: bool)
  {
    !(skipUnprocessed && f.unprocessed)
  }

  /** The files that take part, in their order. */
  function Taken(files: seq<DriveRecording>, skipUnprocessed: bool): (r: seq<DriveRecording>)
    ensures forall f :: f in r ==> f in files && Takes(f, skipUnprocessed)
    ensures forall f :: f in files && Takes(f, skipUnprocessed) ==> f in r
    ensures !skipUnprocessed ==> r == files
  {
    if files == [] then []
    else
      var n := |files| - 1;
      assert files == files[..n] + [files[n]];
      var r' := Taken(files[..n], skipUnprocessed);
      if Takes(files[n], skipUnprocessed) then r' + [files[n]] else r'
  }

  /**
   * The update and insert lists the first loop builds: every file that takes
   * part lands in exactly one of them, in the update list iff its Drive id
   * is (strictly) among the stored ones.
   */
  function Partition(files: seq<DriveRecording>, known: seq<string>, skipUnprocessed: bool)
    : (p: (seq<DriveRecording>, seq<DriveRecording>))
    ensures multiset(p.0) + multiset(p.1) == multiset(Taken(files, skipUnprocessed))
    ensures forall f :: f in p.0 ==> f.recordingId in known
    ensures forall f :: f in p.1 ==> f.recordingId !in known
  {
    if files == [] then ([], [])
    else
      var n := |files| - 1;
      var p' := Partition(files[..n], known, skipUnprocessed);
      var f := files[n];
      var t' := Taken(files[..n], skipUnprocessed);
      assert files[..n][..|files[..n]|] == files[..n];
      assert Taken(files, skipUnprocessed) == if Takes(f, skipUnprocessed) then t' + [f] else t';
      if !Takes(f, skipUnprocessed) then p'
      else
        SharesSnoc(p'.0, p'.1, t', f);
        if f.recordingId in known then (p'.0 + [f], p'.1)
        else (p'.0, p'.1 + [f])
  }

  /** Appending one more item to either of two lists that share out `t` shares out `t + [f]`. */
  lemma SharesSnoc<T>(a: seq<T>, b: seq<T>, t: seq<T>, f: T)
    requires multiset(a) + multiset(b) == multiset(t)
    ensures multiset(a + [f]) + multiset(b) == multiset(t + [f])
    ensures multiset(a) + multiset(b + [f]) == multiset(t + [f])
  {
  }

  /** The two lists share out the files that take part, and their sizes add up to the number of such files. */
  lemma {:induction false} PartitionSpec(files: seq<DriveRecording>, known: seq<string>, skipUnprocessed: bool, f: DriveRecording)
    requires f in files && Takes(f, skipUnprocessed)
    ensures var p := Partition(files, known, skipUnprocessed);
      && |p.0| + |p.1| == |Taken(files, skipUnprocessed)|
      && (f in p.0 <==> f.recordingId in known)
      && (f in p.1 <==> f.recordingId !in known)
  {
    var p := Partition(files, known, skipUnprocessed);
    var t := Taken(files, skipUnprocessed);
    assert |multiset(p.0) + multiset(p.1)| == |multiset(t)|;
    assert f in multiset(t);
    assert f in multiset(p.0) || f in multiset(p.1);
  }

  /** The first loop of sync_recordings. */
  method PartitionFiles(files: seq<DriveRecording>, known: seq<string>, skipUnprocessed: bool)
    returns (updates: seq<DriveRecording>, inserts: seq<DriveRecording>)
    ensures (updates, inserts) == Partition(files, known, skipUnprocessed)
  {
    updates, inserts := [], [];
    for i := 0 to |files|
      invariant (updates, inserts) == Partition(files[..i], known, skipUnprocessed)
    {
      assert files[..i + 1][..i] == files[..i];
      var f := files[i];
      if Takes(f, skipUnprocessed) {
        if f.recordingId in known {
          updates := updates + [f];
        } else {
          inserts := inserts + [f];
        }
      }
    }
    assert files[..|files|] == files;
  }

  /** A stored row is stale when no incoming file carries its Drive id. */
  predicate Stale(r: Recording, fileIds: seq<string>)
  {
    r.driveId !in fileIds
  }

  /** The position the delete loop ends with: it overwrites one key, so the last stale listed row is remembered. */
  function LastStaleIndex(recordings: map<nat, Recording>, rows: seq<nat>, fileIds: seq<string>): (r: Option<nat>)
    requires forall k :: 0 <= k < |rows| ==> rows[k] in recordings
    ensures r.Some? ==> r.value < |rows| && Stale(recordings[rows[r.value]], fileIds)
    ensures r.Some? ==> forall j :: r.value < j < |rows| ==> !Stale(recordings[rows[j]], fileIds)
    ensures r.None? ==> forall k :: 0 <= k < |rows| ==> !Stale(recordings[rows[k]], fileIds)
  {
    if rows == [] then None
    else
      var n := |rows| - 1;
      if Stale(recordings[rows[n]], fileIds) then Some(n)
      else
        assert forall k :: 0 <= k < n ==> rows[..n][k] == rows[k];
        LastStaleIndex(recordings, rows[..n], fileIds)
  }

  /** The id the delete loop leaves in $deleterecordings['id'], if any. */
  function LastStale(recordings: map<nat, Recording>, rows: seq<nat>, fileIds: seq<string>): (r: Option<nat>)
    requires forall k :: 0 <= k < |rows| ==> rows[k] in recordings
    ensures r.Some? ==> r.value in recordings && Stale(recordings[r.value], fileIds)
    ensures r.None? ==> forall k :: 0 <= k < |rows| ==> !Stale(recordings[rows[k]], fileIds)
  {
    match LastStaleIndex(recordings, rows, fileIds)
    case None => None
    case Some(k) => Some(rows[k])
  }

  /** The second loop of sync_recordings. */
  method FindStale(recordings: map<nat, Recording>, rows: seq<nat>, fileIds: seq<string>) returns (stale: Option<nat>)
    requires forall k :: 0 <= k < |rows| ==> rows[k] in recordings
    ensures stale == LastStale(recordings, rows, fileIds)
  {
    stale := None;
    for i := 0 to |rows|
      invariant stale == LastStale(recordings, rows[..i], fileIds)
    {
      assert rows[..i + 1][..i] == rows[..i];
      assert rows[..i + 1][i] == rows[i];
      if Stale(recordings[rows[i]], fileIds) {
        stale := Some(rows[i]);
      } else {
        assert LastStaleIndex(recordings, rows[..i + 1], fileIds) == LastStaleIndex(recordings, rows[..i], fileIds);
        assert forall k :: 0 <= k < i ==> rows[..i + 1][k] == rows[..i][k];
      }
    }
    assert rows[..|rows|] == rows;
  }

  /** The recordings table after the delete as written: only the row LastStale names is removed. */
  function DeleteLastStale(recordings: map<nat, Recording>, rows: seq<nat>, fileIds: seq<string>): (r: map<nat, Recording>)
    requires forall k :: 0 <= k < |rows| ==> rows[k] in recordings
    ensures forall id :: id in r ==> id in recordings && r[id] == recordings[id]
    ensures forall id :: id in recordings && id !in r ==> LastStale(recordings, rows, fileIds) == Some(id)
  {
    match LastStale(recordings, rows, fileIds)
    case None => recordings
    case Some(id) => recordings - {id}
  }

  /**
   * What the delete step is evidently meant to do: remove every stale row of
   * the activity and nothing else.
   */
  function DeleteAllStale(recordings: map<nat, Recording>, googlemeetId: nat, rows: seq<nat>, fileIds: seq<string>)
    : (r: map<nat, Recording>)
    requires Lists(recordings, googlemeetId, rows)
    ensures forall id :: id in r ==> id in recordings && r[id] == recordings[id]
    ensures forall id :: id in r && r[id].googlemeetId == googlemeetId ==> !Stale(r[id], fileIds)
    ensures forall id :: id in recordings && (recordings[id].googlemeetId != googlemeetId || !Stale(recordings[id], fileIds)) ==> id in r
  {
    map id | id in recordings && !(id in rows && Stale(recordings[id], fileIds)) :: recordings[id]
  }

  /** The delete loop as intended: each listed row that no incoming file carries is deleted. */
  method DeleteStale(db: Database, googlemeetId: nat, rows: seq<nat>, fileIds: seq<string>)
    requires db.Valid() && Lists(db.recordings, googlemeetId, rows)
    modifies db`recordings
    ensures db.Valid()
    ensures db.recordings == DeleteAllStale(old(db.recordings), googlemeetId, rows, fileIds)
  {
    var table := db.recordings;
    for i := 0 to |rows|
      invariant db.Valid()
      invariant db.recordings == map id | id in table && !(id in rows[..i] && Stale(table[id], fileIds)) :: table[id]
    {
      assert forall id :: id in rows[..i + 1] <==> id in rows[..i] || id == rows[i];
      if Stale(table[rows[i]], fileIds) {
        db.recordings := db.recordings - {rows[i]};
      }
    }
    assert rows[..|rows|] == rows;
  }

  /** The stored Drive ids still describe the listed rows that survive the delete. */
  lemma {:induction false} PrunedDescribes(recordings: map<nat, Recording>, googlemeetId: nat, rows: seq<nat>, fileIds: seq<string>)
    requires Lists(recordings, googlemeetId, rows)
    ensures Describes(StoredIds(recordings, rows), DeleteAllStale(recordings, googlemeetId, rows, fileIds), rows)
  {
  }

  /** The first position of a Drive id in the stored column: get_record by recordingid finds that row. */
  function Position(known: seq<string>, d: string): (r: Option<nat>)
    ensures r.Some? ==> r.value < |known| && known[r.value] == d && forall j :: 0 <= j < r.value ==> known[j] != d
    ensures r.None? <==> d !in known
  {
    if known == [] then None
    else if known[0] == d then Some(0)
    else
      match Position(known[1..], d)
      case None => None
      case Some(j) => Some(j + 1)
  }

  /** Two rows agree on everything an update from Drive leaves alone. */
  predicate SameIdentity(a: Recording, b: Recording)
  {
    a.googlemeetId == b.googlemeetId && a.driveId == b.driveId && a.name == b.name && a.visible == b.visible
  }

  /** A row carries a file's creation time, duration and link. */
  predicate Carries(r: Recording, f: DriveRecording)
  {
    r.createdTime == f.createdTime && r.duration == f.duration && r.webViewLink == f.webViewLink
  }

  /**
   * A stored row updated from a Drive file: new creation time, duration, link
   * and modification time, the stored name kept. With fillTranscript (lib.php)
   * an empty stored transcript takes a non-empty incoming one.
   */
  function Refreshed(r: Recording, f: DriveRecording, now: int, fillTranscript: bool): (u: Recording)
    ensures SameIdentity(r, u) && Carries(u, f) && u.timeModified == now
    ensures !fillTranscript || !IsEmpty(r.transcriptText) ==>
      u.transcriptText == r.transcriptText && u.transcriptFileId == r.transcriptFileId
    ensures fillTranscript && IsEmpty(r.transcriptText) && !IsEmpty(f.transcriptText) ==>
      u.transcriptText == f.transcriptText && u.transcriptFileId == f.transcriptFileId
  {
    var u := r.(createdTime := f.createdTime, duration := f.duration, webViewLink := f.webViewLink, timeModified := now);
    if fillTranscript && !IsEmpty(f.transcriptText) && IsEmpty(r.transcriptText)
    then u.(transcriptText := f.transcriptText, transcriptFileId := f.transcriptFileId)
    else u
  }

  /** The stored column describes the listed rows that are still in the table. */
  predicate Describes(known: seq<string>, recordings: map<nat, Recording>, rows: seq<nat>)
  {
    |known| == |rows| && forall k :: 0 <= k < |rows| && rows[k] in recordings ==> known[k] == recordings[rows[k]].driveId
  }

  /**
   * `after` is `before` with some listed rows refreshed at time `now`: the
   * same rows, each keeping its identity and a non-empty transcript (and,
   * without fillTranscript, its transcript), the unlisted rows unchanged.
   */
  ghost predicate Refreshes(before: map<nat, Recording>, after: map<nat, Recording>, rows: seq<nat>, now: int, fillTranscript: bool)
  {
    && after.Keys == before.Keys
    && (forall id :: id in after ==> SameIdentity(before[id], after[id]))
    && (forall id :: id in after && id !in rows ==> after[id] == before[id])
    && (forall id :: id in after && !IsEmpty(before[id].transcriptText) ==>
         after[id].transcriptText == before[id].transcriptText)
    && (!fillTranscript ==> forall id :: id in after ==>
         after[id].transcriptText == before[id].transcriptText && after[id].transcriptFileId == before[id].transcriptFileId)
    && (forall id :: id in after && after[id] != before[id] ==> after[id].timeModified == now)
  }

  /** Every row that changed was last written from one of the files, which has its Drive id. */
  ghost predicate FromFiles(before: map<nat, Recording>, after: map<nat, Recording>, files: seq<DriveRecording>)
  {
    forall id :: id in after && id in before && after[id] != before[id] ==>
      exists k :: 0 <= k < |files| && files[k].recordingId == after[id].driveId && Carries(after[id], files[k])
  }

  /** Refreshing twice is refreshing, and the changed rows come from the files of either step. */
  lemma {:induction false} RefreshesThen(a: map<nat, Recording>, b: map<nat, Recording>, c: map<nat, Recording>, rows: seq<nat>,
                                         now: int, fillTranscript: bool, fs: seq<DriveRecording>, f: DriveRecording)
    requires Refreshes(a, b, rows, now, fillTranscript) && Refreshes(b, c, rows, now, fillTranscript)
    requires FromFiles(a, b, fs) && FromFiles(b, c, [f])
    ensures Refreshes(a, c, rows, now, fillTranscript) && FromFiles(a, c, fs + [f])
  {
    var all := fs + [f];
    forall id | id in c && id in a && c[id] != a[id]
      ensures exists k :: 0 <= k < |all| && all[k].recordingId == c[id].driveId && Carries(c[id], all[k])
    {
      if c[id] != b[id] {
        assert all[|fs|] == f;
      } else {
        var k :| 0 <= k < |fs| && fs[k].recordingId == b[id].driveId && Carries(b[id], fs[k]);
        assert all[k] == fs[k];
      }
    }
  }

  /**
   * The table after the update loop: each update rewrites the first listed
   * row with its Drive id. Rows keep their identity and a non-empty
   * transcript; a changed row was last written from a file with its Drive id.
   */
  function UpdatedAll(recordings: map<nat, Recording>, rows: seq<nat>, known: seq<string>,
                      updates: seq<DriveRecording>, now: int, fillTranscript: bool): (m: map<nat, Recording>)
    requires Describes(known, recordings, rows)
    ensures Refreshes(recordings, m, rows, now, fillTranscript)
    ensures FromFiles(recordings, m, updates)
  {
    if updates == [] then recordings
    else
      var n := |updates| - 1;
      var m' := UpdatedAll(recordings, rows, known, updates[..n], now, fillTranscript);
      assert Describes(known, m', rows);
      var m := UpdateOne(m', rows, known, updates[n], now, fillTranscript);
      RefreshesThen(recordings, m', m, rows, now, fillTranscript, updates[..n], updates[n]);
      assert updates[..n] + [updates[n]] == updates;
      m
  }

  /**
   * One update: the first listed row with the file's Drive id, if it is
   * still in the table, is refreshed from the file; nothing else changes.
   */
  function UpdateOne(recordings: map<nat, Recording>, rows: seq<nat>, known: seq<string>,
                     f: DriveRecording, now: int, fillTranscript: bool): (m: map<nat, Recording>)
    requires Describes(known, recordings, rows)
    ensures Refreshes(recordings, m, rows, now, fillTranscript)
    ensures forall id :: id in m && m[id] != recordings[id] ==> m[id].driveId == f.recordingId && Carries(m[id], f)
    ensures FromFiles(recordings, m, [f])
  {
    match Position(known, f.recordingId)
    case None => recordings
    case Some(k) =>
      if rows[k] in recordings then
        var id := rows[k];
        var m := recordings[id := Refreshed(recordings[id], f, now, fillTranscript)];
        assert m[id].driveId == f.recordingId && Carries(m[id], [f][0]);
        m
      else recordings
  }

  /** The update loop: each update rewrites the row get_record finds for its Drive id. */
  method ApplyUpdates(db: Database, rows: seq<nat>, known: seq<string>, updates: seq<DriveRecording>,
                      now: int, fillTranscript: bool)
    requires db.Valid() && Describes(known, db.recordings, rows)
    modifies db`recordings
    ensures db.Valid()
    ensures db.recordings == UpdatedAll(old(db.recordings), rows, known, updates, now, fillTranscript)
  {
    for i := 0 to |updates|
      invariant db.Valid()
      invariant db.recordings == UpdatedAll(old(db.recordings), rows, known, updates[..i], now, fillTranscript)
    {
      ghost var next := updates[..i + 1];
      assert next[..i] == updates[..i];
      assert Describes(known, db.recordings, rows);
      UpdateRow(db, rows, known, updates[i], now, fillTranscript);
      assert UpdatedAll(old(db.recordings), rows, known, next, now, fillTranscript) == db.recordings;
    }
    assert updates[..|updates|] == updates;
  }

  /** One pass of the update loop: get_record by the file's Drive id, then update_record on the row found. */
  method UpdateRow(db: Database, rows: seq<nat>, known: seq<string>, f: DriveRecording, now: int, fillTranscript: bool)
    requires db.Valid() && Describes(known, db.recordings, rows)
    modifies db`recordings
    ensures db.Valid()
    ensures db.recordings == UpdateOne(old(db.recordings), rows, known, f, now, fillTranscript)
  {
    var pos := Position(known, f.recordingId);
    if pos.Some? && rows[pos.value] in db.recordings {
      var id := rows[pos.value];
      db.recordings := db.recordings[id := Refreshed(db.recordings[id], f, now, fillTranscript)];
    }
  }

  /**
   * The row inserted for a new Drive file: the file's fields, shown (the
   * column default), and with fillTranscript its transcript when non-empty.
   */
  function NewRecording(googlemeetId: nat, f: DriveRecording, now: int, fillTranscript: bool): (r: Recording)
    ensures r.googlemeetId == googlemeetId && r.driveId == f.recordingId && r.name == f.name
    ensures Carries(r, f) && r.visible && r.timeModified == now
    ensures r.transcriptText == if fillTranscript && !IsEmpty(f.transcriptText) then f.transcriptText else ""
  {
    var withTranscript := fillTranscript && !IsEmpty(f.transcriptText);
    Recording(googlemeetId, f.recordingId, f.name, f.createdTime, f.duration, f.webViewLink,
              if withTranscript then f.transcriptText else "",
              if withTranscript then f.transcriptFileId else None,
              true, now)
  }

  function NewRows(googlemeetId: nat, inserts: seq<DriveRecording>, now: int, fillTranscript: bool): (rs: seq<Recording>)
    ensures |rs| == |inserts|
    ensures forall k :: 0 <= k < |inserts| ==> rs[k] == NewRecording(googlemeetId, inserts[k], now, fillTranscript)
  {
    seq(|inserts|, k requires 0 <= k < |inserts| => NewRecording(googlemeetId, inserts[k], now, fillTranscript))
  }

  /** The insert loop. */
  method InsertFiles(db: Database, googlemeetId: nat, inserts: seq<DriveRecording>, now: int, fillTranscript: bool)
    requires db.Valid()
    modifies db`recordings, db`nextRecordingId
    ensures db.Valid()
    ensures db.nextRecordingId == old(db.nextRecordingId) + |inserts|
    ensures db.recordings == InsertedAll(old(db.recordings), old(db.nextRecordingId), NewRows(googlemeetId, inserts, now, fillTranscript))
  {
    for i := 0 to |inserts|
      invariant db.Valid()
      invariant db.nextRecordingId == old(db.nextRecordingId) + i
      invariant db.recordings == InsertedAll(old(db.recordings), old(db.nextRecordingId), NewRows(googlemeetId, inserts[..i], now, fillTranscript))
    {
      var rows := NewRows(googlemeetId, inserts[..i + 1], now, fillTranscript);
      assert rows[..i] == NewRows(googlemeetId, inserts[..i], now, fillTranscript);
      var _ := db.InsertRecording(NewRecording(googlemeetId, inserts[i], now, fillTranscript));
    }
    assert inserts[..|inserts|] == inserts;
  }

  /** The recordings table after a sync as written: the last stale row deleted, then the updates, then the inserts. */
  function SyncedRecordingsAsWritten(recordings: map<nat, Recording>, googlemeetId: nat, rows: seq<nat>,
                                     files: seq<DriveRecording>, next: nat, now: int, lib: bool): (r: map<nat, Recording>)
    requires forall k :: 0 <= k < |rows| ==> rows[k] in recordings
    ensures forall id :: id in r && id < next ==> id in recordings
    ensures forall id :: id in recordings && id < next && id !in r ==> LastStale(recordings, rows, FileIds(files)) == Some(id)
    ensures forall id :: next <= id < next + |Partition(files, StoredIds(recordings, rows), lib).1| ==> id in r
  {
    var known := StoredIds(recordings, rows);
    var p := Partition(files, known, lib);
    var pruned := DeleteLastStale(recordings, rows, FileIds(files));
    InsertedAll(UpdatedAll(pruned, rows, known, p.0, now, lib), next, NewRows(googlemeetId, p.1, now, lib))
  }

  /** The recordings table after a sync with the delete as intended: every stale row deleted, then the updates, then the inserts. */
  function SyncedRecordings(recordings: map<nat, Recording>, googlemeetId: nat, rows: seq<nat>,
                            files: seq<DriveRecording>, next: nat, now: int, lib: bool): (r: map<nat, Recording>)
    requires Lists(recordings, googlemeetId, rows)
    ensures forall id :: id in r && id < next ==> id in recordings
    ensures forall id :: id in r && id < next && recordings[id].googlemeetId == googlemeetId ==> !Stale(recordings[id], FileIds(files))
    ensures forall id :: id in recordings && id < next && !Stale(recordings[id], FileIds(files)) ==> id in r
    ensures forall id :: next <= id < next + |Partition(files, StoredIds(recordings, rows), lib).1| ==> id in r
  {
    var known := StoredIds(recordings, rows);
    var p := Partition(files, known, lib);
    var pruned := DeleteAllStale(recordings, googlemeetId, rows, FileIds(files));
    InsertedAll(UpdatedAll(pruned, rows, known, p.0, now, lib), next, NewRows(googlemeetId, p.1, now, lib))
  }

  /**
   * The recordings half of a sync: the files are split into updates and
   * inserts, the stale rows are deleted, the updates rewrite their rows and
   * the inserts add rows with fresh ids.
   */
  method Reconcile(db: Database, googlemeetId: nat, rows: seq<nat>, files: seq<DriveRecording>, now: int, lib: bool)
    returns (updates: seq<DriveRecording>, inserts: seq<DriveRecording>)
    requires db.Valid() && Lists(db.recordings, googlemeetId, rows)
    modifies db`recordings, db`nextRecordingId
    ensures db.Valid()
    ensures (updates, inserts) == Partition(files, StoredIds(old(db.recordings), rows), lib)
    ensures db.recordings == SyncedRecordings(old(db.recordings), googlemeetId, rows, files, old(db.nextRecordingId), now, lib)
    ensures db.nextRecordingId == old(db.nextRecordingId) + |inserts|
  {
    var known := StoredIds(db.recordings, rows);
    updates, inserts := PartitionFiles(files, known, lib);
    PrunedDescribes(db.recordings, googlemeetId, rows, FileIds(files));
    DeleteStale(db, googlemeetId, rows, FileIds(files));
    ApplyUpdates(db, rows, known, updates, now, lib);
    InsertFiles(db, googlemeetId, inserts, now, lib);
  }

  /** Some recording of the activity carries the Drive id. */
  predicate Stores(r: map<nat, Recording>, googlemeetId: nat, driveId: string)
  {
    exists id :: id in r && r[id].googlemeetId == googlemeetId && r[id].driveId == driveId
  }

  /** A listed row whose Drive id some file carries is neither deleted nor re-identified. */
  lemma {:induction false} CarriedRowSurvives(recordings: map<nat, Recording>, googlemeetId: nat, rows: seq<nat>,
                                              files: seq<DriveRecording>, now: int, lib: bool, k: nat)
    requires Lists(recordings, googlemeetId, rows)
    requires k < |rows| && recordings[rows[k]].driveId in FileIds(files)
    ensures var known := StoredIds(recordings, rows);
      var updated := UpdatedAll(DeleteAllStale(recordings, googlemeetId, rows, FileIds(files)), rows, known,
                                Partition(files, known, lib).0, now, lib);
      rows[k] in updated && SameIdentity(recordings[rows[k]], updated[rows[k]])
  {
    var fileIds := FileIds(files);
    var pruned := DeleteAllStale(recordings, googlemeetId, rows, fileIds);
    assert !Stale(recordings[rows[k]], fileIds);
    assert rows[k] in pruned;
  }

  /** A file whose Drive id is already stored still finds it after the sync. */
  lemma {:induction false} UpdatedFileStored(recordings: map<nat, Recording>, googlemeetId: nat, rows: seq<nat>,
                                             files: seq<DriveRecording>, next: nat, now: int, lib: bool, f: DriveRecording)
    requires Lists(recordings, googlemeetId, rows) && forall id :: id in recordings ==> id < next
    requires f in files && f.recordingId in StoredIds(recordings, rows)
    ensures Stores(SyncedRecordings(recordings, googlemeetId, rows, files, next, now, lib), googlemeetId, f.recordingId)
  {
    var k := Position(StoredIds(recordings, rows), f.recordingId).value;
    var j :| 0 <= j < |files| && files[j] == f;
    assert FileIds(files)[j] == f.recordingId;
    CarriedRowStored(recordings, googlemeetId, rows, files, next, now, lib, k);
  }

  /** A listed row whose Drive id some file carries still stores that id after the sync. */
  lemma {:induction false} CarriedRowStored(recordings: map<nat, Recording>, googlemeetId: nat, rows: seq<nat>,
                                            files: seq<DriveRecording>, next: nat, now: int, lib: bool, k: nat)
    requires Lists(recordings, googlemeetId, rows) && forall id :: id in recordings ==> id < next
    requires k < |rows| && recordings[rows[k]].driveId in FileIds(files)
    ensures Stores(SyncedRecordings(recordings, googlemeetId, rows, files, next, now, lib), googlemeetId, recordings[rows[k]].driveId)
  {
    var known := StoredIds(recordings, rows);
    var p := Partition(files, known, lib);
    var updated := UpdatedAll(DeleteAllStale(recordings, googlemeetId, rows, FileIds(files)), rows, known, p.0, now, lib);
    CarriedRowSurvives(recordings, googlemeetId, rows, files, now, lib, k);
    var id, d := rows[k], recordings[rows[k]].driveId;
    assert id in updated && updated[id].googlemeetId == googlemeetId && updated[id].driveId == d;
    KeptRowStored(updated, next, NewRows(googlemeetId, p.1, now, lib), id, googlemeetId, d);
  }

  /** A row below the fresh ids stays stored when rows are inserted. */
  lemma {:induction false} KeptRowStored(t: map<nat, Recording>, next: nat, items: seq<Recording>, id: nat,
                                         googlemeetId: nat, driveId: string)
    requires id in t && id < next && t[id].googlemeetId == googlemeetId && t[id].driveId == driveId
    ensures Stores(InsertedAll(t, next, items), googlemeetId, driveId)
  {
    assert InsertedAll(t, next, items)[id] == t[id];
  }

  /** An inserted row of the activity stores its Drive id. */
  lemma {:induction false} InsertedStores(t: map<nat, Recording>, next: nat, items: seq<Recording>, k: nat,
                                          googlemeetId: nat, driveId: string)
    requires k < |items| && items[k].googlemeetId == googlemeetId && items[k].driveId == driveId
    ensures Stores(InsertedAll(t, next, items), googlemeetId, driveId)
  {
    assert InsertedAll(t, next, items)[next + k] == items[k];
  }

  /** A file whose Drive id is not stored is inserted. */
  lemma {:induction false} InsertedFileStored(recordings: map<nat, Recording>, googlemeetId: nat, rows: seq<nat>,
                                              files: seq<DriveRecording>, next: nat, now: int, lib: bool, f: DriveRecording)
    requires Lists(recordings, googlemeetId, rows)
    requires f in files && Takes(f, lib) && f.recordingId !in StoredIds(recordings, rows)
    ensures Stores(SyncedRecordings(recordings, googlemeetId, rows, files, next, now, lib), googlemeetId, f.recordingId)
  {
    var known := StoredIds(recordings, rows);
    var p := Partition(files, known, lib);
    PartitionSpec(files, known, lib, f);
    var k :| 0 <= k < |p.1| && p.1[k] == f;
    InsertedStores(UpdatedAll(DeleteAllStale(recordings, googlemeetId, rows, FileIds(files)), rows, known, p.0, now, lib),
                   next, NewRows(googlemeetId, p.1, now, lib), k, googlemeetId, f.recordingId);
  }

  /** After a sync every incoming file that takes part is stored for the activity, so syncing again inserts nothing. */
  lemma {:induction false} SyncStoresEveryFile(recordings: map<nat, Recording>, googlemeetId: nat, rows: seq<nat>,
                                               files: seq<DriveRecording>, next: nat, now: int, lib: bool, f: DriveRecording)
    requires Lists(recordings, googlemeetId, rows) && forall id :: id in recordings ==> id < next
    requires f in files && Takes(f, lib)
    ensures Stores(SyncedRecordings(recordings, googlemeetId, rows, files, next, now, lib), googlemeetId, f.recordingId)
  {
    if f.recordingId in StoredIds(recordings, rows) {
      UpdatedFileStored(recordings, googlemeetId, rows, files, next, now, lib, f);
    } else {
      InsertedFileStored(recordings, googlemeetId, rows, files, next, now, lib, f);
    }
  }

  /** Recordings of other activities come through a sync unchanged. */
  lemma {:induction false} SyncLeavesOtherActivities(recordings: map<nat, Recording>, googlemeetId: nat, rows: seq<nat>,
                                                     files: seq<DriveRecording>, next: nat, now: int, lib: bool, id: nat)
    requires Lists(recordings, googlemeetId, rows) && forall i :: i in recordings ==> i < next
    requires id in recordings && recordings[id].googlemeetId != googlemeetId
    ensures var r := SyncedRecordings(recordings, googlemeetId, rows, files, next, now, lib);
      id in r && r[id] == recordings[id]
  {
    var known := StoredIds(recordings, rows);
    var p := Partition(files, known, lib);
    var pruned := DeleteAllStale(recordings, googlemeetId, rows, FileIds(files));
    assert id !in rows;
    assert id in pruned;
    var updated := UpdatedAll(pruned, rows, known, p.0, now, lib);
    assert updated[id] == recordings[id];
  }

  /** Every file in the update list carries one of the incoming Drive ids. */
  lemma {:induction false} UpdatesCarryFileIds(files: seq<DriveRecording>, known: seq<string>, lib: bool)
    ensures forall u :: u in Partition(files, known, lib).0 ==> u.recordingId in FileIds(files)
  {
    var p := Partition(files, known, lib);
    forall u | u in p.0
      ensures u.recordingId in FileIds(files)
    {
      assert u in multiset(p.0);
      assert u in multiset(Taken(files, lib));
      assert u in Taken(files, lib);
      assert u in files;
      var w :| 0 <= w < |files| && files[w] == u;
      assert FileIds(files)[w] == u.recordingId;
    }
  }

  /** No update rewrites a stale row: a row changes only through a file carrying its Drive id. */
  lemma {:induction false} UpdatesSkipStale(recordings: map<nat, Recording>, rows: seq<nat>, known: seq<string>,
                                            updates: seq<DriveRecording>, now: int, lib: bool, fileIds: seq<string>, id: nat)
    requires Describes(known, recordings, rows)
    requires forall u :: u in updates ==> u.recordingId in fileIds
    requires id in recordings && Stale(recordings[id], fileIds)
    ensures UpdatedAll(recordings, rows, known, updates, now, lib)[id] == recordings[id]
  {
    forall k | 0 <= k < |updates|
      ensures updates[k].recordingId != recordings[id].driveId
    {
      assert updates[k] in updates;
    }
  }

  /**
   * The delete as written: of two stale rows only the later one is removed;
   * the earlier one, which no file updates, survives the sync unchanged.
   */
  lemma {:induction false} EarlierStaleSurvives(recordings: map<nat, Recording>, googlemeetId: nat, rows: seq<nat>,
                                                files: seq<DriveRecording>, next: nat, now: int, lib: bool, j: nat, k: nat)
    requires Lists(recordings, googlemeetId, rows) && forall i :: i in recordings ==> i < next
    requires j < k < |rows|
    requires Stale(recordings[rows[j]], FileIds(files)) && Stale(recordings[rows[k]], FileIds(files))
    ensures var r := SyncedRecordingsAsWritten(recordings, googlemeetId, rows, files, next, now, lib);
      rows[j] in r && r[rows[j]] == recordings[rows[j]]
  {
    var known := StoredIds(recordings, rows);
    var p := Partition(files, known, lib);
    var fileIds := FileIds(files);
    var pruned := DeleteLastStale(recordings, rows, fileIds);
    DeleteAllStaleClears(recordings, googlemeetId, rows, fileIds, j, k);
    UpdatesCarryFileIds(files, known, lib);
    UpdatesSkipStale(pruned, rows, known, p.0, now, lib, fileIds, rows[j]);
  }

  /** The corrected delete leaves no stale row of the activity while the one as written can. */
  lemma {:induction false} DeleteAllStaleClears(recordings: map<nat, Recording>, googlemeetId: nat, rows: seq<nat>,
                                                fileIds: seq<string>, j: nat, k: nat)
    requires Lists(recordings, googlemeetId, rows)
    requires j < k < |rows| && Stale(recordings[rows[j]], fileIds) && Stale(recordings[rows[k]], fileIds)
    ensures rows[j] in DeleteLastStale(recordings, rows, fileIds)
    ensures rows[j] !in DeleteAllStale(recordings, googlemeetId, rows, fileIds)
  {
    var i := LastStaleIndex(recordings, rows, fileIds);
    assert i.Some? && i.value >= k;
  }

  /** Every file in the insert list carries one of the incoming Drive ids. */
  lemma {:induction false} InsertsCarryFileIds(files: seq<DriveRecording>, known: seq<string>, lib: bool, k: nat)
    requires k < |Partition(files, known, lib).1|
    ensures Partition(files, known, lib).1[k].recordingId in FileIds(files)
  {
    var f := Partition(files, known, lib).1[k];
    assert f in multiset(Taken(files, lib));
    assert f in files;
    var w :| 0 <= w < |files| && files[w] == f;
    assert FileIds(files)[w] == f.recordingId;
  }

  /** A row kept by the corrected delete and then updated is not stale. */
  lemma {:induction false} UpdatedRowNotStale(recordings: map<nat, Recording>, googlemeetId: nat, rows: seq<nat>,
                                              files: seq<DriveRecording>, now: int, lib: bool, id: nat)
    requires Lists(recordings, googlemeetId, rows)
    requires var known := StoredIds(recordings, rows);
      var updated := UpdatedAll(DeleteAllStale(recordings, googlemeetId, rows, FileIds(files)), rows, known,
                                Partition(files, known, lib).0, now, lib);
      id in updated && updated[id].googlemeetId == googlemeetId
    ensures var known := StoredIds(recordings, rows);
      var updated := UpdatedAll(DeleteAllStale(recordings, googlemeetId, rows, FileIds(files)), rows, known,
                                Partition(files, known, lib).0, now, lib);
      updated[id].driveId in FileIds(files)
  {
    var known := StoredIds(recordings, rows);
    var pruned := DeleteAllStale(recordings, googlemeetId, rows, FileIds(files));
    var updated := UpdatedAll(pruned, rows, known, Partition(files, known, lib).0, now, lib);
    assert SameIdentity(pruned[id], updated[id]);
    assert !Stale(pruned[id], FileIds(files));
  }

  /** A row of the table after the inserts that was not there before is one of the inserted items. */
  lemma {:induction false} InsertedAllNew(t: map<nat, Recording>, next: nat, items: seq<Recording>, id: nat)
    requires id in InsertedAll(t, next, items) && id !in t
    ensures next <= id < next + |items| && InsertedAll(t, next, items)[id] == items[id - next]
  {
    var k := id - next;
    assert InsertedAll(t, next, items)[next + k] == items[k];
  }

  /** A row of the activity below the fresh ids after the sync as intended was kept and updated, so it is not stale. */
  lemma {:induction false} SyncKeepsUpdatedRow(recordings: map<nat, Recording>, googlemeetId: nat, rows: seq<nat>,
                                                      files: seq<DriveRecording>, next: nat, now: int, lib: bool, id: nat)
    requires Lists(recordings, googlemeetId, rows) && forall i :: i in recordings ==> i < next
    requires var r := SyncedRecordings(recordings, googlemeetId, rows, files, next, now, lib);
      id in r && r[id].googlemeetId == googlemeetId
    requires id < next
    ensures SyncedRecordings(recordings, googlemeetId, rows, files, next, now, lib)[id].driveId in FileIds(files)
  {
    var known := StoredIds(recordings, rows);
    var p := Partition(files, known, lib);
    var updated := UpdatedAll(DeleteAllStale(recordings, googlemeetId, rows, FileIds(files)), rows, known, p.0, now, lib);
    var inserted := NewRows(googlemeetId, p.1, now, lib);
    InsertedAllOld(updated, next, inserted, id);
    UpdatedRowNotStale(recordings, googlemeetId, rows, files, now, lib, id);
  }

  /** A row of the activity at a fresh id after the sync as intended was inserted from an incoming file. */
  lemma {:induction false} SyncKeepsInsertedRow(recordings: map<nat, Recording>, googlemeetId: nat, rows: seq<nat>,
                                                      files: seq<DriveRecording>, next: nat, now: int, lib: bool, id: nat)
    requires Lists(recordings, googlemeetId, rows) && forall i :: i in recordings ==> i < next
    requires var r := SyncedRecordings(recordings, googlemeetId, rows, files, next, now, lib);
      id in r && r[id].googlemeetId == googlemeetId
    requires id >= next
    ensures SyncedRecordings(recordings, googlemeetId, rows, files, next, now, lib)[id].driveId in FileIds(files)
  {
    var known := StoredIds(recordings, rows);
    var p := Partition(files, known, lib);
    var updated := UpdatedAll(DeleteAllStale(recordings, googlemeetId, rows, FileIds(files)), rows, known, p.0, now, lib);
    var inserted := NewRows(googlemeetId, p.1, now, lib);
    assert id !in updated;
    InsertedAllNew(updated, next, inserted, id);
    var k := id - next;
    assert inserted[k] == NewRecording(googlemeetId, p.1[k], now, lib);
    InsertsCarryFileIds(files, known, lib, k);
  }

  /** After the sync as intended, every recording of the activity carries the Drive id of an incoming file. */
  lemma {:induction false} SyncKeepsOnlyIncomingFiles(recordings: map<nat, Recording>, googlemeetId: nat, rows: seq<nat>,
                                                      files: seq<DriveRecording>, next: nat, now: int, lib: bool, id: nat)
    requires Lists(recordings, googlemeetId, rows) && forall i :: i in recordings ==> i < next
    requires var r := SyncedRecordings(recordings, googlemeetId, rows, files, next, now, lib);
      id in r && r[id].googlemeetId == googlemeetId
    ensures SyncedRecordings(recordings, googlemeetId, rows, files, next, now, lib)[id].driveId in FileIds(files)
  {
    if id < next {
      SyncKeepsUpdatedRow(recordings, googlemeetId, rows, files, next, now, lib, id);
    } else {
      SyncKeepsInsertedRow(recordings, googlemeetId, rows, files, next, now, lib, id);
    }
  }
}
