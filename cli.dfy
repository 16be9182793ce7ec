/**
 * The command-line script cli/process_transcripts.php: for every recording of
 * one activity it fetches the Spanish subtitles through yt-dlp, stores the
 * transcript, and runs the Gemini transcript analysis, counting each
 * recording as processed, skipped or an error.
 */
module Cli {
  import opened Wrappers
  import opened Php
  import opened Store
  import opened Gemini
  import opened Captions
  import opened Subtitles

  /** The caption language the script asks for, and the language stored when the analysis names none. */
  const Language: string := "es"

  /** The one yt-dlp binary the script accepts. */
  const YtDlpBinary: string := "/tmp/yt-dlp"

  /** What analyze_transcript returns; the language may be missing. */
  datatype Reply = Reply(summary: string, keypoints: seq<string>, topics: seq<string>, language: Option<string>)

  /**
   * The script's flags and the calls it makes outside PHP:
   *  - log(url): what yt-dlp prints for a Drive URL;
   *  - download(url): download_subtitles, "" on failure;
   *  - parse(xml): the caption nodes of a document, None when it does not parse;
   *  - decode: html_entity_decode;
   *  - analyze(transcript, name, duration): the Gemini transcript analysis;
   *  - now: time().
   */
  datatype Env = Env(
    dryRun: bool,
    skipGemini: bool,
    settings: Settings,
    log: string -> string,
    download: string -> string,
    parse: string -> Option<seq<CaptionNode>>,
    decode: string -> string,
    analyze: (string, string, string) -> Outcome<Reply>,
    now: int)

  /** One row of the script's query: a recording left-joined with its analysis row. */
  datatype Listed = Listed(id: nat, recording: Recording, analysisId: Option<nat>, aiStatus: Option<Status>)

  /** What the loop body does with one recording. */
  datatype Step =
    | Skip
    | NoLink
    | NoTimedtext
    | NoSubtitles
    | TooShort
    | Preview(transcript: string)
    | Save(transcript: string)
  {
    /** The steps counted as processed; every other step but Skip is an error. */
    predicate Processed()
    {
      Preview? || Save?
    }
  }

  /** The checks of the loop body, in order, up to the point where it writes. */
  function Decide(row: Listed, env: Env): (s: Step)
    ensures s.Skip? <==> row.aiStatus == Some(Completed)
    ensures s.NoLink? <==> row.aiStatus != Some(Completed) && IsEmpty(row.recording.webViewLink)
    ensures s.Preview? ==> env.dryRun
    ensures s.Save? ==> !env.dryRun
    ensures s.Processed() ==> |s.transcript| >= MinTranscript
  {
    if row.aiStatus == Some(Completed) then Skip
    else if IsEmpty(row.recording.webViewLink) then NoLink
    else match TimedtextUrl(env.log(row.recording.webViewLink))
      case None => NoTimedtext
      case Some(url) =>
        var xml := SubtitleBody(StripTrack(url), Language, env.download).0;
        if IsEmpty(xml) then NoSubtitles
        else
          var transcript := Transcript(env.parse(xml), env.decode);
          if |transcript| < MinTranscript then TooShort
          else if env.dryRun then Preview(transcript)
          else Save(transcript)
  }

  /** The extractor the script's pipeline copies: Spanish, with the script's binary. */
  function ScriptExtractor(): (e: Extractor)
    ensures IsAvailable(e) && e.language == Language
  {
    var e := Extractor(Language, Some(YtDlpBinary));
    assert YtDlpBinary[0] == '/';
    e
  }

  /**
   * For a recording without a completed analysis, the script gets a
   * transcript exactly when subtitle_extractor::extract would, and the same one.
   */
  lemma {:induction false} DecideIsExtract(row: Listed, env: Env)
    requires row.aiStatus != Some(Completed)
    ensures var link := row.recording.webViewLink;
      var x := Extract(ScriptExtractor(), link, env.log(link), env.download, env.parse, env.decode);
      Decide(row, env).Processed() <==> x.transcript.Some?
    ensures var link := row.recording.webViewLink;
      var x := Extract(ScriptExtractor(), link, env.log(link), env.download, env.parse, env.decode);
      Decide(row, env).Processed() ==> Decide(row, env).transcript == x.transcript.value
  {
  }

  // ---- the tables the script writes ----

  /** The analysis and recording tables and the next analysis id. */
  datatype Tables = Tables(analyses: map<nat, AnalysisRow>, recordings: map<nat, Recording>, nextId: nat)

  /** The unique key on the analysis table, and fresh ids above the used ones. */
  predicate Sound(t: Tables)
  {
    OnePerRecording(t.analyses) && forall id :: id in t.analyses ==> id < t.nextId
  }

  /** The analysis rows of one recording. */
  function RowsOf(m: map<nat, AnalysisRow>, recordingId: nat): (r: map<nat, AnalysisRow>)
    ensures forall id :: id in r <==> id in m && m[id].recordingId == recordingId
    ensures forall id :: id in r ==> r[id] == m[id]
  {
    map id | id in m && m[id].recordingId == recordingId :: m[id]
  }

  /** Writing a row of one recording leaves the rows of every other recording as they were. */
  lemma {:induction false} RowsOfUpdate(m: map<nat, AnalysisRow>, id: nat, row: AnalysisRow)
    requires id in m ==> m[id].recordingId == row.recordingId
    ensures forall r :: r != row.recordingId ==> RowsOf(m[id := row], r) == RowsOf(m, r)
  {
    forall r | r != row.recordingId
      ensures RowsOf(m[id := row], r) == RowsOf(m, r)
    {
      var a, b := RowsOf(m[id := row], r), RowsOf(m, r);
      assert a.Keys == b.Keys;
      assert forall k :: k in a ==> a[k] == b[k];
    }
  }

  /** Nothing about recording `rid` differs between the two states. */
  predicate Same(t: Tables, u: Tables, rid: nat)
  {
    RowsOf(t.analyses, rid) == RowsOf(u.analyses, rid)
    && (rid in t.recordings ==> rid in u.recordings && u.recordings[rid] == t.recordings[rid])
  }

  /** The query row still describes the recording and its analysis in this state. */
  predicate Current(t: Tables, row: Listed)
  {
    && row.id in t.recordings && t.recordings[row.id] == row.recording
    && match row.analysisId
       case None => row.aiStatus.None? && forall id :: id in t.analyses ==> t.analyses[id].recordingId != row.id
       case Some(aid) => aid in t.analyses && t.analyses[aid].recordingId == row.id && row.aiStatus == Some(t.analyses[aid].status)
  }

  /** A state that agrees on a recording keeps the query row of that recording current. */
  lemma {:induction false} CurrentKept(t: Tables, u: Tables, row: Listed)
    requires Current(t, row) && Same(t, u, row.id)
    ensures Current(u, row)
  {
    var a, b := RowsOf(t.analyses, row.id), RowsOf(u.analyses, row.id);
    match row.analysisId
    case None =>
      forall id | id in u.analyses
        ensures u.analyses[id].recordingId != row.id
      {
        assert id !in a;
        assert id !in b;
      }
    case Some(aid) =>
      assert aid in a;
      assert aid in b;
  }

  /** The query row of recording `rid`. */
  function ListedRow(t: Tables, rid: nat): (row: Listed)
    requires Sound(t) && rid in t.recordings
    ensures row.id == rid && Current(t, row)
  {
    match FindByRecording(t.analyses, rid)
    case None => Listed(rid, t.recordings[rid], None, None)
    case Some(aid) => Listed(rid, t.recordings[rid], Some(aid), Some(t.analyses[aid].status))
  }

  // ---- one recording ----

  /** The row once the transcript is stored: the existing row updated, or a new pending one. */
  function Pending(existing: Option<AnalysisRow>, rid: nat, transcript: string, now: int): (row: AnalysisRow)
    requires existing.Some? ==> existing.value.recordingId == rid
    ensures row.recordingId == rid && row.status == Status.Pending && row.transcript == Some(transcript)
    ensures row.timeModified == now
    ensures existing.Some? ==> row == existing.value.(transcript := Some(transcript), status := Status.Pending, timeModified := now)
    ensures existing.None? ==>
      (row.summary.None? && row.keypoints.None? && row.topics.None? && row.language.None?
       && row.error.None? && row.aiModel.None? && row.timeCreated == now)
  {
    match existing
    case Some(r) => r.(transcript := Some(transcript), status := Status.Pending, timeModified := now)
    case None => AnalysisRow(rid, None, None, None, Some(transcript), None, Status.Pending, None, None, now, now)
  }

  /**
   * The row after the Gemini step: unchanged with --skip-gemini or without a
   * configured client; otherwise completed with the results (language "es"
   * when the reply names none), or failed with the exception's message.
   */
  function Finish(row: AnalysisRow, rec: Recording, transcript: string, env: Env): (r: AnalysisRow)
    ensures r.recordingId == row.recordingId && r.transcript == row.transcript && r.timeCreated == row.timeCreated
    ensures env.skipGemini || !IsConfigured(NewClient(env.settings)) ==> r == row
    ensures !env.skipGemini && IsConfigured(NewClient(env.settings)) ==>
      match env.analyze(transcript, rec.name, rec.duration)
      case Ok(a) => r.status == Completed && r.summary == Some(a.summary) && r.keypoints == Some(a.keypoints)
        && r.topics == Some(a.topics) && r.language == Some(a.language.GetOr(Language))
        && r.error.None? && r.aiModel == Some(NewClient(env.settings).model) && r.timeModified == env.now
      case Raise(e) => r == row.(status := Failed, error := Some(Message(e)), timeModified := env.now)
  {
    var client := NewClient(env.settings);
    if env.skipGemini || !IsConfigured(client) then row
    else match env.analyze(transcript, rec.name, rec.duration)
      case Ok(a) =>
        row.(summary := Some(a.summary), keypoints := Some(a.keypoints), topics := Some(a.topics),
             language := Some(a.language.GetOr(Language)), status := Completed,
             aiModel := Some(client.model), error := None, timeModified := env.now)
      case Raise(e) => row.(status := Failed, error := Some(Message(e)), timeModified := env.now)
  }

  /** The id the recording's analysis row has once the transcript is stored. */
  function TargetId(t: Tables, row: Listed): nat
  {
    row.analysisId.GetOr(t.nextId)
  }

  /** The row the recording's analysis ends with once its transcript is stored. */
  function FinalRow(t: Tables, row: Listed, transcript: string, env: Env): AnalysisRow
    requires Current(t, row)
  {
    var existing := if row.analysisId.Some? then Some(t.analyses[row.analysisId.value]) else None;
    Finish(Pending(existing, row.id, transcript, env.now), row.recording, transcript, env)
  }

  /** The recording and its one analysis row once the transcript is stored. */
  predicate Stored(t: Tables, u: Tables, row: Listed, transcript: string, env: Env)
    requires Current(t, row)
  {
    var aid := TargetId(t, row);
    && aid in u.analyses && u.analyses[aid] == FinalRow(t, row, transcript, env)
    && (row.analysisId.None? ==> aid !in t.analyses)
    && row.id in u.recordings && u.recordings[row.id] == t.recordings[row.id].(transcriptText := transcript)
  }

  /** The writes of one pass of the loop body, once it has decided on `step`. */
  function Apply(t: Tables, row: Listed, step: Step, env: Env): (u: Tables)
    requires Sound(t) && Current(t, row)
    ensures Sound(u) && u.recordings.Keys == t.recordings.Keys
    ensures forall rid :: rid != row.id ==> Same(t, u, rid)
    ensures !step.Save? ==> u == t
    ensures step.Save? ==> Stored(t, u, row, step.transcript, env)
  {
    match step
    case Save(transcript) =>
      var aid := TargetId(t, row);
      var final := FinalRow(t, row, transcript, env);
      RowsOfUpdate(t.analyses, aid, final);
      var u := Tables(t.analyses[aid := final],
                      t.recordings[row.id := t.recordings[row.id].(transcriptText := transcript)],
                      if row.analysisId.Some? then t.nextId else t.nextId + 1);
      assert OnePerRecording(u.analyses) by {
        forall a, b | a in u.analyses && b in u.analyses && u.analyses[a].recordingId == u.analyses[b].recordingId
          ensures a == b
        {
          if a != aid && b != aid {
            assert t.analyses[a].recordingId == t.analyses[b].recordingId;
          }
        }
      }
      u
    case _ => t
  }

  // ---- the loop ----

  /** Some row of the listing is recording `rid`. */
  predicate Visits(rows: seq<Listed>, rid: nat)
  {
    exists k :: 0 <= k < |rows| && rows[k].id == rid
  }

  /** The listing fits the state: every row is current, and no recording is listed twice. */
  predicate Fits(t: Tables, rows: seq<Listed>)
  {
    (forall k :: 0 <= k < |rows| ==> Current(t, rows[k]))
    && forall j, k :: 0 <= j < k < |rows| ==> rows[j].id != rows[k].id
  }

  /** A prefix of a listing that fits still fits, and its last row is not listed before it. */
  lemma {:induction false} FitsPrefix(t: Tables, rows: seq<Listed>, i: nat)
    requires Fits(t, rows) && i < |rows|
    ensures Fits(t, rows[..i]) && Fits(t, rows[..i + 1]) && !Visits(rows[..i], rows[i].id)
  {
    forall j | 0 <= j < i
      ensures rows[..i][j].id != rows[i].id
    {
      assert rows[..i][j] == rows[j];
    }
    assert rows[..i + 1][..i] == rows[..i];
  }

  /**
   * The tables after the loop has handled the rows in order, taking
   * `steps[k]` for `rows[k]`.
   */
  function Run(t: Tables, rows: seq<Listed>, steps: seq<Step>, env: Env): (u: Tables)
    requires Sound(t) && Fits(t, rows) && |steps| == |rows|
    ensures Sound(u) && u.recordings.Keys == t.recordings.Keys
    ensures forall rid :: !Visits(rows, rid) ==> Same(t, u, rid)
    decreases |rows|
  {
    if rows == [] then t
    else
      var n := |rows| - 1;
      FitsPrefix(t, rows, n);
      assert rows[..n + 1] == rows;
      var s := Run(t, rows[..n], steps[..n], env);
      CurrentKept(t, s, rows[n]);
      VisitsLast(rows);
      var u := Apply(s, rows[n], steps[n], env);
      assert forall rid :: !Visits(rows, rid) ==> Same(t, u, rid) by {
        forall rid | !Visits(rows, rid) ensures Same(t, u, rid) {
          SameTrans(t, s, u, rid);
        }
      }
      u
  }

  /** Leaving a recording alone twice leaves it alone. */
  lemma SameTrans(a: Tables, b: Tables, c: Tables, rid: nat)
    requires Same(a, b, rid) && Same(b, c, rid)
    ensures Same(a, c, rid)
  {
  }

  /** A recording not in the listing is neither its last row nor in the rows before it. */
  lemma {:induction false} VisitsLast(rows: seq<Listed>)
    requires rows != []
    ensures forall rid :: !Visits(rows, rid) ==> rid != rows[|rows| - 1].id && !Visits(rows[..|rows| - 1], rid)
  {
    var n := |rows| - 1;
    forall rid | !Visits(rows, rid)
      ensures rid != rows[n].id && !Visits(rows[..n], rid)
    {
      forall k | 0 <= k < n
        ensures rows[..n][k].id != rid
      {
        assert rows[..n][k] == rows[k];
      }
    }
  }

  /** The three counters. */
  datatype Tally = Tally(processed: nat, skipped: nat, errors: nat)
  {
    /** The counter a step increments. */
    function Count(s: Step): (c: Tally)
      ensures c.Total() == Total() + 1
    {
      if s.Skip? then this.(skipped := skipped + 1)
      else if s.Processed() then this.(processed := processed + 1)
      else this.(errors := errors + 1)
    }

    function Total(): nat
    {
      processed + skipped + errors
    }
  }

  /** The counters after the loop has taken the steps. */
  function Counted(steps: seq<Step>): (c: Tally)
    ensures c.Total() == |steps|
    decreases |steps|
  {
    if steps == [] then Tally(0, 0, 0)
    else Counted(steps[..|steps| - 1]).Count(steps[|steps| - 1])
  }

  /** The steps the script takes for the rows. */
  function Steps(rows: seq<Listed>, env: Env): (steps: seq<Step>)
    ensures |steps| == |rows| && forall k :: 0 <= k < |rows| ==> steps[k] == Decide(rows[k], env)
  {
    seq(|rows|, k requires 0 <= k < |rows| => Decide(rows[k], env))
  }

  /** A run that stores no transcript (every step a skip, an error or a dry-run preview) writes nothing. */
  lemma {:induction false} NoSaveWritesNothing(t: Tables, rows: seq<Listed>, steps: seq<Step>, env: Env)
    requires Sound(t) && Fits(t, rows) && |steps| == |rows|
    requires forall k :: 0 <= k < |steps| ==> !steps[k].Save?
    ensures Run(t, rows, steps, env) == t
    decreases |rows|
  {
    if rows != [] {
      var n := |rows| - 1;
      FitsPrefix(t, rows, n);
      NoSaveWritesNothing(t, rows[..n], steps[..n], env);
    }
  }

  /** With --dry-run the script writes nothing. */
  lemma {:induction false} DryRunWritesNothing(t: Tables, rows: seq<Listed>, env: Env)
    requires Sound(t) && Fits(t, rows) && env.dryRun
    ensures Run(t, rows, Steps(rows, env), env) == t
  {
    NoSaveWritesNothing(t, rows, Steps(rows, env), env);
  }

  /** Once stored, the recording's analysis rows are exactly the final row. */
  lemma {:induction false} StoredRows(t: Tables, u: Tables, row: Listed, transcript: string, env: Env)
    requires Sound(t) && Sound(u) && Current(t, row) && Stored(t, u, row, transcript, env)
    ensures RowsOf(u.analyses, row.id).Values == {FinalRow(t, row, transcript, env)}
  {
    var aid := TargetId(t, row);
    var m := RowsOf(u.analyses, row.id);
    var f := FinalRow(t, row, transcript, env);
    assert aid in m;
    forall v | v in m.Values
      ensures v == f
    {
      var id :| id in m && m[id] == v;
      assert id == aid;
    }
  }

  /** States that agree on a recording give its query row the same final row. */
  lemma {:induction false} FinalRowSame(t: Tables, s: Tables, row: Listed, transcript: string, env: Env)
    requires Current(t, row) && Current(s, row) && Same(t, s, row.id)
    ensures FinalRow(s, row, transcript, env) == FinalRow(t, row, transcript, env)
  {
    if row.analysisId.Some? {
      var aid := row.analysisId.value;
      assert aid in RowsOf(t.analyses, row.id);
      assert s.analyses[aid] == RowsOf(s.analyses, row.id)[aid];
    }
  }

  /**
   * A recording whose step stores a transcript ends with it: its one analysis
   * row (the listed one, or a new one) is the final row, and the recording's
   * transcripttext is the transcript.
   */
  lemma {:induction false} RunStores(t: Tables, rows: seq<Listed>, steps: seq<Step>, env: Env, k: nat)
    requires Sound(t) && Fits(t, rows) && |steps| == |rows| && k < |rows| && steps[k].Save?
    ensures var u := Run(t, rows, steps, env);
      && rows[k].id in u.recordings
      && u.recordings[rows[k].id] == t.recordings[rows[k].id].(transcriptText := steps[k].transcript)
      && RowsOf(u.analyses, rows[k].id).Values == {FinalRow(t, rows[k], steps[k].transcript, env)}
    decreases |rows|
  {
    var n := |rows| - 1;
    FitsPrefix(t, rows, n);
    var s := Run(t, rows[..n], steps[..n], env);
    var u := Run(t, rows, steps, env);
    var row := rows[k];
    var transcript := steps[k].transcript;
    CurrentKept(t, s, rows[n]);
    if k == n {
      StoredRows(s, u, row, transcript, env);
      FinalRowSame(t, s, row, transcript, env);
    } else {
      RunStores(t, rows[..n], steps[..n], env, k);
      assert rows[..n][k] == row && steps[..n][k] == steps[k];
      assert rows[n].id != row.id;
      assert Same(s, u, row.id);
    }
  }

  /** A recording none of whose steps stores a transcript is left exactly as it was. */
  lemma {:induction false} RunLeavesOthers(t: Tables, rows: seq<Listed>, steps: seq<Step>, env: Env, rid: nat)
    requires Sound(t) && Fits(t, rows) && |steps| == |rows|
    requires forall k :: 0 <= k < |rows| && rows[k].id == rid ==> !steps[k].Save?
    ensures Same(t, Run(t, rows, steps, env), rid)
    decreases |rows|
  {
    if rows != [] {
      var n := |rows| - 1;
      FitsPrefix(t, rows, n);
      forall k | 0 <= k < n && rows[..n][k].id == rid
        ensures !steps[..n][k].Save?
      {
        assert rows[..n][k] == rows[k] && steps[..n][k] == steps[k];
      }
      RunLeavesOthers(t, rows[..n], steps[..n], env, rid);
      var s := Run(t, rows[..n], steps[..n], env);
      CurrentKept(t, s, rows[n]);
      RunStep(t, rows, steps, env, n);
      var u := Apply(s, rows[n], steps[n], env);
      if rows[n].id == rid {
        assert !steps[n].Save?;
        assert u == s;
      } else {
        assert Same(s, u, rid);
      }
    }
  }

  /** The loop's next pass: the tables after one more row. */
  lemma {:induction false} RunStep(t: Tables, rows: seq<Listed>, steps: seq<Step>, env: Env, i: nat)
    requires Sound(t) && Fits(t, rows) && |steps| == |rows| && i < |rows|
    ensures Fits(t, rows[..i]) && Fits(t, rows[..i + 1])
    ensures Current(Run(t, rows[..i], steps[..i], env), rows[i])
    ensures Run(t, rows[..i + 1], steps[..i + 1], env)
         == Apply(Run(t, rows[..i], steps[..i], env), rows[i], steps[i], env)
  {
    FitsPrefix(t, rows, i);
    var s := Run(t, rows[..i], steps[..i], env);
    CurrentKept(t, s, rows[i]);
    var r, st := rows[..i + 1], steps[..i + 1];
    assert r[..i] == rows[..i] && st[..i] == steps[..i];
    assert r[i] == rows[i] && st[i] == steps[i];
  }

  /** The counters after one more step. */
  lemma {:induction false} CountedStep(steps: seq<Step>, i: nat)
    requires i < |steps|
    ensures Counted(steps[..i + 1]) == Counted(steps[..i]).Count(steps[i])
  {
    assert steps[..i + 1][..i] == steps[..i];
  }

  /** The step the loop body decides on. */
  method DecideStep(row: Listed, env: Env) returns (step: Step)
    ensures step == Decide(row, env)
  {
    step := Decide(row, env);
  }

  // ---- the script ----

  /**
   * The query's result: the activity's recordings (only `only` when it is
   * not 0), each once, oldest createdtime first.
   */
  predicate Selects(recordings: map<nat, Recording>, googlemeetId: nat, only: nat, ids: seq<nat>)
  {
    && (forall k :: 0 <= k < |ids| ==> ids[k] in recordings)
    && (forall j, k :: 0 <= j < k < |ids| ==> ids[j] != ids[k])
    && (forall r :: r in recordings ==> (r in ids <==> recordings[r].googlemeetId == googlemeetId && (only == 0 || r == only)))
    && (forall j, k :: 0 <= j < k < |ids| ==> recordings[ids[j]].createdTime <= recordings[ids[k]].createdTime)
  }

  /** The query rows for the selected recordings. */
  function Listing(t: Tables, ids: seq<nat>): (rows: seq<Listed>)
    requires Sound(t) && forall k :: 0 <= k < |ids| ==> ids[k] in t.recordings
    requires forall j, k :: 0 <= j < k < |ids| ==> ids[j] != ids[k]
    ensures |rows| == |ids| && Fits(t, rows)
    ensures forall k :: 0 <= k < |ids| ==> rows[k] == ListedRow(t, ids[k])
  {
    seq(|ids|, k requires 0 <= k < |ids| => ListedRow(t, ids[k]))
  }

  /** The database's tables as the script sees them. */
  function TablesOf(db: Database): Tables
    reads db
  {
    Tables(db.analyses, db.recordings, db.nextAnalysisId)
  }

  /** The writes of the loop body for one recording, once it has decided on `step`. */
  method Write(db: Database, row: Listed, step: Step, env: Env)
    requires db.Valid() && Current(TablesOf(db), row)
    modifies db`analyses, db`nextAnalysisId, db`recordings
    ensures db.Valid()
    ensures TablesOf(db) == Apply(old(TablesOf(db)), row, step, env)
  {
    ghost var t := TablesOf(db);
    if !step.Save? {
      return;
    }
    var transcript := step.transcript;
    var aid;
    if row.analysisId.Some? {
      aid := row.analysisId.value;
      db.UpdateAnalysis(aid, Pending(Some(db.analyses[aid]), row.id, transcript, env.now));
    } else {
      aid := db.InsertAnalysis(Pending(None, row.id, transcript, env.now));
    }
    db.recordings := db.recordings[row.id := db.recordings[row.id].(transcriptText := transcript)];
    ghost var existing := if row.analysisId.Some? then Some(t.analyses[aid]) else None;
    ghost var pending := Pending(existing, row.id, transcript, env.now);
    assert db.analyses == t.analyses[aid := pending];
    RunGemini(db, aid, row.recording, transcript, env);
    ghost var final := Finish(pending, row.recording, transcript, env);
    Overwrite(t.analyses, aid, pending, final);
    assert aid == TargetId(t, row) && final == FinalRow(t, row, transcript, env);
    assert db.analyses == t.analyses[aid := final];
  }

  /** The Gemini step for a stored transcript: the row of `aid` becomes Finish of itself. */
  method RunGemini(db: Database, aid: nat, rec: Recording, transcript: string, env: Env)
    requires db.Valid() && aid in db.analyses
    modifies db`analyses
    ensures db.Valid()
    ensures db.analyses == old(db.analyses)[aid := Finish(old(db.analyses[aid]), rec, transcript, env)]
  {
    var client := NewClient(env.settings);
    if !env.skipGemini && IsConfigured(client) {
      var pending := db.analyses[aid];
      match env.analyze(transcript, rec.name, rec.duration)
      case Ok(a) =>
        db.UpdateAnalysis(aid, pending.(summary := Some(a.summary), keypoints := Some(a.keypoints),
          topics := Some(a.topics), language := Some(a.language.GetOr(Language)), status := Completed,
          aiModel := Some(client.model), error := None, timeModified := env.now));
      case Raise(e) =>
        db.UpdateAnalysis(aid, pending.(status := Failed, error := Some(Message(e)), timeModified := env.now));
    }
  }

  /** The loop has handled the first `i` rows and left the tables `u`. */
  ghost predicate Ran(t0: Tables, rows: seq<Listed>, steps: seq<Step>, env: Env, i: nat, u: Tables)
  {
    && Sound(t0) && Fits(t0, rows) && |steps| == |rows| && i <= |rows|
    && Fits(t0, rows[..i])
    && u == Run(t0, rows[..i], steps[..i], env)
  }

  /** One pass of the loop: decide on the step for `rows[i]` and make its writes. */
  method Pass(db: Database, ghost t0: Tables, rows: seq<Listed>, ghost steps: seq<Step>, env: Env, i: nat)
    returns (step: Step)
    requires db.Valid() && i < |rows| && steps == Steps(rows, env)
    requires Ran(t0, rows, steps, env, i, TablesOf(db))
    modifies db`analyses, db`nextAnalysisId, db`recordings
    ensures db.Valid() && step == steps[i]
    ensures Ran(t0, rows, steps, env, i + 1, TablesOf(db))
  {
    RunStep(t0, rows, steps, env, i);
    step := DecideStep(rows[i], env);
    Write(db, rows[i], step, env);
  }

  /**
   * The script run for one activity. None when it stops before the loop: no
   * activity id, no yt-dlp binary, or no recordings. Otherwise the three
   * counters, which add up to the number of recordings, and the tables as
   * the loop leaves them.
   */
  method ProcessTranscripts(db: Database, googlemeetId: nat, only: nat, ytDlpFound: bool, ids: seq<nat>, env: Env)
    returns (tally: Option<Tally>)
    requires db.Valid() && Selects(db.recordings, googlemeetId, only, ids)
    modifies db`analyses, db`nextAnalysisId, db`recordings
    ensures db.Valid()
    ensures tally.None? <==> googlemeetId == 0 || !ytDlpFound || ids == []
    ensures tally.None? ==> unchanged(db)
    ensures tally.Some? ==> tally.value.Total() == |ids|
    ensures tally.Some? ==>
      var rows := Listing(old(TablesOf(db)), ids);
      && tally.value == Counted(Steps(rows, env))
      && TablesOf(db) == Run(old(TablesOf(db)), rows, Steps(rows, env), env)
  {
    if googlemeetId == 0 || !ytDlpFound || ids == [] {
      return None;
    }
    var rows := Listing(TablesOf(db), ids);
    var count := Loop(db, rows, env);
    tally := Some(count);
  }

  /** The loop over the listing: the counters and the tables once every row is handled. */
  method Loop(db: Database, rows: seq<Listed>, env: Env) returns (count: Tally)
    requires db.Valid() && Sound(TablesOf(db)) && Fits(TablesOf(db), rows)
    modifies db`analyses, db`nextAnalysisId, db`recordings
    ensures db.Valid()
    ensures count == Counted(Steps(rows, env))
    ensures TablesOf(db) == Run(old(TablesOf(db)), rows, Steps(rows, env), env)
  {
    ghost var t0 := TablesOf(db);
    ghost var steps := Steps(rows, env);
    count := Tally(0, 0, 0);
    var i := 0;
    assert rows[..0] == [] && steps[..0] == [];
    while i < |rows|
      invariant 0 <= i <= |rows|
      invariant db.Valid() && Ran(t0, rows, steps, env, i, TablesOf(db))
      invariant count == Counted(steps[..i])
    {
      var step := Pass(db, t0, rows, steps, env, i);
      CountedStep(steps, i);
      count := count.Count(step);
      i := i + 1;
    }
    assert rows[..i] == rows && steps[..i] == steps;
  }
}
