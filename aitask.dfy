/**
 * The scheduled task classes/task/process_ai_analysis.php: when AI is
 * enabled and the service is available, regenerate a batch of at most five
 * pending analyses.
 */
module AiTask {
  import opened Wrappers
  import opened Php
  import opened Store
  import opened Gemini
  import opened AiService

  /** The batch size the scheduled task passes to process_pending. */
  const BatchSize: nat := 5

  /**
   * execute: None when the scheduled task returns early (AI disabled, or no key),
   * otherwise the number of analyses processed. Nothing is written on the
   * early paths; otherwise the oldest pending rows, at most five, are
   * restarted and queued.
   */
  method Execute(db: Database, settings: Settings, now: int) returns (processed: Option<nat>, ghost visited: seq<nat>)
    requires db.Valid()
    modifies db`analyses, db`nextAnalysisId, db`queue
    ensures db.Valid()
    ensures processed.None? <==> IsEmpty(settings.enableAi) || IsEmpty(settings.apiKey)
    ensures processed.None? ==> unchanged(db)
    ensures processed.Some? ==>
      && IsPendingBatch(old(db.analyses), BatchSize, visited)
      && processed.value == |WithRecording(old(db.analyses), db.recordings, visited)|
      && processed.value <= BatchSize
      && db.analyses == Bump(old(db.analyses), WithRecording(old(db.analyses), db.recordings, visited), now)
      && db.queue == old(db.queue) + JobsFor(old(db.analyses), WithRecording(old(db.analyses), db.recordings, visited))
  {
    visited := [];
    if IsEmpty(settings.enableAi) {
      return None, visited;
    }
    var service := new Service(settings);
    NewClientSpec(settings);
    if !service.IsAvailable() {
      return None, visited;
    }
    var n;
    n, visited := service.ProcessPending(db, BatchSize, now);
    processed := Some(n);
  }
}
