/**
 * Getting a recording's auto-generated subtitles without downloading the
 * video (classes/subtitle_extractor.php, and the same steps inlined in
 * cli/process_transcripts.php): locate yt-dlp, scrape the timed-text URL out
 * of its verbose log, strip the track parameters, try the speech-recognition
 * track and then the named track, and keep a transcript of 100 bytes or more.
 */
module Subtitles {
  import opened Wrappers
  import opened Php
  import opened Captions

  // ---- finding yt-dlp ----

  /** The fixed locations probed, in order, before asking `which`. */
  const Candidates: seq<string> := ["/tmp/yt-dlp", "/usr/local/bin/yt-dlp", "/usr/bin/yt-dlp"]

  /** The index of the first path that is an existing executable file. */
  function FirstIn(paths: seq<string>, executable: set<string>): (r: Option<nat>)
    ensures r.Some? ==> r.value < |paths| && paths[r.value] in executable
    ensures r.Some? ==> forall j :: 0 <= j < r.value ==> paths[j] !in executable
    ensures r.None? ==> forall j :: 0 <= j < |paths| ==> paths[j] !in executable
  {
    if paths == [] then None
    else if paths[0] in executable then Some(0)
    else match FirstIn(paths[1..], executable)
      case None => None
      case Some(k) => Some(k + 1)
  }

  /**
   * Where yt-dlp is: the first candidate that is executable, else the trimmed
   * output of `which yt-dlp` when it is not PHP-empty and names an executable.
   * `executable` is the set of paths that exist and are executable;
   * `whichOutput` is what the shell printed ("" when it printed nothing).
   */
  function YtDlpPath(executable: set<string>, whichOutput: string): (r: Option<string>)
    ensures r.Some? ==> r.value in executable
    ensures r.None? ==> forall j :: 0 <= j < |Candidates| ==> Candidates[j] !in executable
  {
    match FirstIn(Candidates, executable)
    case Some(k) => Some(Candidates[k])
    case None =>
      var which := Trim(whichOutput);
      if !IsEmpty(which) && which in executable then Some(which) else None
  }

  /** The path found is executable and never PHP-empty; the earlier candidates win. */
  lemma {:induction false} YtDlpPathSpec(executable: set<string>, whichOutput: string)
    ensures YtDlpPath(executable, whichOutput).Some? ==>
      YtDlpPath(executable, whichOutput).value in executable && !IsEmpty(YtDlpPath(executable, whichOutput).value)
    ensures "/tmp/yt-dlp" in executable ==> YtDlpPath(executable, whichOutput) == Some("/tmp/yt-dlp")
    ensures YtDlpPath(executable, whichOutput).None? <==>
      (forall j :: 0 <= j < |Candidates| ==> Candidates[j] !in executable)
      && (IsEmpty(Trim(whichOutput)) || Trim(whichOutput) !in executable)
  {
    var f := FirstIn(Candidates, executable);
    if f.Some? {
      var p := Candidates[f.value];
      assert p == "/tmp/yt-dlp" || p == "/usr/local/bin/yt-dlp" || p == "/usr/bin/yt-dlp";
      assert |p| > 1;
    }
    if "/tmp/yt-dlp" in executable {
      assert Candidates[0] in executable;
    }
  }

  /** find_ytdlp: probe the candidates in order, then `which`. */
  method FindYtDlp(executable: set<string>, whichOutput: string) returns (path: Option<string>)
    ensures path == YtDlpPath(executable, whichOutput)
  {
    var paths := Candidates;
    var i := 0;
    while i < |paths|
      invariant 0 <= i <= |paths|
      invariant forall j :: 0 <= j < i ==> paths[j] !in executable
    {
      if paths[i] in executable {
        assert FirstIn(Candidates, executable) == Some(i);
        return Some(paths[i]);
      }
      i := i + 1;
    }
    var which := Trim(whichOutput);
    if !IsEmpty(which) && which in executable {
      return Some(which);
    }
    return None;
  }

  // ---- the extractor object ----

  /** The extractor's two properties, set once by the constructor. */
  datatype Extractor = Extractor(language: string, ytDlpPath: Option<string>)

  /** is_available: a yt-dlp path was found. */
  predicate IsAvailable(e: Extractor)
  {
    e.ytDlpPath.Some? && !IsEmpty(e.ytDlpPath.value)
  }

  /**
   * The constructor as written: the property is declared `string`, so storing
   * find_ytdlp's null raises PHP's TypeError instead of building an extractor
   * that reports itself unavailable.
   */
  function NewExtractorAsWritten(language: string, executable: set<string>, whichOutput: string): (r: Outcome<Extractor>)
    ensures r.Ok? ==> r.value.language == language
  {
    var p := YtDlpPath(executable, whichOutput);
    if p.None? then
      Raise(Raised("Cannot assign null to property mod_googlemeet\\subtitle_extractor::$ytdlppath of type string"))
    else Ok(Extractor(language, p))
  }

  /** As written, a missing yt-dlp never yields an unavailable extractor: construction itself fails. */
  lemma {:induction false} AsWrittenNeverUnavailable(language: string, executable: set<string>, whichOutput: string)
    ensures NewExtractorAsWritten(language, executable, whichOutput).Ok? ==>
      IsAvailable(NewExtractorAsWritten(language, executable, whichOutput).value)
    ensures NewExtractorAsWritten(language, executable, whichOutput).Raise? <==>
      YtDlpPath(executable, whichOutput).None?
  {
    YtDlpPathSpec(executable, whichOutput);
  }

  /** The constructor with a nullable path, as is_available and extract expect. */
  function NewExtractor(language: string, executable: set<string>, whichOutput: string): (r: Extractor)
    ensures r.language == language
  {
    Extractor(language, YtDlpPath(executable, whichOutput))
  }

  /** The corrected constructor always succeeds, and is available exactly when yt-dlp was found. */
  lemma {:induction false} NewExtractorAvailable(language: string, executable: set<string>, whichOutput: string)
    ensures IsAvailable(NewExtractor(language, executable, whichOutput)) <==> YtDlpPath(executable, whichOutput).Some?
    ensures YtDlpPath(executable, whichOutput).Some? ==>
      NewExtractorAsWritten(language, executable, whichOutput) == Ok(NewExtractor(language, executable, whichOutput))
  {
    YtDlpPathSpec(executable, whichOutput);
  }

  // ---- scraping the timed-text URL from the yt-dlp log ----

  const Marker: string := "Invoking http downloader on \""
  const TimedtextPrefix: string := "https://drive.google.com/timedtext?"

  /**
   * The capture of the log pattern when its match starts at byte `i`: the
   * marker and the URL prefix, then one or more non-quote bytes, then a quote.
   */
  function MatchAt(log: string, i: nat): (r: Option<string>)
    requires i <= |log|
    ensures r.Some? ==> |r.value| > |TimedtextPrefix| && r.value[..|TimedtextPrefix|] == TimedtextPrefix
    ensures r.Some? ==> '"' !in r.value[|TimedtextPrefix|..]
  {
    var head := Marker + TimedtextPrefix;
    if !OccursAt(log, head, i) then None
    else
      var rest := log[i + |head|..];
      if '"' !in rest then None
      else
        var q := IndexOfChar(rest, '"');
        if q == 0 then None
        else
          var url := TimedtextPrefix + rest[..q];
          assert url[|TimedtextPrefix|..] == rest[..q];
          Some(url)
  }

  /** The capture of the leftmost match starting at or after byte `from`. */
  function ScanFrom(log: string, from: nat): (r: Option<string>)
    requires from <= |log|
    ensures r.Some? ==> |r.value| > |TimedtextPrefix| && r.value[..|TimedtextPrefix|] == TimedtextPrefix
    ensures r.Some? ==> '"' !in r.value[|TimedtextPrefix|..]
    ensures MatchAt(log, from).Some? ==> r == MatchAt(log, from)
    decreases |log| - from
  {
    if MatchAt(log, from).Some? then MatchAt(log, from)
    else if from == |log| then None
    else ScanFrom(log, from + 1)
  }

  /** get_timedtext_url / extract_timedtext_url: preg_match's first capture on the tool's output. */
  function TimedtextUrl(log: string): (r: Option<string>)
    ensures r.Some? ==> |r.value| > |TimedtextPrefix| && r.value[..|TimedtextPrefix|] == TimedtextPrefix
    ensures r.Some? ==> '"' !in r.value[|TimedtextPrefix|..]
  {
    ScanFrom(log, 0)
  }

  lemma {:induction false} ScanFromSpec(log: string, from: nat)
    requires from <= |log|
    ensures ScanFrom(log, from).Some? ==> exists i :: (from <= i <= |log| && MatchAt(log, i) == ScanFrom(log, from)
      && forall k :: from <= k < i ==> MatchAt(log, k).None?)
    ensures ScanFrom(log, from).None? ==> forall k :: from <= k <= |log| ==> MatchAt(log, k).None?
  {
    if ScanFrom(log, from).Some? {
      ScanFromFound(log, from);
    } else {
      ScanFromNone(log, from);
    }
  }

  /** A capture found is the one at the leftmost matching byte. */
  lemma {:induction false} ScanFromFound(log: string, from: nat)
    requires from <= |log| && ScanFrom(log, from).Some?
    ensures exists i :: (from <= i <= |log| && MatchAt(log, i) == ScanFrom(log, from)
      && forall k :: from <= k < i ==> MatchAt(log, k).None?)
    decreases |log| - from
  {
    var here := MatchAt(log, from);
    if here.Some? {
      assert here == ScanFrom(log, from);
    } else {
      ScanFromFound(log, from + 1);
      var next := ScanFrom(log, from + 1);
      assert ScanFrom(log, from) == next;
      var i :| from + 1 <= i <= |log| && MatchAt(log, i) == next
        && forall k :: from + 1 <= k < i ==> MatchAt(log, k).None?;
      forall k | from <= k < i ensures MatchAt(log, k).None? {
        if k == from {
          assert MatchAt(log, k) == here;
        }
      }
    }
  }

  /** No capture means no byte from `from` on starts a match. */
  lemma {:induction false} ScanFromNone(log: string, from: nat)
    requires from <= |log| && ScanFrom(log, from).None?
    ensures forall k :: from <= k <= |log| ==> MatchAt(log, k).None?
    decreases |log| - from
  {
    var here := MatchAt(log, from);
    assert here.None?;
    if from < |log| {
      ScanFromNone(log, from + 1);
      forall k | from <= k <= |log| ensures MatchAt(log, k).None? {
        if k == from {
          assert MatchAt(log, k) == here;
        }
      }
    }
  }

  /**
   * The URL found is the capture of the leftmost match in the log, and it
   * begins with the timed-text endpoint; no match means no URL.
   */
  lemma {:induction false} TimedtextUrlSpec(log: string)
    ensures TimedtextUrl(log).Some? ==> exists i :: (0 <= i <= |log| && MatchAt(log, i) == TimedtextUrl(log)
      && forall k :: 0 <= k < i ==> MatchAt(log, k).None?)
    ensures TimedtextUrl(log).None? <==> forall k :: 0 <= k <= |log| ==> MatchAt(log, k).None?
    ensures TimedtextUrl(log).Some? ==> StartsWith(TimedtextUrl(log).value, TimedtextPrefix)
  {
    ScanFromSpec(log, 0);
    if TimedtextUrl(log).Some? {
      var i :| 0 <= i <= |log| && MatchAt(log, i) == TimedtextUrl(log);
    }
  }

  // ---- stripping the track parameters ----

  const TrackParam: string := "&type=track"

  /**
   * `/&type=track.*$/` matches at byte `i`: `.` does not cross a line feed,
   * and `$` matches at the end or just before a final line feed.
   */
  predicate TailAt(s: string, i: nat)
  {
    OccursAt(s, TrackParam, i)
    && ('\n' !in s[i..] || (s[|s| - 1] == '\n' && '\n' !in s[i..|s| - 1]))
  }

  function TailFrom(s: string, from: nat): (r: Option<nat>)
    requires from <= |s|
    ensures r.Some? ==> from <= r.value <= |s| && TailAt(s, r.value)
    ensures r.Some? ==> forall j :: from <= j < r.value ==> !TailAt(s, j)
    ensures r.None? ==> forall j :: from <= j <= |s| ==> !TailAt(s, j)
    decreases |s| - from
  {
    if TailAt(s, from) then Some(from)
    else if from == |s| then None
    else TailFrom(s, from + 1)
  }

  /** preg_replace('/&type=track.*$/', '', $url): the base URL without its track parameters. */
  function StripTrack(s: string): (r: string)
    ensures |r| <= |s|
  {
    match TailFrom(s, 0)
    case None => s
    case Some(i) => s[..i] + (if '\n' in s[i..] then "\n" else "")
  }

  /** On a one-line URL the pattern matches exactly where "&type=track" first occurs. */
  lemma {:induction false} TailFromIsFind(s: string, from: nat)
    requires from <= |s| && '\n' !in s
    ensures TailFrom(s, from) == FindFrom(s, TrackParam, from)
    decreases |s| - from
  {
    assert '\n' !in s[from..];
    if !OccursAt(s, TrackParam, from) && from < |s| {
      TailFromIsFind(s, from + 1);
    }
  }

  /**
   * On a one-line URL everything from the first "&type=track" on is removed,
   * what is left holds no "&type=track", and a URL without one is unchanged.
   */
  lemma {:induction false} StripTrackSpec(s: string)
    requires '\n' !in s
    ensures !Contains(s, TrackParam) ==> StripTrack(s) == s
    ensures Contains(s, TrackParam) ==> StripTrack(s) == s[..Find(s, TrackParam).value]
    ensures !Contains(StripTrack(s), TrackParam)
  {
    TailFromIsFind(s, 0);
    var f := Find(s, TrackParam);
    if f.Some? {
      var i := f.value;
      assert '\n' !in s[i..];
      var r := s[..i];
      assert StripTrack(s) == r;
      forall j | 0 <= j <= |r|
        ensures !OccursAt(r, TrackParam, j)
      {
        if OccursAt(r, TrackParam, j) {
          assert s[j..j + |TrackParam|] == r[j..j + |TrackParam|];
          assert OccursAt(s, TrackParam, j);
          assert false;
        }
      }
    }
  }

  /** The speech-recognition track URL. */
  function AsrUrl(base: string, language: string): string
  {
    base + TrackParam + "&lang=" + language + "&kind=asr&fmt=1"
  }

  /** The named-track ("1") URL tried when the speech-recognition track is empty. */
  function NamedUrl(base: string, language: string): string
  {
    base + TrackParam + "&lang=" + language + "&name=1&fmt=1"
  }

  /** A track URL built on a base URL holds its first "&type=track" right after the base. */
  lemma {:induction false} TrackUrlFind(base: string, tail: string)
    requires !Contains(base, TrackParam)
    ensures Find(base + TrackParam + tail, TrackParam) == Some(|base|)
  {
    var s := base + TrackParam + tail;
    assert s[|base|..|base| + |TrackParam|] == TrackParam;
    forall j | 0 <= j < |base|
      ensures !OccursAt(s, TrackParam, j)
    {
      if j + |TrackParam| <= |base| {
        assert s[j..j + |TrackParam|] == base[j..j + |TrackParam|];
        assert !OccursAt(base, TrackParam, j);
      } else {
        var k := |base| - j;
        assert s[|base|] == '&';
        assert TrackParam[k] != '&';
      }
    }
    var f := Find(s, TrackParam);
    assert OccursAt(s, TrackParam, |base|);
    assert f.Some?;
    assert f.value == |base|;
  }

  /** Stripping either track URL gives back the base it was built on: the two URLs differ only in their track. */
  lemma {:induction false} StripTrackUrls(base: string, language: string)
    requires !Contains(base, TrackParam) && '\n' !in base && '\n' !in language
    ensures StripTrack(AsrUrl(base, language)) == base
    ensures StripTrack(NamedUrl(base, language)) == base
  {
    StripTrackUrl(base, language, "&kind=asr&fmt=1");
    StripTrackUrl(base, language, "&name=1&fmt=1");
  }

  /** A one-line URL built on a base without a track parameter strips back to the base. */
  lemma {:induction false} StripTrackUrl(base: string, language: string, kind: string)
    requires !Contains(base, TrackParam) && '\n' !in base && '\n' !in language && '\n' !in kind
    ensures StripTrack(base + TrackParam + "&lang=" + language + kind) == base
  {
    var tail := "&lang=" + language + kind;
    assert '\n' !in tail;
    var url := base + TrackParam + tail;
    assert base + TrackParam + "&lang=" + language + kind == url;
    TrackUrlFind(base, tail);
    assert '\n' !in TrackParam;
    assert '\n' !in url;
    StripTrackSpec(url);
    assert url[..|base|] == base;
  }

  // ---- the extraction chain ----

  /** What an extraction did: the transcript it returns, whether it ran yt-dlp, the subtitle URLs it fetched. */
  datatype Extraction = Extraction(transcript: Option<string>, ranTool: bool, fetched: seq<string>)

  /** Transcripts shorter than this many bytes are rejected. */
  const MinTranscript: nat := 100

  /**
   * The subtitle body for a base URL: the speech-recognition track, or the
   * named track when that is PHP-empty. `download` gives the body a URL
   * returns, "" on failure.
   */
  function SubtitleBody(base: string, language: string, download: string -> string): (r: (string, seq<string>))
  {
    var asr := download(AsrUrl(base, language));
    if !IsEmpty(asr) then (asr, [AsrUrl(base, language)])
    else (download(NamedUrl(base, language)), [AsrUrl(base, language), NamedUrl(base, language)])
  }

  /**
   * extract($driveurl). `log` is what yt-dlp prints for the URL, `parse` the
   * XML parser (None for a document that does not parse), `decode` the HTML
   * entity decoder.
   */
  function Extract(e: Extractor, driveUrl: string, log: string, download: string -> string,
                   parse: string -> Option<seq<CaptionNode>>, decode: string -> string): (r: Extraction)
    ensures r.ranTool <==> IsAvailable(e) && !IsEmpty(driveUrl)
    ensures r.transcript.Some? ==> r.ranTool && |r.transcript.value| >= MinTranscript && 1 <= |r.fetched| <= 2
    ensures |r.fetched| <= 2
  {
    if !IsAvailable(e) || IsEmpty(driveUrl) then Extraction(None, false, [])
    else match TimedtextUrl(log)
      case None => Extraction(None, true, [])
      case Some(url) =>
        var (xml, fetched) := SubtitleBody(StripTrack(url), e.language, download);
        if IsEmpty(xml) then Extraction(None, true, fetched)
        else
          var transcript := Transcript(parse(xml), decode);
          if |transcript| < MinTranscript then Extraction(None, true, fetched)
          else Extraction(Some(transcript), true, fetched)
  }

  /** Without yt-dlp or without a URL nothing is run or fetched and the result is null. */
  lemma {:induction false} ExtractGuards(e: Extractor, driveUrl: string, log: string, download: string -> string,
                                         parse: string -> Option<seq<CaptionNode>>, decode: string -> string)
    ensures var r := Extract(e, driveUrl, log, download, parse, decode);
      (!IsAvailable(e) || IsEmpty(driveUrl)) <==> !r.ranTool
    ensures var r := Extract(e, driveUrl, log, download, parse, decode);
      !r.ranTool ==> r.transcript.None? && r.fetched == []
    ensures var r := Extract(e, driveUrl, log, download, parse, decode);
      r.ranTool && TimedtextUrl(log).None? ==> r.transcript.None? && r.fetched == []
  {
  }

  /**
   * The speech-recognition track is fetched first; the named track is
   * fetched only when the first body is PHP-empty; both are built on the
   * scraped URL with its track parameters stripped.
   */
  lemma {:induction false} ExtractFallback(e: Extractor, driveUrl: string, log: string, download: string -> string,
                                           parse: string -> Option<seq<CaptionNode>>, decode: string -> string)
    requires IsAvailable(e) && !IsEmpty(driveUrl) && TimedtextUrl(log).Some?
    ensures var r := Extract(e, driveUrl, log, download, parse, decode);
      var base := StripTrack(TimedtextUrl(log).value);
      r.fetched == [AsrUrl(base, e.language)]
      || (r.fetched == [AsrUrl(base, e.language), NamedUrl(base, e.language)] && IsEmpty(download(AsrUrl(base, e.language))))
    ensures var r := Extract(e, driveUrl, log, download, parse, decode);
      var base := StripTrack(TimedtextUrl(log).value);
      |r.fetched| == 2 <==> IsEmpty(download(AsrUrl(base, e.language)))
  {
  }

  /**
   * A transcript comes back exactly when a body was downloaded and its
   * transcript has at least 100 bytes; it is then the transcript unchanged.
   */
  lemma {:induction false} ExtractResult(e: Extractor, driveUrl: string, log: string, download: string -> string,
                                         parse: string -> Option<seq<CaptionNode>>, decode: string -> string)
    requires IsAvailable(e) && !IsEmpty(driveUrl) && TimedtextUrl(log).Some?
    ensures var r := Extract(e, driveUrl, log, download, parse, decode);
      var xml := SubtitleBody(StripTrack(TimedtextUrl(log).value), e.language, download).0;
      r.transcript.Some? <==> !IsEmpty(xml) && |Transcript(parse(xml), decode)| >= MinTranscript
    ensures var r := Extract(e, driveUrl, log, download, parse, decode);
      var xml := SubtitleBody(StripTrack(TimedtextUrl(log).value), e.language, download).0;
      r.transcript.Some? ==> r.transcript.value == Transcript(parse(xml), decode) && |r.transcript.value| >= 100
  {
  }

  /** A document that does not parse gives the empty transcript, so no result. */
  lemma {:induction false} UnparsableGivesNothing(e: Extractor, driveUrl: string, log: string, download: string -> string,
                                                  parse: string -> Option<seq<CaptionNode>>, decode: string -> string)
    requires forall xml :: parse(xml).None?
    ensures Extract(e, driveUrl, log, download, parse, decode).transcript.None?
  {
    if IsAvailable(e) && !IsEmpty(driveUrl) && TimedtextUrl(log).Some? {
      var xml := SubtitleBody(StripTrack(TimedtextUrl(log).value), e.language, download).0;
      assert Transcript(parse(xml), decode) == "";
    }
  }
}
