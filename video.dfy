/**
 * The adhoc task classes/task/process_video_analysis.php: it analyses one
 * recording for one analysis row, from the stored transcript when there is
 * one, else by fetching the video from Drive into a temporary directory and
 * handing it to the Gemini file API.
 *
 * The temporary directory and the Gemini file store are the fields of a
 * `Host`; what the network, the disk and the remote calls answer is given
 * as input.
 */
module Video {
  import opened Wrappers
  import opened Php
  import opened Store
  import opened Gemini
  import opened AiService

  /*** Drive file ids ***/

  /** The characters of `[a-zA-Z0-9_-]`. */
  predicate IsIdChar(c: char)
  {
    'a' <= c <= 'z' || 'A' <= c <= 'Z' || '0' <= c <= '9' || c == '_' || c == '-'
  }

  /** The length of the run of id characters starting at `i` (a greedy `+`). */
  function IdRunLength(s: string, i: nat): (n: nat)
    requires i <= |s|
    ensures i + n <= |s|
    ensures forall k :: i <= k < i + n ==> IsIdChar(s[k])
    ensures i + n < |s| ==> !IsIdChar(s[i + n])
    decreases |s| - i
  {
    if i < |s| && IsIdChar(s[i]) then 1 + IdRunLength(s, i + 1) else 0
  }

  /** The pattern `lit` followed by `[a-zA-Z0-9_-]+` matches at offset `i`. */
  predicate PatternAt(s: string, lit: string, i: nat)
  {
    i + |lit| < |s| && OccursAt(s, lit, i) && IsIdChar(s[i + |lit|])
  }

  /** The leftmost offset at or after `from` where the pattern matches. */
  function MatchFrom(s: string, lit: string, from: nat): (r: Option<nat>)
    requires from <= |s|
    ensures r.Some? ==> from <= r.value && PatternAt(s, lit, r.value)
    ensures r.Some? ==> forall j :: from <= j < r.value ==> !PatternAt(s, lit, j)
    ensures r.None? ==> forall j :: from <= j <= |s| ==> !PatternAt(s, lit, j)
    decreases |s| - from
  {
    if PatternAt(s, lit, from) then Some(from)
    else if from == |s| then None
    else MatchFrom(s, lit, from + 1)
  }

  /** preg_match's first group for the pattern: the id run after the leftmost match. */
  function Capture(s: string, lit: string): (r: Option<string>)
    ensures r.Some? ==> |r.value| >= 1 && forall k :: 0 <= k < |r.value| ==> IsIdChar(r.value[k])
    ensures r.None? <==> forall j :: 0 <= j <= |s| ==> !PatternAt(s, lit, j)
  {
    match MatchFrom(s, lit, 0)
    case None => None
    case Some(i) => Some(s[i + |lit|..i + |lit| + IdRunLength(s, i + |lit|)])
  }

  /** The literal parts of the four patterns, in the order they are tried. */
  const Patterns: seq<string> := ["/file/d/", "id=", "/d/", "open?id="]

  /** The index of the first pattern, in order, that captures something (|patterns| when none does). */
  function FirstMatching(s: string, patterns: seq<string>): (k: nat)
    ensures k <= |patterns|
    ensures forall j :: 0 <= j < k ==> Capture(s, patterns[j]).None?
    ensures k < |patterns| ==> Capture(s, patterns[k]).Some?
  {
    if patterns == [] then 0
    else if Capture(s, patterns[0]).Some? then 0
    else 1 + FirstMatching(s, patterns[1..])
  }

  /** extract_drive_file_id: the first group of the first of the four patterns that matches, or null. */
  function ExtractDriveFileId(url: string): (r: Option<string>)
    ensures r.None? <==> forall k :: 0 <= k < |Patterns| ==> Capture(url, Patterns[k]).None?
    ensures r.Some? ==> |r.value| >= 1 && forall k :: 0 <= k < |r.value| ==> IsIdChar(r.value[k])
  {
    var k := FirstMatching(url, Patterns);
    if k < |Patterns| then Capture(url, Patterns[k]) else None
  }

  /** Wherever `open?id=` is followed by an id, `id=` is too, so the fourth pattern never decides. */
  lemma {:induction false} OpenIdSubsumed(url: string)
    ensures Capture(url, "open?id=").Some? ==> Capture(url, "id=").Some?
    ensures FirstMatching(url, Patterns) != 3
  {
    if Capture(url, "open?id=").Some? {
      var i := MatchFrom(url, "open?id=", 0).value;
      assert url[i + 5..i + 8] == url[i..i + 8][5..];
      assert PatternAt(url, "id=", i + 5);
    }
    assert Patterns[1] == "id=" && Patterns[3] == "open?id=";
  }

  /*** MIME types ***/

  /** The part of a path after the last `d` (all of it when there is none). */
  function AfterLast(s: string, d: char): (r: string)
    ensures d !in r && |r| <= |s| && r == s[|s| - |r|..]
    decreases |s|
  {
    if d !in s then s
    else
      var t := s[IndexOfChar(s, d) + 1..];
      var r := AfterLast(t, d);
      assert t[|t| - |r|..] == s[|s| - |r|..];
      r
  }

  /** What follows the last `d` holds no byte that the whole text lacks. */
  lemma {:induction false} AfterLastAvoids(s: string, d: char, c: char)
    requires c !in s
    ensures c !in AfterLast(s, d)
    decreases |s|
  {
    if d in s {
      AfterLastAvoids(s[IndexOfChar(s, d) + 1..], d, c);
    }
  }

  /** pathinfo($name, PATHINFO_EXTENSION): the text after the last dot of the base name, if it has a dot. */
  function Extension(name: string): (r: Option<string>)
    ensures r.Some? ==> '.' !in r.value && '/' !in r.value
  {
    var base := AfterLast(name, '/');
    if '.' in base then
      var e := AfterLast(base, '.');
      AfterLastAvoids(base, '.', '/');
      Some(e)
    else None
  }

  /** The extension table of get_video_mimetype, with video/mp4 for any other extension. */
  function MimeFor(ext: string): (m: string)
    ensures |m| > 6 && m[..6] == "video/"
  {
    if ext == "mp4" then "video/mp4"
    else if ext == "webm" then "video/webm"
    else if ext == "mov" then "video/quicktime"
    else if ext == "avi" then "video/x-msvideo"
    else if ext == "mkv" then "video/x-matroska"
    else if ext == "wmv" then "video/x-ms-wmv"
    else if ext == "flv" then "video/x-flv"
    else if ext == "m4v" then "video/x-m4v"
    else "video/mp4"
  }

  /** get_video_mimetype: the sniffed type when it is a video type, else by lower-cased extension. */
  function VideoMimetype(sniffed: Option<string>, fileName: string): (m: string)
    ensures StartsWith(m, "video/")
    ensures sniffed.Some? && StartsWith(sniffed.value, "video/") ==> m == sniffed.value
    ensures !(sniffed.Some? && StartsWith(sniffed.value, "video/")) ==> m == MimeFor(ToLower(Extension(fileName).GetOr("")))
  {
    if sniffed.Some? && StartsWith(sniffed.value, "video/") then sniffed.value
    else MimeFor(ToLower(Extension(fileName).GetOr("")))
  }

  /** The text after the last delimiter is what follows a delimiter when no other comes after it. */
  lemma {:induction false} AfterLastOf(a: string, b: string, d: char)
    requires d !in b
    ensures AfterLast(a + [d] + b, d) == b
    decreases |a|
  {
    var s := a + [d] + b;
    if d in a {
      var j := IndexOfChar(a, d);
      assert s[..j] == a[..j];
      IndexOfCharAt(s, d, j);
      assert s[j + 1..] == a[j + 1..] + [d] + b;
      AfterLastOf(a[j + 1..], b, d);
    } else {
      assert s[..|a|] == a;
      IndexOfCharAt(s, d, |a|);
      assert s[|a| + 1..] == b;
    }
  }

  /** A name with no slash and a dot before a dot-free extension has that extension. */
  lemma {:induction false} ExtensionOf(stem: string, ext: string)
    requires '/' !in stem && '/' !in ext && '.' !in ext
    ensures Extension(stem + "." + ext) == Some(ext)
  {
    var name := stem + "." + ext;
    assert '/' !in name by {
      forall k | 0 <= k < |name| ensures name[k] != '/' {
        if k < |stem| {
          assert name[k] == stem[k];
        } else if k > |stem| {
          assert name[k] == ext[k - |stem| - 1];
        }
      }
    }
    assert name[|stem|] == '.';
    AfterLastOf(stem, ext, '.');
  }

  /** Without a sniffed video type, a file's type follows its lower-cased extension, whatever its stem. */
  lemma {:induction false} MimetypeByExtension(sniffed: Option<string>, stem: string, ext: string)
    requires '/' !in stem && '/' !in ext && '.' !in ext
    requires !(sniffed.Some? && StartsWith(sniffed.value, "video/"))
    ensures VideoMimetype(sniffed, stem + "." + ext) == MimeFor(ToLower(ext))
  {
    ExtensionOf(stem, ext);
  }

  /** A name without an extension gives video/mp4. */
  lemma MimetypeDefault()
    ensures VideoMimetype(None, "recording") == "video/mp4"
  {
    assert '/' !in "recording" && '.' !in "recording";
    assert Extension("recording") == None;
    assert ToLower("") == "";
  }

  /*** The temporary directory and the remote file store ***/

  /** An entry of the temporary directory. */
  datatype Entry = File(mtime: int, content: string) | Directory

  /** cleanup_old_temp_files removes an entry: a listed regular file whose age exceeds the maximum. */
  predicate Stale(temp: map<string, Entry>, name: string, now: int, maxAge: int)
  {
    name != "." && name != ".." && name in temp && temp[name].File? && now - temp[name].mtime > maxAge
  }

  /** The directory after the sweep over a listing. */
  function Swept(temp: map<string, Entry>, listing: seq<string>, now: int, maxAge: int): (r: map<string, Entry>)
    ensures forall n :: n in r <==> n in temp && !(n in listing && Stale(temp, n, now, maxAge))
    ensures forall n :: n in r ==> r[n] == temp[n]
  {
    map n | n in temp && !(n in listing && Stale(temp, n, now, maxAge)) :: temp[n]
  }

  /** Directories and files no older than the maximum survive, and sweeping again removes nothing more. */
  lemma {:induction false} SweptSpec(temp: map<string, Entry>, listing: seq<string>, now: int, maxAge: int)
    ensures var r := Swept(temp, listing, now, maxAge);
      && (forall n :: n in temp && temp[n].Directory? ==> n in r)
      && (forall n :: n in temp && temp[n].File? && now - temp[n].mtime <= maxAge ==> n in r)
      && Swept(r, listing, now, maxAge) == r
  {
    var r := Swept(temp, listing, now, maxAge);
    forall n | n in r
      ensures !(n in listing && Stale(r, n, now, maxAge))
    {
      assert r[n] == temp[n];
    }
  }

  /** The minimum free space, the size bounds of a download, and the sweep's maximum age. */
  const MinFreeSpace: nat := 3221225472
  const MinVideoBytes: nat := 1000
  const MaxVideoBytes: nat := 2147483648
  const TempMaxAge: int := 3600

  /** What the disk and the network answer during one download. */
  datatype Download = Download(
    listing: seq<string>,
    freeSpace: Option<int>,
    unique: string,
    canOpen: bool,
    body: string)

  /** The temporary file's name: the unique id, a dot, and the name's extension or mp4. */
  function TempName(unique: string, fileName: string): (r: string)
    ensures |r| > |unique| + 1 && r[..|unique|] == unique && r[|unique|] == '.'
    ensures Extension(fileName).None? ==> r == unique + ".mp4"
    ensures Extension(fileName).Some? && !IsEmpty(Extension(fileName).value) ==> r == unique + "." + Extension(fileName).value
  {
    var ext := Extension(fileName).GetOr("");
    unique + "." + (if IsEmpty(ext) then "mp4" else ext)
  }

  /** Free space is known and below the minimum (disk_free_space returning false passes). */
  predicate LowDisk(freeSpace: Option<int>)
  {
    freeSpace.Some? && freeSpace.value < MinFreeSpace
  }

  const NoSpaceMessage: string := "Insufficient disk space for video download. Need at least 3GB free."
  const NoTempFileMessage: string := "Cannot create temp file"
  const NotSharedMessage: string := "Cannot download video. Make sure the file is shared with \"Anyone with the link\" permission."
  const TooSmallMessage: string := "Download failed or file too small"
  const TooLargeMessage: string := "Video file exceeds 2GB limit"
  const NoFileIdMessage: string := "Could not extract file ID from Drive URL"

  /** How a download ends. */
  datatype Verdict = NoSpace | NoTempFile | NotShared | TooSmall | TooLarge | Accepted
  {
    /** The ai_error detail of a failed download. */
    function Detail(): string
      requires this != Accepted
    {
      match this
      case NoSpace => NoSpaceMessage
      case NoTempFile => NoTempFileMessage
      case NotShared => NotSharedMessage
      case TooSmall => TooSmallMessage
      case TooLarge => TooLargeMessage
    }
  }

  /** The checks on the written file: short HTML page, short file, oversized file, or accepted. */
  function BodyVerdict(body: string): (v: Verdict)
    ensures v in {NotShared, TooSmall, TooLarge, Accepted}
    ensures v == Accepted <==> MinVideoBytes <= |body| <= MaxVideoBytes
    ensures v == TooLarge <==> |body| > MaxVideoBytes
  {
    if |body| < MinVideoBytes then (if Contains(body, "<html") then NotShared else TooSmall)
    else if |body| > MaxVideoBytes then TooLarge
    else Accepted
  }

  /** The decisions of download_from_drive, in order. */
  function DownloadVerdict(io: Download): (v: Verdict)
    ensures v == Accepted <==> !LowDisk(io.freeSpace) && io.canOpen && MinVideoBytes <= |io.body| <= MaxVideoBytes
    ensures v == NoSpace <==> LowDisk(io.freeSpace)
  {
    if LowDisk(io.freeSpace) then NoSpace
    else if !io.canOpen then NoTempFile
    else BodyVerdict(io.body)
  }

  /** The result of download_from_drive: the temporary file's name, or the ai_error raised. */
  function DownloadOutcome(io: Download, fileName: string): (r: Outcome<string>)
    ensures r.Ok? <==> DownloadVerdict(io) == Accepted
    ensures r.Ok? ==> r.value == TempName(io.unique, fileName)
    ensures r.Raise? ==> r.exc.AiError?
  {
    var v := DownloadVerdict(io);
    if v == Accepted then Ok(TempName(io.unique, fileName)) else Raise(AiError(v.Detail()))
  }

  /** The directory after a written file met its verdict: deleted, or kept. */
  function AfterWrite(temp: map<string, Entry>, path: string, v: Verdict): map<string, Entry>
  {
    if v == NotShared || v == TooLarge then temp - {path} else temp
  }

  /** The temporary directory after download_from_drive: swept, then the file written and perhaps deleted. */
  function AfterDownload(temp: map<string, Entry>, io: Download, fileName: string, now: int): map<string, Entry>
  {
    var swept := Swept(temp, io.listing, now, TempMaxAge);
    var v := DownloadVerdict(io);
    if v == NoSpace || v == NoTempFile then swept
    else AfterWrite(swept[TempName(io.unique, fileName) := File(now, io.body)], TempName(io.unique, fileName), v)
  }

  /** A returned path names the written file, which the directory holds. */
  lemma {:induction false} DownloadKeepsReturnedFile(temp: map<string, Entry>, io: Download, fileName: string, now: int)
    requires DownloadOutcome(io, fileName).Ok?
    ensures var after := AfterDownload(temp, io, fileName, now);
      DownloadOutcome(io, fileName).value in after && after[DownloadOutcome(io, fileName).value] == File(now, io.body)
  {
    var path := TempName(io.unique, fileName);
    assert DownloadVerdict(io) == Accepted;
    var written := Swept(temp, io.listing, now, TempMaxAge)[path := File(now, io.body)];
    assert AfterDownload(temp, io, fileName, now) == AfterWrite(written, path, Accepted) == written;
  }

  /**
   * Of the failures after the file was written, an HTML page and an
   * oversized file are deleted, and a short file that is not an HTML page
   * is left in the directory.
   */
  lemma {:induction false} DownloadFailureCleanup(temp: map<string, Entry>, io: Download, fileName: string, now: int)
    ensures var after := AfterDownload(temp, io, fileName, now);
      var path := TempName(io.unique, fileName);
      && (DownloadVerdict(io) == TooSmall ==> DownloadOutcome(io, fileName).Raise? && path in after)
      && (DownloadVerdict(io) == NotShared || DownloadVerdict(io) == TooLarge ==> path !in after)
    ensures DownloadVerdict(io) == TooSmall <==>
      !LowDisk(io.freeSpace) && io.canOpen && |io.body| < MinVideoBytes && !Contains(io.body, "<html")
  {
  }

  /** What the remote calls of analyze_with_video answer. */
  datatype VideoCalls = VideoCalls(
    download: Download,
    sniffed: Option<string>,
    upload: Outcome<string>,
    ready: Outcome<()>,
    analysis: Outcome<Analysis>,
    removal: Outcome<()>)

  /** Upload, wait, analyse and delete, stopping at the first exception. */
  function RemoteOutcome(io: VideoCalls): (r: Outcome<Analysis>)
    ensures r.Ok? <==> io.upload.Ok? && io.ready.Ok? && io.analysis.Ok? && io.removal.Ok?
  {
    if io.upload.Raise? then Raise(io.upload.exc)
    else if io.ready.Raise? then Raise(io.ready.exc)
    else if io.analysis.Raise? then Raise(io.analysis.exc)
    else if io.removal.Raise? then Raise(io.removal.exc)
    else Ok(io.analysis.value)
  }

  /**
   * The `if (!$fileid)` gate of analyze_with_video: no pattern matched, or
   * the id is a falsy PHP string (an id run is never empty, but it can be "0").
   */
  predicate HasFileId(link: string)
  {
    ExtractDriveFileId(link).Some? && !IsEmpty(ExtractDriveFileId(link).value)
  }

  /** The result of analyze_with_video. */
  function VideoOutcome(link: string, name: string, io: VideoCalls): (r: Outcome<Analysis>)
    ensures !HasFileId(link) ==> r == Raise(AiError(NoFileIdMessage))
    ensures r.Ok? ==> HasFileId(link) && DownloadOutcome(io.download, name).Ok? && r == RemoteOutcome(io)
  {
    if !HasFileId(link) then Raise(AiError(NoFileIdMessage))
    else match DownloadOutcome(io.download, name)
      case Raise(e) => Raise(e)
      case Ok(_) => RemoteOutcome(io)
  }

  /** A literal that starts differently does not occur at `i`. */
  lemma {:induction false} NotOccursAt(s: string, t: string, i: nat)
    requires 2 <= |t| && i + 1 < |s| && (s[i] != t[0] || s[i + 1] != t[1])
    ensures !OccursAt(s, t, i)
  {
  }

  /** The link of the example below: its first `/f` is the one of `/file/d/`. */
  const ZeroIdLink: string := "https://drive.google.com/file/d/0/view"

  /** The Drive file pattern first matches the example link at offset 24. */
  lemma ZeroIdMatch()
    ensures MatchFrom(ZeroIdLink, Patterns[0], 0) == Some(24)
  {
    var url, lit := ZeroIdLink, Patterns[0];
    assert lit == "/file/d/";
    assert |url| == 38;
    forall k | 0 <= k < 8
      ensures url[24 + k] == lit[k]
    {
    }
    assert url[24..32] == lit;
    assert PatternAt(url, lit, 24);
    forall j | 0 <= j < 24
      ensures !PatternAt(url, lit, j)
    {
      assert url[j] != '/' || url[j + 1] != 'f';
      NotOccursAt(url, lit, j);
    }
  }

  /** The id run after that match is the single character "0". */
  lemma ZeroIdCapture()
    ensures Capture(ZeroIdLink, Patterns[0]) == Some("0")
  {
    ZeroIdMatch();
    var url := ZeroIdLink;
    assert |Patterns[0]| == 8;
    assert url[32] == '0' && url[33] == '/';
    assert IdRunLength(url, 33) == 0;
    assert IdRunLength(url, 32) == 1;
    assert url[32..33] == "0";
  }

  /** A Drive link whose id is "0" is refused like one with no id: nothing is downloaded. */
  lemma ZeroFileIdRaises(name: string, io: VideoCalls)
    ensures ExtractDriveFileId(ZeroIdLink) == Some("0")
    ensures VideoOutcome(ZeroIdLink, name, io) == Raise(AiError(NoFileIdMessage))
    ensures !Uploads(ZeroIdLink, name, io)
  {
    ZeroIdCapture();
    assert FirstMatching(ZeroIdLink, Patterns) == 0;
  }

  /** The video reaches Gemini: an id was found, the download returned and the upload succeeded. */
  predicate Uploads(link: string, name: string, io: VideoCalls)
  {
    HasFileId(link) && DownloadOutcome(io.download, name).Ok? && io.upload.Ok?
  }

  /** The analysis a run of the video task obtains: not configured, the transcript path, or the video path. */
  function TaskAnswer(client: Client, rec: Recording, transcriptAnswer: Outcome<Analysis>, io: VideoCalls): (r: Outcome<Analysis>)
    ensures !IsConfigured(client) ==> r == Raise(AiNotConfigured)
    ensures IsConfigured(client) && !IsEmpty(rec.transcriptText) ==> r == transcriptAnswer
    ensures IsConfigured(client) && IsEmpty(rec.transcriptText) ==> r == VideoOutcome(rec.webViewLink, rec.name, io)
  {
    if !IsConfigured(client) then Raise(AiNotConfigured)
    else if !IsEmpty(rec.transcriptText) then transcriptAnswer
    else VideoOutcome(rec.webViewLink, rec.name, io)
  }

  /** The video task's temporary directory and the files uploaded to Gemini. */
  class Host {
    var temp: map<string, Entry>
    var remote: set<string>

    constructor(temp: map<string, Entry>, remote: set<string>)
      ensures this.temp == temp && this.remote == remote
    {
      this.temp := temp;
      this.remote := remote;
    }

    /** cleanup_old_temp_files over the names scandir listed. */
    method CleanupOldTempFiles(listing: seq<string>, now: int, maxAge: int)
      modifies this`temp
      ensures temp == Swept(old(temp), listing, now, maxAge)
    {
      var i := 0;
      while i < |listing|
        invariant 0 <= i <= |listing|
        invariant temp == Swept(old(temp), listing[..i], now, maxAge)
      {
        var name := listing[i];
        assert listing[..i + 1] == listing[..i] + [name];
        if name != "." && name != ".." && name in temp && temp[name].File? && now - temp[name].mtime > maxAge {
          temp := temp - {name};
        }
        i := i + 1;
      }
      assert listing[..i] == listing;
    }

    /** download_from_drive: sweep, check the disk, write the file, then check what arrived. */
    method DownloadFromDrive(fileName: string, io: Download, now: int) returns (r: Outcome<string>)
      modifies this`temp
      ensures r == DownloadOutcome(io, fileName)
      ensures temp == AfterDownload(old(temp), io, fileName, now)
    {
      CleanupOldTempFiles(io.listing, now, TempMaxAge);
      if LowDisk(io.freeSpace) {
        return Raise(AiError(NoSpaceMessage));
      }
      var path := TempName(io.unique, fileName);
      if !io.canOpen {
        return Raise(AiError(NoTempFileMessage));
      }
      temp := temp[path := File(now, io.body)];
      r := CheckDownload(path, io.body);
    }

    /** The checks on the written file: a short HTML page or an oversized file is deleted, any other short file is left. */
    method CheckDownload(path: string, body: string) returns (r: Outcome<string>)
      modifies this`temp
      ensures var v := BodyVerdict(body);
        r == (if v == Accepted then Ok(path) else Raise(AiError(v.Detail())))
      ensures temp == AfterWrite(old(temp), path, BodyVerdict(body))
    {
      if |body| < MinVideoBytes {
        if Contains(body, "<html") {
          temp := temp - {path};
          return Raise(AiError(NotSharedMessage));
        }
        return Raise(AiError(TooSmallMessage));
      }
      if |body| > MaxVideoBytes {
        temp := temp - {path};
        return Raise(AiError(TooLargeMessage));
      }
      r := Ok(path);
    }

    /** The try block of execute up to the result: the configuration gate, then the transcript or the video path. */
    method Analyze(client: Client, rec: Recording, transcriptAnswer: Outcome<Analysis>, io: VideoCalls, now: int)
      returns (answer: Outcome<Analysis>)
      modifies this
      ensures answer == TaskAnswer(client, rec, transcriptAnswer, io)
      ensures !(IsConfigured(client) && IsEmpty(rec.transcriptText)) ==> unchanged(this)
    {
      if !IsConfigured(client) {
        answer := Raise(AiNotConfigured);
      } else if !IsEmpty(rec.transcriptText) {
        answer := transcriptAnswer;
      } else {
        answer := AnalyzeWithVideo(rec.webViewLink, rec.name, io, now);
      }
    }

    /**
     * The Gemini part of analyze_with_video: upload, wait, analyse, delete.
     * The uploaded file stays on the remote side when a later call fails.
     */
    method RemoteCalls(io: VideoCalls) returns (r: Outcome<Analysis>)
      modifies this`remote
      ensures r == RemoteOutcome(io)
      ensures io.upload.Raise? ==> remote == old(remote)
      ensures io.upload.Ok? ==>
        remote == if r.Ok? then old(remote) - {io.upload.value} else old(remote) + {io.upload.value}
    {
      if io.upload.Raise? {
        return Raise(io.upload.exc);
      }
      remote := remote + {io.upload.value};
      if io.ready.Raise? {
        r := Raise(io.ready.exc);
      } else if io.analysis.Raise? {
        r := Raise(io.analysis.exc);
      } else if io.removal.Raise? {
        r := Raise(io.removal.exc);
      } else {
        assert remote - {io.upload.value} == old(remote) - {io.upload.value};
        remote := remote - {io.upload.value};
        r := Ok(io.analysis.value);
      }
    }

    /**
     * analyze_with_video: no id means no download; once the download has
     * returned its path the file is gone on every exit, and the uploaded
     * Gemini file is deleted only when every remote call succeeded.
     */
    method AnalyzeWithVideo(link: string, name: string, io: VideoCalls, now: int) returns (r: Outcome<Analysis>)
      modifies this
      ensures r == VideoOutcome(link, name, io)
      ensures !HasFileId(link) ==> temp == old(temp) && remote == old(remote)
      ensures HasFileId(link) ==>
        var after := AfterDownload(old(temp), io.download, name, now);
        var path := TempName(io.download.unique, name);
        temp == if DownloadOutcome(io.download, name).Ok? then after - {path} else after
      ensures !Uploads(link, name, io) ==> remote == old(remote)
      ensures Uploads(link, name, io) ==>
        remote == if RemoteOutcome(io).Ok? then old(remote) - {io.upload.value} else old(remote) + {io.upload.value}
    {
      var fileId := ExtractDriveFileId(link);
      if fileId.None? || IsEmpty(fileId.value) {
        return Raise(AiError(NoFileIdMessage));
      }
      var tempFile := DownloadFromDrive(name, io.download, now);
      if tempFile.Raise? {
        return Raise(tempFile.exc);
      }
      var path := tempFile.value;
      DownloadKeepsReturnedFile(old(temp), io.download, name, now);
      ghost var after := temp;
      var mimetype := VideoMimetype(io.sniffed, name);
      r := RemoteCalls(io);
      assert temp == after && path in temp;
      // The finally block.
      if path in temp {
        temp := temp - {path};
      }
    }
  }

  /**
   * execute: a missing recording or analysis row aborts with no write;
   * otherwise the row is marked processing, then ends completed with the
   * results and the client's model, or failed with the exception's message.
   * The Drive and Gemini side effects happen only on the video path.
   */
  method Execute(db: Database, host: Host, job: Job, settings: Settings, transcriptAnswer: Outcome<Analysis>,
                 io: VideoCalls, now: int)
    requires db.Valid()
    modifies db`analyses, host
    ensures db.Valid()
    ensures job.recordingId !in db.recordings || job.analysisId !in old(db.analyses) ==>
      unchanged(db) && unchanged(host)
    ensures job.recordingId in db.recordings && job.analysisId in old(db.analyses) ==>
      var rec := db.recordings[job.recordingId];
      var client := NewClient(settings);
      var row := old(db.analyses)[job.analysisId];
      db.analyses == old(db.analyses)[job.analysisId :=
        SyncFinish(row.(status := Processing, timeModified := now), TaskAnswer(client, rec, transcriptAnswer, io), client.model, now)]
    ensures job.recordingId in db.recordings &&
            !(IsConfigured(NewClient(settings)) && IsEmpty(db.recordings[job.recordingId].transcriptText)) ==>
      unchanged(host)
  {
    if job.recordingId !in db.recordings {
      return;
    }
    if job.analysisId !in db.analyses {
      return;
    }
    Process(db, host, job.recordingId, job.analysisId, NewClient(settings), transcriptAnswer, io, now);
  }

  /** The part of execute after both rows were found. */
  method Process(db: Database, host: Host, recordingId: nat, analysisId: nat, client: Client,
                 transcriptAnswer: Outcome<Analysis>, io: VideoCalls, now: int)
    requires db.Valid() && recordingId in db.recordings && analysisId in db.analyses
    modifies db`analyses, host
    ensures db.Valid() && db.recordings == old(db.recordings)
    ensures var rec := db.recordings[recordingId];
      var row := old(db.analyses)[analysisId];
      db.analyses == old(db.analyses)[analysisId :=
        SyncFinish(row.(status := Processing, timeModified := now), TaskAnswer(client, rec, transcriptAnswer, io), client.model, now)]
    ensures !(IsConfigured(client) && IsEmpty(db.recordings[recordingId].transcriptText)) ==> unchanged(host)
  {
    var rec := db.recordings[recordingId];
    var start := db.analyses[analysisId].(status := Processing, timeModified := now);
    db.UpdateAnalysis(analysisId, start);
    ghost var before := db.analyses;
    var answer := host.Analyze(client, rec, transcriptAnswer, io, now);
    assert db.analyses == before && db.recordings == old(db.recordings);
    var final := SyncFinish(start, answer, client.model, now);
    db.UpdateAnalysis(analysisId, final);
    assert db.analyses == old(db.analyses)[analysisId := final] by {
      Overwrite(old(db.analyses), analysisId, start, final);
    }
  }
}
