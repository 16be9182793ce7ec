/**
 * The Drive-side helpers of classes/client.php: which recordings found on
 * Drive belong to an activity, how an uploaded caption file is reduced to
 * plain text, which caption file is chosen, and how a duration is written.
 */
module DriveClient {
  import opened Wrappers
  import opened Php
  import opened Store
  import opened Captions
  import Video

  /** A file as the Drive list call returns it: its Drive id and its name, if it has one. */
  datatype DriveFile = DriveFile(id: string, name: Option<string>)

  // ---- filter_recordings_for_activity ----

  /** The bytes of PCRE's `\w`: letters, digits and the underscore. */
  predicate IsWordChar(c: char)
  {
    'a' <= c <= 'z' || 'A' <= c <= 'Z' || '0' <= c <= '9' || c == '_'
  }

  /** PCRE's `\b` at offset i: exactly one of the bytes either side is a word byte (outside the text counts as none). */
  predicate WordBoundary(s: string, i: nat)
    requires i <= |s|
  {
    (i > 0 && IsWordChar(s[i - 1])) != (i < |s| && IsWordChar(s[i]))
  }

  /** `\s*[\(\-]` matches at offset k: white space, then an opening parenthesis or a hyphen. */
  predicate SpacesThenOpen(s: string, k: nat)
    decreases |s| - k
  {
    k < |s| && (s[k] == '(' || s[k] == '-' || (IsRegexSpace(s[k]) && SpacesThenOpen(s, k + 1)))
  }

  /** The third check's pattern `\b<name>\s*[\(\-]` matches at offset i. */
  predicate NameMatchAt(s: string, name: string, i: nat)
  {
    i <= |s| && WordBoundary(s, i) && OccursAt(s, name, i) && SpacesThenOpen(s, i + |name|)
  }

  predicate NameMatchFrom(s: string, name: string, i: nat)
    decreases |s| - i
  {
    i <= |s| && (NameMatchAt(s, name, i) || NameMatchFrom(s, name, i + 1))
  }

  /** preg_match of the third check on the lower-cased recording name. */
  predicate NameMatches(s: string, name: string)
  {
    NameMatchFrom(s, name, 0)
  }

  /** The search finds a match exactly when the pattern matches at some offset. */
  lemma {:induction false} NameMatchFromSpec(s: string, name: string, i: nat)
    ensures NameMatchFrom(s, name, i) <==> exists j :: i <= j <= |s| && NameMatchAt(s, name, j)
    decreases |s| - i
  {
    if i <= |s| {
      NameMatchFromSpec(s, name, i + 1);
      if exists j :: i <= j <= |s| && NameMatchAt(s, name, j) {
        var j :| i <= j <= |s| && NameMatchAt(s, name, j);
        if j > i {
          assert NameMatchFrom(s, name, i + 1);
        }
      }
    }
  }

  /** The Drive ids the recordings table already holds (its recordingid column). */
  function KnownIds(recordings: map<nat, Recording>): (ids: set<string>)
    ensures forall r :: r in recordings ==> recordings[r].driveId in ids
  {
    set r | r in recordings :: recordings[r].driveId
  }

  /**
   * A recording is kept when its Drive id is not in the table yet and its
   * lower-cased name contains the meeting code, starts with the trimmed
   * lower-cased activity name, or matches the third pattern. `fold` stands
   * for core_text::strtolower, which lower-cases UTF-8 letters as well as
   * ASCII ones.
   */
  predicate Keeps(f: DriveFile, known: set<string>, meetingCode: string, activityName: string, fold: string -> string)
  {
    var lower := fold(f.name.GetOr(""));
    var nameLower := fold(Trim(activityName));
    && f.id !in known
    && (|| (!IsEmpty(meetingCode) && Contains(lower, fold(meetingCode)))
        || (!IsEmpty(nameLower) && StartsWith(lower, nameLower))
        || NameMatches(lower, nameLower))
  }

  /** The kept recordings, in their order. */
  function Filtered(files: seq<DriveFile>, known: set<string>, meetingCode: string, activityName: string, fold: string -> string)
    : (r: seq<DriveFile>)
    ensures |r| <= |files|
    decreases |files|
  {
    if files == [] then []
    else
      var n := |files| - 1;
      Filtered(files[..n], known, meetingCode, activityName, fold)
        + if Keeps(files[n], known, meetingCode, activityName, fold) then [files[n]] else []
  }

  /** Filtering splits over concatenation, so the kept recordings keep their relative order. */
  lemma {:induction false} FilteredAppend(a: seq<DriveFile>, b: seq<DriveFile>, known: set<string>, meetingCode: string, activityName: string, fold: string -> string)
    ensures Filtered(a + b, known, meetingCode, activityName, fold)
         == Filtered(a, known, meetingCode, activityName, fold) + Filtered(b, known, meetingCode, activityName, fold)
    decreases |b|
  {
    if b == [] {
      assert a + b == a;
    } else {
      var n := |b| - 1;
      assert (a + b)[..|a + b| - 1] == a + b[..n];
      assert (a + b)[|a + b| - 1] == b[n];
      FilteredAppend(a, b[..n], known, meetingCode, activityName, fold);
    }
  }

  /** Exactly the recordings that pass are in the result: nothing else, and none is lost. */
  lemma {:induction false} FilteredSpec(files: seq<DriveFile>, known: set<string>, meetingCode: string, activityName: string, fold: string -> string)
    ensures var r := Filtered(files, known, meetingCode, activityName, fold);
      (forall f :: f in r ==> f in files && Keeps(f, known, meetingCode, activityName, fold))
      && (forall k :: 0 <= k < |files| && Keeps(files[k], known, meetingCode, activityName, fold) ==> files[k] in r)
    decreases |files|
  {
    if files != [] {
      var n := |files| - 1;
      FilteredSpec(files[..n], known, meetingCode, activityName, fold);
      forall k | 0 <= k < n
        ensures files[..n][k] == files[k]
      {
      }
    }
  }

  /** A recording already in the table is never kept. */
  lemma {:induction false} KnownNeverKept(files: seq<DriveFile>, recordings: map<nat, Recording>, meetingCode: string, activityName: string, fold: string -> string, r: nat)
    requires r in recordings
    ensures forall f :: f in Filtered(files, KnownIds(recordings), meetingCode, activityName, fold) ==> f.id != recordings[r].driveId
  {
    FilteredSpec(files, KnownIds(recordings), meetingCode, activityName, fold);
  }

  /** filter_recordings_for_activity: the loop that keeps the matching recordings, in order. */
  method FilterRecordingsForActivity(files: seq<DriveFile>, recordings: map<nat, Recording>, meetingCode: string, activityName: string, fold: string -> string)
    returns (filtered: seq<DriveFile>)
    ensures filtered == Filtered(files, KnownIds(recordings), meetingCode, activityName, fold)
  {
    if files == [] {
      return [];
    }
    var known := KnownIds(recordings);
    filtered := [];
    var i := 0;
    while i < |files|
      invariant 0 <= i <= |files|
      invariant filtered == Filtered(files[..i], known, meetingCode, activityName, fold)
    {
      assert files[..i + 1][..i] == files[..i];
      if Keeps(files[i], known, meetingCode, activityName, fold) {
        filtered := filtered + [files[i]];
      }
      i := i + 1;
    }
    assert files[..i] == files;
  }

  // ---- parse_transcript ----

  /** The line starts with `\d{k}:\d{2}:\d{2}[.,]\d{3}` for k digits of hours. */
  predicate StampWith(l: string, k: nat)
    requires k == 1 || k == 2
  {
    && |l| >= k + 10
    && (forall i :: 0 <= i < k ==> IsDigit(l[i]))
    && l[k] == ':' && IsDigit(l[k + 1]) && IsDigit(l[k + 2])
    && l[k + 3] == ':' && IsDigit(l[k + 4]) && IsDigit(l[k + 5])
    && (l[k + 6] == '.' || l[k + 6] == ',')
    && IsDigit(l[k + 7]) && IsDigit(l[k + 8]) && IsDigit(l[k + 9])
  }

  /** `^\d{1,2}:\d{2}:\d{2}[.,]\d{3}`: a cue timing line. */
  predicate IsTiming(l: string)
  {
    StampWith(l, 1) || StampWith(l, 2)
  }

  /** A trimmed line the parser drops before cleaning: empty, the WEBVTT header, a timing line, or a cue number. */
  predicate IsCueMarkup(l: string)
  {
    IsEmpty(l) || StartsWith(l, "WEBVTT") || IsTiming(l) || (l != "" && AllDigits(l))
  }

  /** `^\[.*?\]\s*` removed: a leading bracketed speaker label and the space after it. */
  function StripLabel(s: string): (r: string)
    ensures |r| <= |s|
    ensures (s == [] || s[0] != '[') ==> r == s
  {
    if s != [] && s[0] == '[' && ']' in s[1..] then
      var close := 1 + IndexOfChar(s[1..], ']');
      SkipSpaces(s[close + 1..])
    else s
  }

  /** Where a `<v\s+[^>]+>` tag at the start of `s` ends (the offset of its `>`), if one starts there. */
  function VoiceTagEnd(s: string): (r: Option<nat>)
    ensures r.Some? ==> 3 < r.value < |s| && s[r.value] == '>' && s[0] == '<'
  {
    if |s| >= 4 && s[0] == '<' && s[1] == 'v' && IsRegexSpace(s[2]) && s[3] != '>' && '>' in s[3..] then
      Some(3 + IndexOfChar(s[3..], '>'))
    else None
  }

  /** preg_replace('/<v\s+[^>]+>/', '', s): every opening voice tag removed, scanning left to right. */
  function StripVoiceTags(s: string): (r: string)
    ensures |r| <= |s|
    decreases |s|
  {
    if s == [] then []
    else match VoiceTagEnd(s)
      case Some(j) => StripVoiceTags(s[j + 1..])
      case None => [s[0]] + StripVoiceTags(s[1..])
  }

  /** preg_replace('/<\/v>/', '', s): every closing voice tag removed, scanning left to right. */
  function StripVoiceClose(s: string): (r: string)
    ensures |r| <= |s|
    decreases |s|
  {
    if s == [] then []
    else if StartsWith(s, "</v>") then StripVoiceClose(s[4..])
    else [s[0]] + StripVoiceClose(s[1..])
  }

  /** Text without '<' has no voice tag to remove. */
  lemma {:induction false} StripVoiceTagsPlain(s: string)
    requires '<' !in s
    ensures StripVoiceTags(s) == s && StripVoiceClose(s) == s
    decreases |s|
  {
    if s != [] {
      assert s[0] != '<';
      assert s == [s[0]] + s[1..];
      StripVoiceTagsPlain(s[1..]);
    }
  }

  /** A kept line with its speaker label and voice tags removed. */
  function CleanLine(l: string): (r: string)
    ensures |r| <= |l|
  {
    StripVoiceClose(StripVoiceTags(StripLabel(l)))
  }

  /** What one raw line contributes: nothing, or its cleaned text. */
  function Piece(raw: string): (r: seq<string>)
    ensures |r| <= 1 && forall k :: 0 <= k < |r| ==> !IsEmpty(r[k])
  {
    var l := Trim(raw);
    if IsCueMarkup(l) then []
    else
      var c := CleanLine(l);
      if IsEmpty(c) then [] else [c]
  }

  /** The pieces of the lines, in order. */
  function Pieces(lines: seq<string>): (r: seq<string>)
    ensures |r| <= |lines|
    ensures forall k :: 0 <= k < |r| ==> !IsEmpty(r[k])
    decreases |lines|
  {
    if lines == [] then [] else Pieces(lines[..|lines| - 1]) + Piece(lines[|lines| - 1])
  }

  /** What parse_transcript returns for content in the given format. */
  function TranscriptText(content: string, format: string): string
  {
    if ToLower(format) == "txt" then Trim(content)
    else Join(Pieces(Split(content, '\n')), " ")
  }

  /** A line of plain speech: after trimming it is not empty, not markup, and has no label or tag. */
  predicate PlainLine(raw: string)
  {
    var l := Trim(raw);
    !IsEmpty(l) && !StartsWith(l, "WEBVTT") && !IsDigit(l[0]) && l[0] != '[' && '<' !in l
  }

  /** A plain line comes out trimmed and otherwise untouched. */
  lemma {:induction false} PlainPiece(raw: string)
    requires PlainLine(raw)
    ensures Piece(raw) == [Trim(raw)]
  {
    var l := Trim(raw);
    assert !IsTiming(l);
    assert !AllDigits(l);
    StripVoiceTagsPlain(l);
  }

  /** The trimmed lines, in order. */
  function Trims(lines: seq<string>): (r: seq<string>)
    ensures |r| == |lines| && forall k :: 0 <= k < |lines| ==> r[k] == Trim(lines[k])
    decreases |lines|
  {
    if lines == [] then [] else Trims(lines[..|lines| - 1]) + [Trim(lines[|lines| - 1])]
  }

  /** Lines that each come out as their trimmed text give the trimmed lines, in order. */
  lemma {:induction false} TrimmedPieces(lines: seq<string>)
    requires forall k :: 0 <= k < |lines| ==> Piece(lines[k]) == [Trim(lines[k])]
    ensures Pieces(lines) == Trims(lines)
    decreases |lines|
  {
    if lines != [] {
      var n := |lines| - 1;
      var init := lines[..n];
      assert forall k :: 0 <= k < n ==> init[k] == lines[k];
      TrimmedPieces(init);
      assert Piece(lines[n]) == [Trim(lines[n])];
      assert Pieces(lines) == Pieces(init) + Piece(lines[n]);
      assert Trims(lines) == Trims(init) + [Trim(lines[n])];
    }
  }

  /** Plain lines pass through: the transcript is their trimmed text, in order. */
  lemma {:induction false} PlainPieces(lines: seq<string>)
    requires forall k :: 0 <= k < |lines| ==> PlainLine(lines[k])
    ensures |Pieces(lines)| == |lines| && forall k :: 0 <= k < |lines| ==> Pieces(lines)[k] == Trim(lines[k])
  {
    forall k | 0 <= k < |lines|
      ensures Piece(lines[k]) == [Trim(lines[k])]
    {
      PlainPiece(lines[k]);
    }
    TrimmedPieces(lines);
  }

  /** Cue numbers, timing lines and the header contribute nothing. */
  lemma {:induction false} MarkupDropped(raw: string)
    requires IsCueMarkup(Trim(raw))
    ensures Piece(raw) == []
  {
  }

  /** The loop of parse_transcript over the caption lines: the cleaned text of each line that is not markup, when not empty. */
  method CaptionPieces(lines: seq<string>) returns (kept: seq<string>)
    ensures kept == Pieces(lines)
  {
    kept := [];
    var i := 0;
    assert lines[..0] == [];
    while i < |lines|
      invariant 0 <= i <= |lines|
      invariant kept == Pieces(lines[..i])
    {
      ghost var next := lines[..i + 1];
      assert next[..i] == lines[..i] && next[i] == lines[i];
      var line := Trim(lines[i]);
      if !IsCueMarkup(line) {
        var cleaned := CleanLine(line);
        if !IsEmpty(cleaned) {
          kept := kept + [cleaned];
        }
      }
      i := i + 1;
      assert lines[..i] == next;
    }
    assert lines[..i] == lines;
  }

  /** parse_transcript: plain text trimmed verbatim, otherwise the caption lines cleaned and joined with spaces. */
  method ParseTranscript(content: string, format: string) returns (text: string)
    ensures text == TranscriptText(content, format)
    ensures ToLower(format) == "txt" ==> text == Trim(content)
  {
    if ToLower(format) == "txt" {
      return Trim(content);
    }
    var kept := CaptionPieces(Split(content, '\n'));
    text := Join(kept, " ");
  }

  // ---- formatseconds ----

  /** formatseconds($milli): whole seconds as "0:SS", "M:SS" or "H:MM:SS". */
  function FormatSeconds(milli: nat): (r: string)
    ensures milli / 1000 < 60 ==> r == "0:" + PadLeft2(NatToString(milli / 1000))
  {
    var secs := milli / 1000;
    if secs < 60 then "0:" + PadLeft2(NatToString(secs))
    else if secs < 3600 then NatToString(secs / 60) + ":" + PadLeft2(NatToString(secs % 60))
    else NatToString(secs / 3600) + ":" + PadLeft2(NatToString((secs % 3600) / 60)) + ":" + PadLeft2(NatToString(secs % 60))
  }

  /** A duration is written exactly like a transcript's clock line for the same number of seconds. */
  lemma {:induction false} FormatSecondsIsClock(milli: nat)
    ensures FormatSeconds(milli) == Clock(milli / 1000)
  {
    var s := milli / 1000;
    ClockFields(s);
    ClockShape(s);
    TwoDigitsPadded(s % 60);
    if s < 60 {
      ZeroColon();
      assert FormatSeconds(milli) == "0:" + PadLeft2(NatToString(s % 60));
    } else if s < 3600 {
      assert FormatSeconds(milli) == NatToString(s / 60) + ":" + PadLeft2(NatToString(s % 60));
    } else {
      LongClock(milli);
    }
  }

  /** From one hour on, both write hours, minutes and seconds. */
  lemma {:induction false} LongClock(milli: nat)
    requires milli / 1000 >= 3600
    ensures FormatSeconds(milli) == Clock(milli / 1000)
  {
    var s := milli / 1000;
    ClockShape(s);
    ClockFields(s);
    TwoDigitsPadded(s % 60);
    TwoDigitsPadded((s % 3600) / 60);
  }

  /** No hours and no minutes read "0:". */
  lemma ZeroColon()
    ensures NatToString(0) + ":" == "0:"
  {
    assert NatToString(0) == [Digit(0)];
  }

  /** The two digits of a number below 100 are its decimal text padded to two places. */
  lemma TwoDigitsPadded(n: nat)
    requires n < 100
    ensures TwoDigits(n) == PadLeft2(NatToString(n))
  {
    TwoDigitsSpec(n);
  }

  /** The clock line by the size of the number: "M:SS" below an hour, "H:MM:SS" from one hour. */
  lemma ClockShape(s: nat)
    ensures s < 3600 ==> Clock(s) == NatToString((s % 3600) / 60) + ":" + TwoDigits(s % 60)
    ensures s >= 3600 ==> Clock(s) == NatToString(s / 3600) + ":" + TwoDigits((s % 3600) / 60) + ":" + TwoDigits(s % 60)
  {
    ClockFields(s);
  }

  /** The hour, minute and second fields of a number of seconds. */
  lemma ClockFields(s: nat)
    ensures s % 60 < 60 && (s % 3600) / 60 < 60
    ensures s < 60 ==> s / 3600 == 0 && (s % 3600) / 60 == 0 && s % 60 == s
    ensures s < 3600 ==> s / 3600 == 0 && (s % 3600) / 60 == s / 60
    ensures s >= 3600 ==> s / 3600 > 0
  {
  }

  /** A written duration reads back as its whole seconds. */
  lemma {:induction false} FormatSecondsRoundTrip(milli: nat)
    ensures ParseClock(FormatSeconds(milli)) == Some(milli / 1000)
  {
    FormatSecondsIsClock(milli);
    ClockRoundTrip(milli / 1000);
  }

  // ---- find_transcript_for_recording ----

  /** The lower-cased extension pathinfo gives a file name, "" when there is none. */
  function ExtensionOf(f: DriveFile): string
  {
    ToLower(Video.Extension(f.name.GetOr("")).GetOr(""))
  }

  /** The lower-cased extensions of the listed files. */
  function Extensions(files: seq<DriveFile>): (exts: seq<string>)
    ensures |exts| == |files| && forall k :: 0 <= k < |files| ==> exts[k] == ExtensionOf(files[k])
  {
    seq(|files|, k requires 0 <= k < |files| => ExtensionOf(files[k]))
  }

  /** The extensions that win at once, and the one taken only when no such file comes. */
  const CaptionKinds: set<string> := {"sbv", "vtt"}
  const TextKinds: set<string> := {"txt"}

  /** The first position whose extension is of one of the kinds, if any. */
  function FirstOf(exts: seq<string>, kinds: set<string>): (r: Option<nat>)
    ensures r.Some? ==> (r.value < |exts| && exts[r.value] in kinds
      && forall k :: 0 <= k < r.value ==> exts[k] !in kinds)
    ensures r.None? ==> forall k :: 0 <= k < |exts| ==> exts[k] !in kinds
    decreases |exts|
  {
    if exts == [] then None
    else if exts[0] in kinds then Some(0)
    else match FirstOf(exts[1..], kinds)
      case None => None
      case Some(k) => Some(k + 1)
  }

  /** The preferred transcript file: the first .sbv or .vtt file, else the first .txt file. */
  function Preferred(exts: seq<string>): Option<nat>
  {
    if FirstOf(exts, CaptionKinds).Some? then FirstOf(exts, CaptionKinds) else FirstOf(exts, TextKinds)
  }

  /**
   * The preferred file is a caption file when there is one, else a text
   * file; there is none only when no file has either extension.
   */
  lemma {:induction false} PreferredSpec(exts: seq<string>)
    ensures var p := Preferred(exts);
      && (p.Some? ==> p.value < |exts| && exts[p.value] in CaptionKinds + TextKinds)
      && (p.None? <==> forall k :: 0 <= k < |exts| ==> exts[k] !in CaptionKinds + TextKinds)
      && ((exists k :: 0 <= k < |exts| && exts[k] in CaptionKinds) ==> p.Some? && exts[p.value] in CaptionKinds)
  {
  }

  /** The first position of a kind among one more extension. */
  lemma {:induction false} FirstOfStep(exts: seq<string>, kinds: set<string>, i: nat)
    requires i < |exts|
    ensures FirstOf(exts[..i + 1], kinds) == if FirstOf(exts[..i], kinds).Some? then FirstOf(exts[..i], kinds)
                                             else if exts[i] in kinds then Some(i) else None
  {
    assert forall k :: 0 <= k < i ==> exts[..i + 1][k] == exts[..i][k];
    assert exts[..i + 1][i] == exts[i];
  }

  /** A position of the kind with none before it is the first one. */
  lemma {:induction false} FirstOfAt(exts: seq<string>, kinds: set<string>, i: nat)
    requires i < |exts| && exts[i] in kinds && forall k :: 0 <= k < i ==> exts[k] !in kinds
    ensures FirstOf(exts, kinds) == Some(i)
  {
    var r := FirstOf(exts, kinds);
    assert r.Some?;
    assert !(r.value < i);
    assert !(i < r.value);
  }

  /** The loop of find_transcript_for_recording that picks the transcript file, over the files' extensions. */
  method ChoosePreferred(exts: seq<string>) returns (chosen: Option<nat>)
    ensures chosen == Preferred(exts)
  {
    chosen := None;
    var i := 0;
    while i < |exts|
      invariant 0 <= i <= |exts|
      invariant forall k :: 0 <= k < i ==> exts[k] !in CaptionKinds
      invariant chosen == FirstOf(exts[..i], TextKinds)
    {
      if exts[i] in CaptionKinds {
        FirstOfAt(exts, CaptionKinds, i);
        return Some(i);
      }
      if exts[i] in TextKinds && chosen.None? {
        chosen := Some(i);
      }
      FirstOfStep(exts, TextKinds, i);
      i := i + 1;
    }
    assert exts[..i] == exts;
    assert FirstOf(exts, CaptionKinds).None?;
  }

  /** The transcript file find_transcript_for_recording picks among the listed files. */
  method ChooseTranscriptFile(files: seq<DriveFile>) returns (chosen: Option<nat>)
    ensures chosen == Preferred(Extensions(files))
  {
    chosen := ChoosePreferred(Extensions(files));
  }

  /**
   * find_transcript_for_recording after the list call: the chosen file's id
   * and parsed content, or None when the call failed, nothing was chosen,
   * or the download gave nothing truthy.
   */
  function FindTranscript(listing: Outcome<seq<DriveFile>>, download: string -> Option<string>): (r: Option<(string, string)>)
    ensures r.Some? ==> listing.Ok? && Preferred(Extensions(listing.value)).Some?
    ensures r.Some? ==> var f := listing.value[Preferred(Extensions(listing.value)).value];
      && r.value.0 == f.id
      && download(f.id).Some? && !IsEmpty(download(f.id).value)
      && r.value.1 == TranscriptText(download(f.id).value, Video.Extension(f.name.GetOr("")).GetOr(""))
    ensures listing.Ok? && Preferred(Extensions(listing.value)).Some? ==>
      var f := listing.value[Preferred(Extensions(listing.value)).value];
      download(f.id).Some? && !IsEmpty(download(f.id).value) ==> r.Some?
  {
    match listing
    case Raise(_) => None
    case Ok(files) =>
      match Preferred(Extensions(files))
      case None => None
      case Some(k) =>
        var f := files[k];
        match download(f.id)
        case None => None
        case Some(content) =>
          if IsEmpty(content) then None
          else Some((f.id, TranscriptText(content, Video.Extension(f.name.GetOr("")).GetOr(""))))
  }
}
