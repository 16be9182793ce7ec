/**
 * The text forms of the manual analysis editor in classes/external.php
 * (save_ai_analysis): key points are entered one per line, possibly behind a
 * bullet, and topics as a comma- or newline-separated list. The stored lists
 * are what these parsers make of the text.
 */
module AnalysisText {
  import opened Wrappers
  import opened Php

  /** No item is empty in PHP's sense, so no blank entry is ever stored. */
  predicate NoEmpty(items: seq<string>)
  {
    forall k :: 0 <= k < |items| ==> !IsEmpty(items[k])
  }

  /** The items the pieces yield, in order: each piece contributes what `f` makes of it. */
  function Gather(pieces: seq<string>, f: string -> seq<string>): seq<string>
  {
    if pieces == [] then []
    else
      var n := |pieces| - 1;
      Gather(pieces[..n], f) + f(pieces[n])
  }

  /** When no piece yields an empty item, nothing gathered is empty. */
  lemma {:induction false} GatherNoEmpty(pieces: seq<string>, f: string -> seq<string>)
    requires forall k :: 0 <= k < |pieces| ==> NoEmpty(f(pieces[k]))
    ensures NoEmpty(Gather(pieces, f))
  {
    if pieces != [] {
      var n := |pieces| - 1;
      GatherNoEmpty(pieces[..n], f);
      assert forall k :: 0 <= k < n ==> pieces[..n][k] == pieces[k];
      var g := Gather(pieces[..n], f);
      var r := g + f(pieces[n]);
      forall k | 0 <= k < |r| ensures !IsEmpty(r[k]) {
        if k >= |g| {
          assert r[k] == f(pieces[n])[k - |g|];
        }
      }
    }
  }

  /** When each piece yields exactly its item, the pieces yield the items. */
  lemma {:induction false} GatherEach(pieces: seq<string>, items: seq<string>, f: string -> seq<string>)
    requires |pieces| == |items| && forall k :: 0 <= k < |pieces| ==> f(pieces[k]) == [items[k]]
    ensures Gather(pieces, f) == items
  {
    if pieces != [] {
      var n := |pieces| - 1;
      assert forall k :: 0 <= k < n ==> pieces[..n][k] == pieces[k] && items[..n][k] == items[k];
      GatherEach(pieces[..n], items[..n], f);
      assert items == items[..n] + [items[n]];
    }
  }

  /**
   * The bytes of the bullet class `[\-\*\â€¢\d\.]` as the file holds it: the
   * bullet was saved doubly encoded, so the class holds C3 A2 E2 82 AC C2 A2
   * besides '-', '*', the digits and '.'.
   */
  predicate IsBulletAsWritten(c: char)
  {
    c == '-' || c == '*' || c == '.' || IsDigit(c)
    || c == '\U{C3}' || c == '\U{A2}' || c == '\U{E2}' || c == '\U{82}' || c == '\U{AC}' || c == '\U{C2}'
  }

  /** The class as evidently intended: '-', '*', the digits, '.' and the bytes of the UTF-8 bullet E2 80 A2. */
  predicate IsBullet(c: char)
  {
    c == '-' || c == '*' || c == '.' || IsDigit(c) || c == '\U{E2}' || c == '\U{80}' || c == '\U{A2}'
  }

  /** The UTF-8 encoding of the bullet U+2022. */
  const Bullet: string := "\U{E2}\U{80}\U{A2}"

  /** The length of the leading run of class bytes. */
  function BulletRun(s: string, bullet: char -> bool): (n: nat)
    ensures n <= |s| && forall i :: 0 <= i < n ==> bullet(s[i])
    ensures n < |s| ==> !bullet(s[n])
  {
    if s != [] && bullet(s[0]) then 1 + BulletRun(s[1..], bullet) else 0
  }

  /** preg_replace('/^[class]+\s*\/', '', line): a leading run of class bytes and the spaces after it removed. */
  function StripBullets(line: string, bullet: char -> bool): (r: string)
    ensures |r| <= |line| && r == line[|line| - |r|..]
    ensures line != [] && !bullet(line[0]) ==> r == line
  {
    var n := BulletRun(line, bullet);
    if n == 0 then line else SkipSpaces(line[n..])
  }

  /** What one line of the key-point text contributes: nothing, or the line trimmed and stripped of its bullet. */
  function KeyPoint(raw: string, bullet: char -> bool): (r: seq<string>)
    ensures |r| <= 1 && NoEmpty(r)
  {
    var line := Trim(raw);
    if IsEmpty(line) then []
    else
      var stripped := StripBullets(line, bullet);
      if IsEmpty(stripped) then [] else [stripped]
  }

  /** KeyPoint for one bullet class, as a function of the line. */
  function KeyPointOf(bullet: char -> bool): (f: string -> seq<string>)
    ensures forall raw :: f(raw) == KeyPoint(raw, bullet)
  {
    raw => KeyPoint(raw, bullet)
  }

  /** The key points save_ai_analysis stores for the text: one per line, none of them empty. */
  function KeyPoints(text: string, bullet: char -> bool): (r: seq<string>)
    ensures NoEmpty(r)
  {
    if IsEmpty(text) then []
    else
      var lines := Split(text, '\n');
      GatherNoEmpty(lines, KeyPointOf(bullet));
      Gather(lines, KeyPointOf(bullet))
  }

  /** The key-point loop of save_ai_analysis. */
  method ParseKeyPoints(text: string, bullet: char -> bool) returns (points: seq<string>)
    ensures points == KeyPoints(text, bullet)
  {
    points := [];
    if !IsEmpty(text) {
      var lines := Split(text, '\n');
      for i := 0 to |lines|
        invariant points == Gather(lines[..i], KeyPointOf(bullet))
      {
        assert lines[..i + 1][..i] == lines[..i];
        assert Gather(lines[..i + 1], KeyPointOf(bullet)) == points + KeyPoint(lines[i], bullet);
        var line := Trim(lines[i]);
        if !IsEmpty(line) {
          line := StripBullets(line, bullet);
          if !IsEmpty(line) {
            points := points + [line];
          }
        }
      }
      assert lines[..|lines|] == lines;
    }
  }

  /** A key point as the editor shows it: trimmed, not empty, on one line, and not starting with a bullet or a space. */
  predicate CleanPoint(p: string, bullet: char -> bool)
  {
    Trim(p) == p && !IsEmpty(p) && '\n' !in p && !bullet(p[0]) && !IsRegexSpace(p[0])
  }

  /** A bullet class that holds neither the space nor any byte trim() removes. */
  predicate BulletClass(bullet: char -> bool)
  {
    !bullet(' ') && forall c :: bullet(c) ==> !IsTrimmable(c)
  }

  /** Both the class as written and the class as intended are such classes. */
  lemma {:induction false} BulletClasses()
    ensures BulletClass(IsBullet) && BulletClass(IsBulletAsWritten)
  {
  }

  /** A clean point behind a run of bullet bytes and a space comes out as the point. */
  lemma {:induction false} MarkedPointKept(marker: string, p: string, bullet: char -> bool)
    requires BulletClass(bullet)
    requires marker != [] && forall i :: 0 <= i < |marker| ==> bullet(marker[i])
    requires CleanPoint(p, bullet)
    ensures KeyPoint(marker + " " + p, bullet) == [p]
  {
    var line := marker + " " + p;
    TrimSpec(p);
    assert line[0] == marker[0] && bullet(line[0]);
    assert line[|line| - 1] == p[|p| - 1];
    TrimKeeps(line);
    assert line == marker + (" " + p);
    BulletRunOver(marker, " " + p, bullet);
    assert line[|marker|..] == " " + p;
    assert (" " + p)[1..] == p;
    SkipSpacesNone(p);
  }

  /** Text that TrimLeft and TrimRight leave alone at both ends is its own trim. */
  lemma {:induction false} TrimKeeps(s: string)
    requires s != [] && !IsTrimmable(s[0]) && !IsTrimmable(s[|s| - 1])
    ensures Trim(s) == s
  {
  }

  /** A leading run of class bytes followed by a byte outside the class has the run's length. */
  lemma {:induction false} BulletRunOver(marker: string, rest: string, bullet: char -> bool)
    requires forall i :: 0 <= i < |marker| ==> bullet(marker[i])
    requires rest != [] && !bullet(rest[0])
    ensures BulletRun(marker + rest, bullet) == |marker|
    decreases |marker|
  {
    if marker != [] {
      assert (marker + rest)[1..] == marker[1..] + rest;
      BulletRunOver(marker[1..], rest, bullet);
    } else {
      assert marker + rest == rest;
    }
  }

  /** Text that does not start with a space is untouched by `\s*`. */
  lemma {:induction false} SkipSpacesNone(s: string)
    requires s == [] || !IsRegexSpace(s[0])
    ensures SkipSpaces(s) == s
  {
  }

  /** A clean point alone on its line comes out as it is. */
  lemma {:induction false} CleanPointKept(p: string, bullet: char -> bool)
    requires CleanPoint(p, bullet)
    ensures KeyPoint(p, bullet) == [p]
  {
    TrimSpec(p);
    assert BulletRun(p, bullet) == 0;
  }

  /** Splitting text joined with line feeds gives back the lines. */
  lemma {:induction false} SplitJoinLines(lines: seq<string>)
    requires lines != [] && forall k :: 0 <= k < |lines| ==> '\n' !in lines[k]
    ensures Split(Join(lines, "\n"), '\n') == lines
    decreases |lines|
  {
    if |lines| > 1 {
      SplitJoinLines(lines[1..]);
      assert Join(lines, "\n") == lines[0] + ['\n'] + Join(lines[1..], "\n");
      SplitAt(lines[0], Join(lines[1..], "\n"), '\n');
      assert lines == [lines[0]] + lines[1..];
    }
  }

  /** Editing the stored key points as one point per line and saving gives them back. */
  lemma {:induction false} KeyPointsRoundTrip(points: seq<string>, bullet: char -> bool)
    requires forall k :: 0 <= k < |points| ==> CleanPoint(points[k], bullet)
    ensures KeyPoints(Join(points, "\n"), bullet) == points
  {
    if points != [] {
      var text := Join(points, "\n");
      if |points| > 1 {
        assert text == points[0] + "\n" + Join(points[1..], "\n");
        assert |text| >= 2;
      }
      assert !IsEmpty(text);
      SplitJoinLines(points);
      forall k | 0 <= k < |points| ensures KeyPointOf(bullet)(points[k]) == [points[k]] {
        CleanPointKept(points[k], bullet);
      }
      GatherEach(points, points, KeyPointOf(bullet));
    }
  }

  /** As written, a point behind a real bullet keeps two stray bytes of it: only the bullet's first byte is in the class. */
  lemma {:induction false} BulletAsWrittenLeavesBytes(p: string)
    requires CleanPoint(p, IsBulletAsWritten)
    ensures KeyPoint(Bullet + " " + p, IsBulletAsWritten) == ["\U{80}\U{A2} " + p]
  {
    var rest := "\U{80}\U{A2} " + p;
    var line := Bullet + " " + p;
    assert line == "\U{E2}" + rest;
    TrimSpec(p);
    assert line[0] == '\U{E2}' && line[|line| - 1] == p[|p| - 1];
    TrimKeeps(line);
    StripAfterRun("\U{E2}", rest, IsBulletAsWritten);
  }

  /** A run of class bytes before text that starts with neither a class byte nor a space is stripped off. */
  lemma {:induction false} StripAfterRun(marker: string, rest: string, bullet: char -> bool)
    requires marker != [] && forall i :: 0 <= i < |marker| ==> bullet(marker[i])
    requires rest != [] && !bullet(rest[0]) && !IsRegexSpace(rest[0])
    ensures StripBullets(marker + rest, bullet) == rest
  {
    BulletRunOver(marker, rest, bullet);
    assert (marker + rest)[|marker|..] == rest;
    SkipSpacesNone(rest);
  }

  /** With the class as intended, a point behind a bullet comes out as the point. */
  lemma {:induction false} BulletStripped(p: string)
    requires CleanPoint(p, IsBullet)
    ensures KeyPoint(Bullet + " " + p, IsBullet) == [p]
  {
    BulletClasses();
    MarkedPointKept(Bullet, p, IsBullet);
  }

  /** The separators of the topic list: `[,\n]`. */
  predicate IsTopicSeparator(c: char)
  {
    c == ',' || c == '\n'
  }

  /** The first separator of the text, if any. */
  function FirstSeparator(s: string): (r: Option<nat>)
    ensures r.Some? ==> r.value < |s| && IsTopicSeparator(s[r.value])
    ensures r.Some? ==> forall j :: 0 <= j < r.value ==> !IsTopicSeparator(s[j])
    ensures r.None? ==> forall j :: 0 <= j < |s| ==> !IsTopicSeparator(s[j])
  {
    if s == [] then None
    else if IsTopicSeparator(s[0]) then Some(0)
    else
      match FirstSeparator(s[1..])
      case None => None
      case Some(j) => Some(j + 1)
  }

  /** The end of the run of separators starting at i. */
  function RunEnd(s: string, i: nat): (j: nat)
    requires i <= |s|
    ensures i <= j <= |s| && forall k :: i <= k < j ==> IsTopicSeparator(s[k])
    ensures j < |s| ==> !IsTopicSeparator(s[j])
    decreases |s| - i
  {
    if i < |s| && IsTopicSeparator(s[i]) then RunEnd(s, i + 1) else i
  }

  /** preg_split('/[,\n]+/', s): the pieces between runs of separators, empty ones at the ends kept. */
  function SplitRuns(s: string): (pieces: seq<string>)
    ensures |pieces| >= 1
    ensures forall k, j :: 0 <= k < |pieces| && 0 <= j < |pieces[k]| ==> !IsTopicSeparator(pieces[k][j])
    decreases |s|
  {
    match FirstSeparator(s)
    case None => [s]
    case Some(i) => [s[..i]] + SplitRuns(s[RunEnd(s, i)..])
  }

  /** What one piece of the topic text contributes: its trim, unless PHP-empty. */
  function Topic(piece: string): (r: seq<string>)
    ensures |r| <= 1 && NoEmpty(r)
  {
    var item := Trim(piece);
    if IsEmpty(item) then [] else [item]
  }

  /** The topics save_ai_analysis stores for the text (comma or newline separated), none of them empty. */
  function Topics(text: string): (r: seq<string>)
    ensures NoEmpty(r)
  {
    if IsEmpty(text) then []
    else
      var items := SplitRuns(text);
      GatherNoEmpty(items, Topic);
      Gather(items, Topic)
  }

  /** The topic loop of save_ai_analysis. */
  method ParseTopics(text: string) returns (topics: seq<string>)
    ensures topics == Topics(text)
  {
    topics := [];
    if !IsEmpty(text) {
      var items := SplitRuns(text);
      for i := 0 to |items|
        invariant topics == Gather(items[..i], Topic)
      {
        assert items[..i + 1][..i] == items[..i];
        var item := Trim(items[i]);
        if !IsEmpty(item) {
          topics := topics + [item];
        }
      }
      assert items[..|items|] == items;
    }
  }

  /** A topic as the editor shows it: trimmed, not empty, and free of separators. */
  predicate CleanTopic(t: string)
  {
    Trim(t) == t && !IsEmpty(t) && forall j :: 0 <= j < |t| ==> !IsTopicSeparator(t[j])
  }

  /** A piece without separators followed by a single comma and text not starting with a separator. */
  lemma {:induction false} SplitRunsAt(a: string, b: string)
    requires forall j :: 0 <= j < |a| ==> !IsTopicSeparator(a[j])
    requires b == [] || !IsTopicSeparator(b[0])
    ensures SplitRuns(a + "," + b) == [a] + SplitRuns(b)
  {
    var s := a + "," + b;
    assert s[|a|] == ',';
    assert forall j :: 0 <= j < |a| ==> s[j] == a[j];
    var i := FirstSeparator(s);
    assert i == Some(|a|);
    assert RunEnd(s, |a| + 1) == |a| + 1;
    assert s[..|a|] == a;
    assert s[|a| + 1..] == b;
  }

  /** Each topic after the first, behind the space of the ", " separator. */
  function Spaced(topics: seq<string>): (r: seq<string>)
    ensures |r| == |topics| && forall k :: 0 <= k < |topics| ==> r[k] == " " + topics[k]
  {
    seq(|topics|, k requires 0 <= k < |topics| => " " + topics[k])
  }

  /** The text after the first topic of a ", "-joined list: each further topic behind its separator. */
  function JoinedAfter(topics: seq<string>): (r: string)
    ensures topics == [] ==> r == ""
    ensures topics != [] ==> r == ", " + Join(topics, ", ")
  {
    if topics == [] then "" else ", " + Join(topics, ", ")
  }

  /** A further topic, then the rest of the list. */
  lemma {:induction false} JoinedAfterCons(topics: seq<string>)
    requires topics != []
    ensures JoinedAfter(topics) == ", " + topics[0] + JoinedAfter(topics[1..])
  {
    if |topics| > 1 {
      assert Join(topics, ", ") == topics[0] + ", " + Join(topics[1..], ", ");
    }
  }

  /** A clean topic behind a space still holds no separator. */
  lemma {:induction false} SpacedNoSeparator(t: string)
    requires CleanTopic(t)
    ensures forall j :: 0 <= j < |" " + t| ==> !IsTopicSeparator((" " + t)[j])
  {
    forall j | 0 <= j < |" " + t| ensures !IsTopicSeparator((" " + t)[j]) {
      if j > 0 { assert (" " + t)[j] == t[j - 1]; }
    }
  }

  /** The list behind a lead, with its first separator split off. */
  lemma {:induction false} LeadJoined(lead: string, topics: seq<string>)
    requires topics != []
    ensures lead + JoinedAfter(topics) == lead + "," + ((" " + topics[0]) + JoinedAfter(topics[1..]))
  {
    JoinedAfterCons(topics);
  }

  /** The first spaced topic, then the others. */
  lemma {:induction false} SpacedCons(topics: seq<string>)
    requires topics != []
    ensures Spaced(topics) == [" " + topics[0]] + Spaced(topics[1..])
  {
  }

  /** Topics joined with ", " behind a lead split into the lead and the others behind their space. */
  lemma {:induction false} SplitJoinTopics(lead: string, topics: seq<string>)
    requires forall j :: 0 <= j < |lead| ==> !IsTopicSeparator(lead[j])
    requires forall k :: 0 <= k < |topics| ==> CleanTopic(topics[k])
    ensures SplitRuns(lead + JoinedAfter(topics)) == [lead] + Spaced(topics)
    decreases |topics|
  {
    if topics == [] {
      assert lead + "" == lead;
      assert FirstSeparator(lead).None?;
    } else {
      var next := " " + topics[0];
      var tail := JoinedAfter(topics[1..]);
      SpacedNoSeparator(topics[0]);
      SplitJoinTopics(next, topics[1..]);
      LeadJoined(lead, topics);
      SplitRunsAt(lead, next + tail);
      SpacedCons(topics);
    }
  }

  /** Trimming a clean topic behind a space gives the topic. */
  lemma {:induction false} SpacedTopic(t: string)
    requires CleanTopic(t)
    ensures Topic(" " + t) == [t] && Topic(t) == [t]
  {
    TrimSpec(t);
    assert (" " + t)[1..] == t;
    assert TrimLeft(" " + t) == TrimLeft(t);
    TrimKeeps(t);
  }

  /** Editing the stored topics as a comma-separated list and saving gives them back. */
  lemma {:induction false} TopicsRoundTrip(topics: seq<string>)
    requires forall k :: 0 <= k < |topics| ==> CleanTopic(topics[k])
    ensures Topics(Join(topics, ", ")) == topics
  {
    if topics != [] {
      var text := Join(topics, ", ");
      JoinedHead(topics);
      SplitJoinTopics(topics[0], topics[1..]);
      var pieces := [topics[0]] + Spaced(topics[1..]);
      PiecesAreTopics(topics, pieces);
      GatherEach(pieces, topics, Topic);
      TopicsOfPieces(text, pieces, topics);
    }
  }

  /** The joined list is the first topic and then the others, and it is not PHP-empty. */
  lemma {:induction false} JoinedHead(topics: seq<string>)
    requires topics != [] && !IsEmpty(topics[0])
    ensures Join(topics, ", ") == topics[0] + JoinedAfter(topics[1..])
    ensures !IsEmpty(Join(topics, ", "))
  {
    JoinedAfterCons(topics);
    var text := Join(topics, ", ");
    if |topics| > 1 {
      assert |text| >= 2;
    }
  }

  /** Text that is not empty and splits into pieces that each give their topic gives the topics. */
  lemma {:induction false} TopicsOfPieces(text: string, pieces: seq<string>, topics: seq<string>)
    requires !IsEmpty(text) && SplitRuns(text) == pieces && Gather(pieces, Topic) == topics
    ensures Topics(text) == topics
  {
  }

  /** The first topic and the others behind their space each come out as the topic. */
  lemma {:induction false} PiecesAreTopics(topics: seq<string>, pieces: seq<string>)
    requires topics != [] && forall k :: 0 <= k < |topics| ==> CleanTopic(topics[k])
    requires pieces == [topics[0]] + Spaced(topics[1..])
    ensures |pieces| == |topics| && forall k :: 0 <= k < |pieces| ==> Topic(pieces[k]) == [topics[k]]
  {
    forall k | 0 <= k < |pieces| ensures Topic(pieces[k]) == [topics[k]] {
      if k == 0 {
        SpacedTopic(topics[0]);
      } else {
        var rest := topics[1..];
        assert pieces[k] == Spaced(rest)[k - 1] && rest[k - 1] == topics[k];
        SpacedTopic(topics[k]);
      }
    }
  }
}
