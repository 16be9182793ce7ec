/**
 * Turning a timed-text caption document into a plain-text transcript, with a
 * clock line each time a new minute begins (subtitle_extractor::parse_xml and
 * the identical parse_subtitle_xml of the command-line script).
 */
module Captions {
  import opened Wrappers
  import opened Php

  /**
   * One `<text start="…">` element of the caption XML: its start attribute in
   * whole seconds (the float attribute truncated; every use of it rounds down)
   * and its raw text content.
   */
  datatype CaptionNode = CaptionNode(start: nat, text: string)

  /** A line of the transcript: a clock line for the caption starting at `start`, or one caption. */
  datatype Line = Stamp(start: nat) | Caption(text: string)

  /** The caption text that is kept, or "" when the node is skipped (its trimmed text is PHP-empty). */
  predicate Kept(n: CaptionNode)
  {
    !IsEmpty(Trim(n.text))
  }

  function MinuteOf(n: CaptionNode): nat
  {
    n.start / 60
  }

  /** "M:SS" below one hour, "H:MM:SS" from one hour on. */
  function Clock(start: nat): (r: string)
    ensures |r| >= 4
  {
    var hours := start / 3600;
    var minutes := (start % 3600) / 60;
    var seconds := start % 60;
    if hours > 0 then NatToString(hours) + ":" + TwoDigits(minutes) + ":" + TwoDigits(seconds)
    else NatToString(minutes) + ":" + TwoDigits(seconds)
  }

  /** The seconds named by the colon-separated fields of a clock line: "M:SS" or "H:MM:SS". */
  function ClockValue(parts: seq<string>): Option<nat>
  {
    if |parts| == 2 && AllDigits(parts[0]) && AllDigits(parts[1]) then
      Some(ParseDigits(parts[0]) * 60 + ParseDigits(parts[1]))
    else if |parts| == 3 && AllDigits(parts[0]) && AllDigits(parts[1]) && AllDigits(parts[2]) then
      Some(ParseDigits(parts[0]) * 3600 + ParseDigits(parts[1]) * 60 + ParseDigits(parts[2]))
    else None
  }

  /** Reads a clock line back into seconds. */
  function ParseClock(s: string): Option<nat>
  {
    ClockValue(Split(s, ':'))
  }

  lemma {:induction false} ClockFields(start: nat)
    ensures start == (start / 3600) * 3600 + ((start % 3600) / 60) * 60 + start % 60
  {
  }

  lemma {:induction false} DigitsHaveNoColon(s: string)
    requires AllDigits(s)
    ensures ':' !in s
  {
  }

  lemma {:induction false} ParseClockFields(t: string, parts: seq<string>)
    requires Split(t, ':') == parts
    ensures ParseClock(t) == ClockValue(parts)
  {
  }

  lemma {:induction false} LongClockValue(hh: string, mm: string, ss: string)
    requires AllDigits(hh) && AllDigits(mm) && AllDigits(ss)
    ensures ClockValue([hh, mm, ss]) == Some(ParseDigits(hh) * 3600 + ParseDigits(mm) * 60 + ParseDigits(ss))
  {
  }

  lemma {:induction false} ShortClockValue(m: string, ss: string)
    requires AllDigits(m) && AllDigits(ss)
    ensures ClockValue([m, ss]) == Some(ParseDigits(m) * 60 + ParseDigits(ss))
  {
  }

  /** Three digit fields joined by colons split back into the three. */
  lemma {:induction false} SplitThree(hh: string, mm: string, ss: string)
    requires AllDigits(hh) && AllDigits(mm) && AllDigits(ss)
    ensures Split(hh + [':'] + (mm + [':'] + ss), ':') == [hh, mm, ss]
  {
    DigitsHaveNoColon(hh);
    DigitsHaveNoColon(mm);
    DigitsHaveNoColon(ss);
    var rest := mm + [':'] + ss;
    SplitAt(hh, rest, ':');
    SplitAt(mm, ss, ':');
    SplitWhole(ss, ':');
    assert Split(rest, ':') == [mm] + [ss];
  }

  lemma {:induction false} ParseLongClock(hours: nat, minutes: nat, seconds: nat)
    requires minutes < 60 && seconds < 60
    ensures ParseClock(NatToString(hours) + ":" + TwoDigits(minutes) + ":" + TwoDigits(seconds))
         == Some(hours * 3600 + minutes * 60 + seconds)
  {
    var hh, mm, ss := NatToString(hours), TwoDigits(minutes), TwoDigits(seconds);
    ParseNatToString(hours);
    TwoDigitsSpec(minutes);
    TwoDigitsSpec(seconds);
    var t := hh + [':'] + (mm + [':'] + ss);
    assert hh + ":" + mm + ":" + ss == t;
    assert ParseClock(t) == Some(ParseDigits(hh) * 3600 + ParseDigits(mm) * 60 + ParseDigits(ss)) by {
      SplitThree(hh, mm, ss);
      ParseClockFields(t, [hh, mm, ss]);
      LongClockValue(hh, mm, ss);
    }
    ParseNatToString(hours);
  }

  lemma {:induction false} ParseShortClock(minutes: nat, seconds: nat)
    requires seconds < 60
    ensures ParseClock(NatToString(minutes) + ":" + TwoDigits(seconds)) == Some(minutes * 60 + seconds)
  {
    var m, ss := NatToString(minutes), TwoDigits(seconds);
    ParseNatToString(minutes);
    TwoDigitsSpec(seconds);
    var t := m + [':'] + ss;
    assert m + ":" + ss == t;
    assert ParseClock(t) == Some(ParseDigits(m) * 60 + ParseDigits(ss)) by {
      DigitsHaveNoColon(m);
      DigitsHaveNoColon(ss);
      SplitAt(m, ss, ':');
      ParseClockFields(t, [m, ss]);
      ShortClockValue(m, ss);
    }
    ParseNatToString(minutes);
  }

  /** A clock line names exactly the second its caption starts at. */
  lemma {:induction false} ClockRoundTrip(start: nat)
    ensures ParseClock(Clock(start)) == Some(start)
  {
    var h, m, s := start / 3600, (start % 3600) / 60, start % 60;
    assert start == h * 3600 + m * 60 + s by { ClockFields(start); }
    if h > 0 {
      var t := NatToString(h) + ":" + TwoDigits(m) + ":" + TwoDigits(s);
      assert Clock(start) == t;
      assert ParseClock(t) == Some(h * 3600 + m * 60 + s) by { ParseLongClock(h, m, s); }
    } else {
      var t := NatToString(m) + ":" + TwoDigits(s);
      assert Clock(start) == t;
      assert ParseClock(t) == Some(m * 60 + s) by { ParseShortClock(m, s); }
    }
  }

  /** The lines one caption node adds, given the last minute that already has a clock line. */
  function Chunk(n: CaptionNode, lastMinute: int, decode: string -> string): seq<Line>
  {
    if !Kept(n) then []
    else if MinuteOf(n) > lastMinute then [Stamp(n.start), Caption(decode(Trim(n.text)))]
    else [Caption(decode(Trim(n.text)))]
  }

  /** The last minute with a clock line after node `n`. */
  function NextMinute(n: CaptionNode, lastMinute: int): int
  {
    if Kept(n) && MinuteOf(n) > lastMinute then MinuteOf(n) else lastMinute
  }

  /**
   * The transcript lines for the nodes, given the last minute that already
   * has a clock line (-1 before the first).
   */
  function Entries(nodes: seq<CaptionNode>, lastMinute: int, decode: string -> string): seq<Line>
  {
    if nodes == [] then []
    else Chunk(nodes[0], lastMinute, decode) + Entries(nodes[1..], NextMinute(nodes[0], lastMinute), decode)
  }

  function RenderLine(l: Line): string
  {
    match l
    case Stamp(start) => Clock(start)
    case Caption(text) => text
  }

  function RenderAll(ls: seq<Line>): (r: seq<string>)
    ensures |r| == |ls|
  {
    if ls == [] then [] else [RenderLine(ls[0])] + RenderAll(ls[1..])
  }

  /** Every line is rendered in place. */
  lemma {:induction false} RenderAllAt(ls: seq<Line>)
    ensures forall k :: 0 <= k < |ls| ==> RenderAll(ls)[k] == RenderLine(ls[k])
  {
    if ls != [] {
      RenderAllAt(ls[1..]);
      assert forall k :: 1 <= k < |ls| ==> RenderAll(ls)[k] == RenderAll(ls[1..])[k - 1];
    }
  }

  lemma {:induction false} RenderAllAppend(a: seq<Line>, b: seq<Line>)
    ensures RenderAll(a + b) == RenderAll(a) + RenderAll(b)
    decreases |a|
  {
    if a == [] {
      assert a + b == b;
    } else {
      assert (a + b)[1..] == a[1..] + b;
      RenderAllAppend(a[1..], b);
    }
  }

  /** The transcript of a caption document; a document that does not parse gives "". */
  function Transcript(doc: Option<seq<CaptionNode>>, decode: string -> string): (r: string)
    ensures doc.None? || doc == Some([]) ==> r == ""
    ensures doc.Some? && doc.value != [] && Kept(doc.value[0]) ==> |r| >= |Clock(doc.value[0].start)|
  {
    match doc
    case None => ""
    case Some(nodes) =>
      var parts := RenderAll(Entries(nodes, -1, decode));
      assert nodes != [] && Kept(nodes[0]) ==> parts != [] && parts[0] == Clock(nodes[0].start) by {
        if nodes != [] && Kept(nodes[0]) {
          assert Entries(nodes, -1, decode)[0] == Stamp(nodes[0].start);
        }
      }
      Join(parts, "\n")
  }

  /** The lines written for the first `i` nodes, in the order the loop writes them. */
  function LinesBefore(nodes: seq<CaptionNode>, i: nat, decode: string -> string): seq<Line>
    requires i <= |nodes|
  {
    if i == 0 then []
    else LinesBefore(nodes, i - 1, decode) + Chunk(nodes[i - 1], MinuteBefore(nodes, i - 1), decode)
  }

  /** The last minute with a clock line once the first `i` nodes are handled. */
  function MinuteBefore(nodes: seq<CaptionNode>, i: nat): int
    requires i <= |nodes|
  {
    if i == 0 then -1 else NextMinute(nodes[i - 1], MinuteBefore(nodes, i - 1))
  }

  /** Handling the nodes one by one from the front builds the same lines as Entries. */
  lemma {:induction false} LinesBeforeThenEntries(nodes: seq<CaptionNode>, i: nat, decode: string -> string)
    requires i <= |nodes|
    ensures LinesBefore(nodes, i, decode) + Entries(nodes[i..], MinuteBefore(nodes, i), decode)
         == Entries(nodes, -1, decode)
  {
    if i == 0 {
      assert nodes[0..] == nodes;
    } else {
      var m := MinuteBefore(nodes, i - 1);
      LinesBeforeThenEntries(nodes, i - 1, decode);
      EntriesStep(nodes, i - 1, m, decode);
      Regroup(LinesBefore(nodes, i, decode), LinesBefore(nodes, i - 1, decode),
        Chunk(nodes[i - 1], m, decode), Entries(nodes[i..], MinuteBefore(nodes, i), decode),
        Entries(nodes[i - 1..], m, decode), Entries(nodes, -1, decode));
    }
  }

  lemma Regroup(whole: seq<Line>, pre: seq<Line>, c: seq<Line>, rest: seq<Line>, tail: seq<Line>, all: seq<Line>)
    requires whole == pre + c && tail == c + rest && pre + tail == all
    ensures whole + rest == all
  {
  }

  lemma {:induction false} EntriesStep(nodes: seq<CaptionNode>, j: nat, lastMinute: int, decode: string -> string)
    requires j < |nodes|
    ensures Entries(nodes[j..], lastMinute, decode)
         == Chunk(nodes[j], lastMinute, decode) + Entries(nodes[j + 1..], NextMinute(nodes[j], lastMinute), decode)
  {
    assert nodes[j..][0] == nodes[j];
    assert nodes[j..][1..] == nodes[j + 1..];
  }

  lemma {:induction false} AllLines(nodes: seq<CaptionNode>, decode: string -> string)
    ensures LinesBefore(nodes, |nodes|, decode) == Entries(nodes, -1, decode)
  {
    LinesBeforeThenEntries(nodes, |nodes|, decode);
    assert nodes[|nodes|..] == [];
  }

  lemma {:induction false} ChunkLines(n: CaptionNode, lastMinute: int, decode: string -> string)
    ensures RenderAll(Chunk(n, lastMinute, decode))
         == if !Kept(n) then []
            else if MinuteOf(n) > lastMinute then [Clock(n.start), decode(Trim(n.text))]
            else [decode(Trim(n.text))]
  {
    var c := Chunk(n, lastMinute, decode);
    if Kept(n) && MinuteOf(n) > lastMinute {
      assert c[1..] == [c[1]];
    }
  }

  /** One pass of the loop body: the lines for one text node, and the new last minute. */
  method AddNode(lines: seq<string>, lastMinute: int, node: CaptionNode, decode: string -> string)
    returns (lines': seq<string>, lastMinute': int)
    ensures lines' == lines + RenderAll(Chunk(node, lastMinute, decode))
    ensures lastMinute' == NextMinute(node, lastMinute)
  {
    ChunkLines(node, lastMinute, decode);
    lines', lastMinute' := lines, lastMinute;
    var text := Trim(node.text);
    if !IsEmpty(text) {
      var currentMinute := node.start / 60;
      if currentMinute > lastMinute {
        lines' := lines' + [Clock(node.start)];
        lastMinute' := currentMinute;
      }
      lines' := lines' + [decode(text)];
    }
  }

  /** Builds the transcript line by line, as the source's loop over the text nodes does. */
  method ParseXml(doc: Option<seq<CaptionNode>>, decode: string -> string) returns (transcript: string)
    ensures transcript == Transcript(doc, decode)
  {
    if doc.None? {
      return "";
    }
    var nodes := doc.value;
    var lines: seq<string> := [];
    var lastMinute := -1;
    var i := 0;
    while i < |nodes|
      invariant 0 <= i <= |nodes|
      invariant lines == RenderAll(LinesBefore(nodes, i, decode))
      invariant lastMinute == MinuteBefore(nodes, i)
    {
      RenderAllAppend(LinesBefore(nodes, i, decode), Chunk(nodes[i], lastMinute, decode));
      lines, lastMinute := AddNode(lines, lastMinute, nodes[i], decode);
      i := i + 1;
    }
    AllLines(nodes, decode);
    transcript := Join(lines, "\n");
  }

  // ---- properties of the transcript ----

  function CaptionTexts(ls: seq<Line>): seq<string>
  {
    if ls == [] then []
    else if ls[0].Caption? then [ls[0].text] + CaptionTexts(ls[1..])
    else CaptionTexts(ls[1..])
  }

  function StampMinutes(ls: seq<Line>): seq<nat>
  {
    if ls == [] then []
    else if ls[0].Stamp? then [ls[0].start / 60] + StampMinutes(ls[1..])
    else StampMinutes(ls[1..])
  }

  lemma {:induction false} CaptionTextsAppend(a: seq<Line>, b: seq<Line>)
    ensures CaptionTexts(a + b) == CaptionTexts(a) + CaptionTexts(b)
    decreases |a|
  {
    if a != [] {
      assert (a + b)[1..] == a[1..] + b;
      CaptionTextsAppend(a[1..], b);
    } else {
      assert a + b == b;
    }
  }

  lemma {:induction false} StampMinutesAppend(a: seq<Line>, b: seq<Line>)
    ensures StampMinutes(a + b) == StampMinutes(a) + StampMinutes(b)
    decreases |a|
  {
    if a != [] {
      assert (a + b)[1..] == a[1..] + b;
      StampMinutesAppend(a[1..], b);
    } else {
      assert a + b == b;
    }
  }

  /** The decoded, trimmed texts of the kept nodes, in document order. */
  function KeptTexts(nodes: seq<CaptionNode>, decode: string -> string): seq<string>
  {
    if nodes == [] then []
    else if Kept(nodes[0]) then [decode(Trim(nodes[0].text))] + KeptTexts(nodes[1..], decode)
    else KeptTexts(nodes[1..], decode)
  }

  /** Every caption whose trimmed text is not PHP-empty appears once, in order; nothing else does. */
  lemma {:induction false} CaptionsInOrder(nodes: seq<CaptionNode>, lastMinute: int, decode: string -> string)
    ensures CaptionTexts(Entries(nodes, lastMinute, decode)) == KeptTexts(nodes, decode)
    decreases |nodes|
  {
    if nodes != [] {
      var n := nodes[0];
      var chunk := Chunk(n, lastMinute, decode);
      var rest := Entries(nodes[1..], NextMinute(n, lastMinute), decode);
      CaptionTextsAppend(chunk, rest);
      CaptionsInOrder(nodes[1..], NextMinute(n, lastMinute), decode);
      if Kept(n) && MinuteOf(n) > lastMinute {
        assert chunk[1..] == [chunk[1]];
      }
    }
  }

  predicate StrictlyIncreasingAbove(ms: seq<nat>, low: int)
  {
    (forall i :: 0 <= i < |ms| ==> low < ms[i])
    && forall i, j :: 0 <= i < j < |ms| ==> ms[i] < ms[j]
  }

  /** Clock lines name strictly increasing minutes, all after the last one already written. */
  lemma {:induction false} StampsIncrease(nodes: seq<CaptionNode>, lastMinute: int, decode: string -> string)
    ensures StrictlyIncreasingAbove(StampMinutes(Entries(nodes, lastMinute, decode)), lastMinute)
    decreases |nodes|
  {
    if nodes != [] {
      var n := nodes[0];
      var next := NextMinute(n, lastMinute);
      var chunk := Chunk(n, lastMinute, decode);
      var rest := Entries(nodes[1..], next, decode);
      StampMinutesAppend(chunk, rest);
      StampsIncrease(nodes[1..], next, decode);
      if Kept(n) && MinuteOf(n) > lastMinute {
        assert chunk[1..] == [chunk[1]];
        assert StampMinutes(chunk) == [MinuteOf(n)];
      } else {
        assert StampMinutes(chunk) == [];
      }
    }
  }

  predicate StartsAscending(nodes: seq<CaptionNode>)
  {
    forall i, j :: 0 <= i < j < |nodes| ==> nodes[i].start <= nodes[j].start
  }

  /** The minutes in which some kept caption starts, above `low`. */
  function KeptMinutesAbove(nodes: seq<CaptionNode>, low: int): set<nat>
  {
    set i | 0 <= i < |nodes| && Kept(nodes[i]) && MinuteOf(nodes[i]) > low :: MinuteOf(nodes[i])
  }

  lemma {:induction false} KeptMinutesSplit(nodes: seq<CaptionNode>, lastMinute: int)
    requires nodes != [] && StartsAscending(nodes)
    ensures KeptMinutesAbove(nodes, lastMinute)
         == (if Kept(nodes[0]) && MinuteOf(nodes[0]) > lastMinute then {MinuteOf(nodes[0])} else {})
            + KeptMinutesAbove(nodes[1..], NextMinute(nodes[0], lastMinute))
  {
    var n, tail := nodes[0], nodes[1..];
    var next := NextMinute(n, lastMinute);
    var here: set<nat> := if Kept(n) && MinuteOf(n) > lastMinute then {MinuteOf(n)} else {};
    forall m | m in KeptMinutesAbove(nodes, lastMinute)
      ensures m in here + KeptMinutesAbove(tail, next)
    {
      var i :| 0 <= i < |nodes| && Kept(nodes[i]) && MinuteOf(nodes[i]) > lastMinute && MinuteOf(nodes[i]) == m;
      if i > 0 && m !in here {
        assert tail[i - 1] == nodes[i];
        assert nodes[0].start <= nodes[i].start;
      }
    }
    forall m | m in here + KeptMinutesAbove(tail, next)
      ensures m in KeptMinutesAbove(nodes, lastMinute)
    {
      if m !in here {
        var i :| 0 <= i < |tail| && Kept(tail[i]) && MinuteOf(tail[i]) > next && MinuteOf(tail[i]) == m;
        assert nodes[i + 1] == tail[i];
      }
    }
  }

  /**
   * For captions in time order, there is exactly one clock line for each
   * minute in which some kept caption starts.
   */
  lemma {:induction false} OneStampPerMinute(nodes: seq<CaptionNode>, lastMinute: int, decode: string -> string)
    requires StartsAscending(nodes)
    ensures (set m | m in StampMinutes(Entries(nodes, lastMinute, decode))) == KeptMinutesAbove(nodes, lastMinute)
    decreases |nodes|
  {
    if nodes != [] {
      var n := nodes[0];
      var next := NextMinute(n, lastMinute);
      var chunk := Chunk(n, lastMinute, decode);
      var rest := Entries(nodes[1..], next, decode);
      StampMinutesAppend(chunk, rest);
      assert StartsAscending(nodes[1..]);
      OneStampPerMinute(nodes[1..], next, decode);
      KeptMinutesSplit(nodes, lastMinute);
      if Kept(n) && MinuteOf(n) > lastMinute {
        assert chunk[1..] == [chunk[1]];
        assert StampMinutes(chunk) == [MinuteOf(n)];
      } else {
        assert StampMinutes(chunk) == [];
      }
    }
  }

  /** The text nodes of the worked example: two captions in minute 1 (one padded), a blank one, one in minute 2. */
  function ExampleNodes(): seq<CaptionNode>
  {
    [CaptionNode(65, "a"), CaptionNode(66, " b "), CaptionNode(70, " "), CaptionNode(125, "c")]
  }

  lemma {:induction false} ExampleEntries(decode: string -> string)
    requires decode("a") == "a" && decode("b") == "b" && decode("c") == "c"
    ensures Entries(ExampleNodes(), -1, decode)
         == [Stamp(65), Caption("a"), Caption("b"), Stamp(125), Caption("c")]
  {
    var nodes := ExampleNodes();
    var n0, n1, n2, n3 := nodes[0], nodes[1], nodes[2], nodes[3];
    assert Trim(" b ") == "b" by {
      assert TrimLeft(" b ") == "b ";
      assert TrimRight("b ") == "b";
    }
    assert Trim(" ") == "" by {
      assert TrimLeft(" ") == "";
    }
    assert Chunk(n3, 1, decode) == [Stamp(125), Caption("c")];
    assert Entries([n3], 1, decode) == [Stamp(125), Caption("c")];
    assert Chunk(n2, 1, decode) == [];
    assert Entries([n2, n3], 1, decode) == [Stamp(125), Caption("c")] by { assert [n2, n3][1..] == [n3]; }
    assert Chunk(n1, 1, decode) == [Caption("b")];
    assert Entries([n1, n2, n3], 1, decode) == [Caption("b"), Stamp(125), Caption("c")] by {
      assert [n1, n2, n3][1..] == [n2, n3];
    }
    assert Chunk(n0, -1, decode) == [Stamp(65), Caption("a")];
    assert nodes[1..] == [n1, n2, n3];
  }

  lemma {:induction false} ExampleLines()
    ensures RenderAll([Stamp(65), Caption("a"), Caption("b"), Stamp(125), Caption("c")])
         == ["1:05", "a", "b", "2:05", "c"]
  {
    var ls := [Stamp(65), Caption("a"), Caption("b"), Stamp(125), Caption("c")];
    assert Clock(65) == "1:05" && Clock(125) == "2:05";
    RenderAllAt(ls);
  }

  /** The worked example end to end: one clock line per minute, the blank caption dropped, padding trimmed. */
  lemma {:induction false} ExampleTranscript()
    ensures Transcript(Some(ExampleNodes()), s => s) == "1:05\na\nb\n2:05\nc"
  {
    ExampleEntries(s => s);
    ExampleLines();
    ExampleJoin();
  }

  lemma {:induction false} ExampleJoin()
    ensures Join(["1:05", "a", "b", "2:05", "c"], "\n") == "1:05\na\nb\n2:05\nc"
  {
    var lines := ["1:05", "a", "b", "2:05", "c"];
    assert lines[1..] == ["a", "b", "2:05", "c"];
    assert lines[1..][1..] == ["b", "2:05", "c"];
    assert lines[1..][1..][1..] == ["2:05", "c"];
    assert lines[1..][1..][1..][1..] == ["c"];
    assert Join(["2:05", "c"], "\n") == "2:05\nc";
    assert Join(["b", "2:05", "c"], "\n") == "b\n2:05\nc";
    assert Join(["a", "b", "2:05", "c"], "\n") == "a\nb\n2:05\nc";
  }
}
