/**
 * The Gemini client (classes/gemini_client.php): the configuration gate, the
 * classification of an HTTP reply into a body or an exception, and the
 * reading of the model's answer into an analysis. The HTTP exchange and JSON
 * decoding are inputs: a reply record, and functions standing for json_decode
 * followed by the property lookups the code makes.
 */
module Gemini {
  import opened Wrappers
  import opened Php

  const DefaultModel: string := "gemini-1.5-flash"

  /** The plugin settings the client reads; a setting that is not set reads as "". */
  datatype Settings = Settings(enableAi: string, apiKey: string, aiModel: string)

  /** The client's three properties, fixed by the constructor. */
  datatype Client = Client(enabled: bool, apiKey: string, model: string)

  /** The constructor: `(bool)` of the enable flag, the key as stored, the model or its default. */
  function NewClient(s: Settings): (c: Client)
    ensures c.apiKey == s.apiKey
  {
    Client(!IsEmpty(s.enableAi), s.apiKey, if IsEmpty(s.aiModel) then DefaultModel else s.aiModel)
  }

  /** is_configured */
  predicate IsConfigured(c: Client)
  {
    c.enabled && !IsEmpty(c.apiKey)
  }

  /**
   * The client is configured exactly when AI is enabled and a key is set; the
   * model is the configured one, or gemini-1.5-flash when none is, never PHP-empty.
   */
  lemma {:induction false} NewClientSpec(s: Settings)
    ensures IsConfigured(NewClient(s)) <==> !IsEmpty(s.enableAi) && !IsEmpty(s.apiKey)
    ensures !IsEmpty(s.aiModel) ==> NewClient(s).model == s.aiModel
    ensures IsEmpty(s.aiModel) ==> NewClient(s).model == DefaultModel
    ensures !IsEmpty(NewClient(s).model)
  {
    assert DefaultModel[0] == 'g';
  }

  // ---- the HTTP exchange ----

  /**
   * What curl reports about one request: its error number and text, the
   * HTTP status (0 when none was received) and the body.
   */
  datatype Reply = Reply(errno: nat, curlError: string, httpCode: nat, body: string)

  /**
   * call_api after the request: the body of a 200 reply, else the first
   * applicable error. `errorMessage` reads `error.message` from a JSON body.
   */
  function CallApi(reply: Reply, errorMessage: string -> Option<string>): (r: Outcome<string>)
    ensures r.Ok? <==> reply.errno == 0 && reply.httpCode == 200
    ensures r.Ok? ==> r.value == reply.body
    ensures r.Raise? ==> r.exc.AiError?
  {
    if reply.errno != 0 then Raise(AiError("Connection error: " + reply.curlError))
    else if reply.httpCode == 0 then Raise(AiError("No response from API - check network connectivity"))
    else if reply.httpCode != 200 then
      Raise(AiError(errorMessage(reply.body).GetOr("HTTP error " + NatToString(reply.httpCode))))
    else Ok(reply.body)
  }

  /**
   * The checks are ordered: a transport error wins over everything, a
   * missing status over a bad one, and a bad status reports the API's own
   * message when it sent one.
   */
  lemma {:induction false} CallApiOrder(reply: Reply, errorMessage: string -> Option<string>)
    ensures reply.errno != 0 ==> CallApi(reply, errorMessage) == Raise(AiError("Connection error: " + reply.curlError))
    ensures reply.errno == 0 && reply.httpCode == 0 ==>
      CallApi(reply, errorMessage) == Raise(AiError("No response from API - check network connectivity"))
    ensures reply.errno == 0 && reply.httpCode !in {0, 200} && errorMessage(reply.body).Some? ==>
      CallApi(reply, errorMessage) == Raise(AiError(errorMessage(reply.body).value))
    ensures reply.errno == 0 && reply.httpCode !in {0, 200} && errorMessage(reply.body).None? ==>
      CallApi(reply, errorMessage).Raise? &&
      StartsWith(CallApi(reply, errorMessage).exc.detail, "HTTP error ")
  {
    if reply.errno == 0 && reply.httpCode !in {0, 200} && errorMessage(reply.body).None? {
      var d := "HTTP error " + NatToString(reply.httpCode);
      assert d[..|"HTTP error "|] == "HTTP error ";
    }
  }

  // ---- code fences ----

  /** The index just past the run of `\s` bytes starting at `i`. */
  function SkipSpace(s: string, i: nat): (j: nat)
    requires i <= |s|
    ensures i <= j <= |s|
    ensures forall k :: i <= k < j ==> IsRegexSpace(s[k])
    ensures j < |s| ==> !IsRegexSpace(s[j])
    decreases |s| - i
  {
    if i < |s| && IsRegexSpace(s[i]) then SkipSpace(s, i + 1) else i
  }

  /** `s` without its trailing `\s` bytes. */
  function TrimRightSpace(s: string): (r: string)
    ensures |r| <= |s| && r == s[..|r|]
    ensures forall k :: |r| <= k < |s| ==> IsRegexSpace(s[k])
    ensures r != [] ==> !IsRegexSpace(r[|r| - 1])
  {
    if s != [] && IsRegexSpace(s[|s| - 1]) then TrimRightSpace(s[..|s| - 1]) else s
  }

  const Fence: string := "```"

  /**
   * The capture of preg_match('/```(?:json)?\s*([\s\S]*?)\s*```/'). The
   * match can only start at the first fence: the bytes after it up to where
   * the body may begin are "json" and `\s`, which hold no backtick. The body
   * starts after the optional "json" and the `\s` run, ends at the first
   * fence after that, and loses its trailing `\s` to the lazy capture.
   */
  function FenceBody(text: string): (r: Option<string>)
  {
    match Find(text, Fence)
    case None => None
    case Some(i) =>
      var p := i + |Fence|;
      var p' := if OccursAt(text, "json", p) then p + 4 else p;
      var a := SkipSpace(text, p');
      match FindFrom(text, Fence, a)
      case None => None
      case Some(k) => Some(TrimRightSpace(text[a..k]))
  }

  /** The text with a fenced block replaced by its body, as parse_analysis_response does after trimming. */
  function Unfence(text: string): (r: string)
    ensures !Contains(text, Fence) ==> r == text
    ensures !Contains(r, Fence) || r == text
  {
    FenceBodySpec(text);
    match FenceBody(text)
    case Some(body) => body
    case None => text
  }

  /** A piece of text lying between `a` and the first fence from `a` holds no fence. */
  lemma {:induction false} NoFenceBefore(text: string, a: nat, k: nat, piece: string)
    requires a <= k <= |text| && FindFrom(text, Fence, a) == Some(k)
    requires a + |piece| <= k && piece == text[a..a + |piece|]
    ensures !Contains(piece, Fence)
  {
    forall j | 0 <= j <= |piece|
      ensures !OccursAt(piece, Fence, j)
    {
      if j + |Fence| <= |piece| {
        assert forall t :: j <= t < j + |Fence| ==> piece[t] == text[a + t];
        assert piece[j..j + |Fence|] == text[a + j..a + j + |Fence|];
        assert !OccursAt(text, Fence, a + j);
      }
    }
  }

  /** A fenced body holds no fence and starts and ends with a non-`\s` byte. */
  lemma {:induction false} FenceBodySpec(text: string)
    ensures !Contains(text, Fence) ==> FenceBody(text).None?
    ensures FenceBody(text).Some? ==> !Contains(FenceBody(text).value, Fence)
    ensures FenceBody(text).Some? && FenceBody(text).value != [] ==>
      !IsRegexSpace(FenceBody(text).value[0]) && !IsRegexSpace(FenceBody(text).value[|FenceBody(text).value| - 1])
  {
    if FenceBody(text).Some? {
      var i := Find(text, Fence).value;
      var p := i + |Fence|;
      var p' := if OccursAt(text, "json", p) then p + 4 else p;
      var a := SkipSpace(text, p');
      var k := FindFrom(text, Fence, a).value;
      var body := TrimRightSpace(text[a..k]);
      assert body == text[a..a + |body|];
      NoFenceBefore(text, a, k, body);
      if body != [] {
        assert body[0] == text[a];
      }
    }
  }

  /** Text without a fence is left alone, so unfencing twice is unfencing once. */
  lemma {:induction false} UnfenceIdempotent(text: string)
    ensures Unfence(Unfence(text)) == Unfence(text)
  {
    FenceBodySpec(text);
    FenceBodySpec(Unfence(text));
  }

  /** A run of `\s` bytes of length n from i, followed by the end or a non-`\s` byte, is skipped whole. */
  lemma {:induction false} SkipSpaceRun(s: string, i: nat, n: nat)
    requires i + n <= |s|
    requires forall k :: i <= k < i + n ==> IsRegexSpace(s[k])
    requires i + n < |s| ==> !IsRegexSpace(s[i + n])
    ensures SkipSpace(s, i) == i + n
    decreases n
  {
    if n > 0 {
      SkipSpaceRun(s, i + 1, n - 1);
    }
  }

  /** A fence is three backticks. */
  lemma FenceBytes(s: string, j: nat, m: nat)
    requires OccursAt(s, Fence, j) && j <= m < j + |Fence|
    ensures s[m] == '`'
  {
    assert s[m] == s[j..j + |Fence|][m - j];
  }

  /** A fence lying inside a piece of the text is a fence of the piece. */
  lemma FenceInside(s: string, off: nat, piece: string, j: nat)
    requires off + |piece| <= |s| && piece == s[off..off + |piece|]
    requires off <= j && j + |Fence| <= off + |piece| && OccursAt(s, Fence, j)
    ensures OccursAt(piece, Fence, j - off)
  {
    forall q | j - off <= q < j - off + |Fence|
      ensures piece[q] == s[q + off]
    {
      assert piece[q] == s[off..off + |piece|][q];
    }
    assert piece[j - off..j - off + |Fence|] == s[j..j + |Fence|];
  }

  /** The first occurrence from `from` is found. */
  lemma {:induction false} FindFromFirst(s: string, t: string, from: nat, k: nat)
    requires from <= k && OccursAt(s, t, k)
    requires forall j :: from <= j < k ==> !OccursAt(s, t, j)
    ensures FindFrom(s, t, from) == Some(k)
    decreases k - from
  {
    if from < k {
      FindFromFirst(s, t, from + 1, k);
    }
  }

  /** Trailing `\s` bytes after a body ending in a non-`\s` byte are trimmed off, and nothing more. */
  lemma {:induction false} TrimRightSpaceRun(x: string, y: string)
    requires x != [] && !IsRegexSpace(x[|x| - 1])
    requires forall k :: 0 <= k < |y| ==> IsRegexSpace(y[k])
    ensures TrimRightSpace(x + y) == x
    decreases |y|
  {
    if y == [] {
      assert x + y == x;
    } else {
      assert (x + y)[..|x + y| - 1] == x + y[..|y| - 1];
      TrimRightSpaceRun(x, y[..|y| - 1]);
    }
  }

  /** A fence with no fence before it and no backtick just before it is the first fence. */
  lemma {:induction false} FirstFence(text: string, i: nat)
    requires OccursAt(text, Fence, i)
    requires !Contains(text[..i], Fence) && (i == 0 || text[i - 1] != '`')
    ensures Find(text, Fence) == Some(i)
  {
    forall j | 0 <= j < i
      ensures !OccursAt(text, Fence, j)
    {
      if OccursAt(text, Fence, j) {
        if j + |Fence| <= i {
          FenceInside(text, 0, text[..i], j);
          assert false;
        } else {
          FenceBytes(text, j, i - 1);
          assert false;
        }
      }
    }
    FindFromFirst(text, Fence, 0, i);
  }

  /**
   * After a fence-free body from b to e and a non-empty `\s` run from e to f,
   * the first fence from b (or from f) is a fence at f.
   */
  lemma {:induction false} ClosingFence(text: string, b: nat, e: nat, f: nat, a: nat)
    requires b <= e < f && OccursAt(text, Fence, f) && !Contains(text[b..e], Fence)
    requires forall k :: e <= k < f ==> IsRegexSpace(text[k])
    requires a == b || a == f
    ensures FindFrom(text, Fence, a) == Some(f)
  {
    forall j | a <= j < f
      ensures !OccursAt(text, Fence, j)
    {
      if OccursAt(text, Fence, j) {
        if j + |Fence| <= e {
          FenceInside(text, b, text[b..e], j);
          assert false;
        } else {
          var m := if j < e then e else j;
          FenceBytes(text, j, m);
          assert false;
        }
      }
    }
    FindFromFirst(text, Fence, a, f);
  }

  /** FenceBody unfolded: the first fence, the optional tag, the white space and the closing fence. */
  lemma FenceBodyShape(text: string, i: nat, p': nat, a: nat, k: nat)
    requires Find(text, Fence) == Some(i)
    requires p' == if OccursAt(text, "json", i + |Fence|) then i + |Fence| + 4 else i + |Fence|
    requires p' <= |text| && SkipSpace(text, p') == a && a <= k <= |text| && FindFrom(text, Fence, a) == Some(k)
    ensures FenceBody(text) == Some(TrimRightSpace(text[a..k]))
  {
  }

  /**
   * FenceBody in terms of positions: a fence at i, the tag up to t, a
   * non-empty `\s` run up to b, the body up to e, a non-empty `\s` run up
   * to the fence at f.
   */
  lemma {:induction false} FenceBodyAt(text: string, i: nat, t: nat, b: nat, e: nat, f: nat)
    requires Find(text, Fence) == Some(i) && i + |Fence| <= t < b <= e < f && OccursAt(text, Fence, f)
    requires t == i + |Fence| || (t == i + |Fence| + 4 && OccursAt(text, "json", i + |Fence|))
    requires forall k :: t <= k < b ==> IsRegexSpace(text[k])
    requires forall k :: e <= k < f ==> IsRegexSpace(text[k])
    requires !Contains(text[b..e], Fence)
    requires b < e ==> !IsRegexSpace(text[b]) && !IsRegexSpace(text[e - 1])
    ensures FenceBody(text) == Some(text[b..e])
  {
    var p := i + |Fence|;
    if t == p {
      assert IsRegexSpace(text[p]);
    }
    var a := if b == e then f else b;
    SkipSpaceRun(text, t, a - t);
    ClosingFence(text, b, e, f, a);
    FenceBodyShape(text, i, t, a, f);
    if b < e {
      TrimTail(text, b, e, f);
    } else {
      assert text[a..f] == [] == text[b..e];
    }
  }

  /** The `\s` run from e to f is trimmed off the piece from b to f, which ends in a non-`\s` byte at e - 1. */
  lemma TrimTail(text: string, b: nat, e: nat, f: nat)
    requires b < e <= f <= |text| && !IsRegexSpace(text[e - 1])
    requires forall k :: e <= k < f ==> IsRegexSpace(text[k])
    ensures TrimRightSpace(text[b..f]) == text[b..e]
  {
    var x, y := text[b..e], text[e..f];
    assert text[b..f] == x + y;
    assert x[|x| - 1] == text[e - 1];
    forall k | 0 <= k < |y| ensures IsRegexSpace(y[k]) {
      assert y[k] == text[e + k];
    }
    TrimRightSpaceRun(x, y);
  }

  /**
   * A block `pre ``` tag \s+ body \s+ ``` post`, with no fence in `pre`
   * or the body and the tag empty or "json", is replaced by its body.
   */
  lemma {:induction false} UnfenceBlock(pre: string, tag: string, sp1: string, body: string, sp2: string, post: string)
    requires !Contains(pre, Fence) && (pre == [] || pre[|pre| - 1] != '`')
    requires tag == "" || tag == "json"
    requires |sp1| > 0 && forall k :: 0 <= k < |sp1| ==> IsRegexSpace(sp1[k])
    requires |sp2| > 0 && forall k :: 0 <= k < |sp2| ==> IsRegexSpace(sp2[k])
    requires !Contains(body, Fence)
    requires body != [] ==> !IsRegexSpace(body[0]) && !IsRegexSpace(body[|body| - 1])
    ensures Unfence(pre + Fence + tag + sp1 + body + sp2 + Fence + post) == body
  {
    var p1 := pre + Fence;
    var p2 := p1 + tag;
    var p3 := p2 + sp1;
    var p4 := p3 + body;
    var p5 := p4 + sp2;
    var p6 := p5 + Fence;
    var text := p6 + post;
    var i, t, b, e, f := |pre|, |p2|, |p3|, |p4|, |p5|;
    // Each piece is the slice of the text at its place.
    Slices(p6, post, f, |p6|);
    Slices(p5, Fence, 0, 0);
    assert text[f..f + |Fence|] == Fence;
    Slices(p6, post, e, f);
    Slices(p5, Fence, e, f);
    Slices(p4, sp2, 0, 0);
    assert text[e..f] == sp2;
    Slices(p6, post, b, e);
    Slices(p5, Fence, b, e);
    Slices(p4, sp2, b, e);
    Slices(p3, body, 0, 0);
    assert text[b..e] == body;
    Slices(p6, post, t, b);
    Slices(p5, Fence, t, b);
    Slices(p4, sp2, t, b);
    Slices(p3, body, t, b);
    Slices(p2, sp1, 0, 0);
    assert text[t..b] == sp1;
    Slices(p6, post, i + |Fence|, t);
    Slices(p5, Fence, i + |Fence|, t);
    Slices(p4, sp2, i + |Fence|, t);
    Slices(p3, body, i + |Fence|, t);
    Slices(p2, sp1, i + |Fence|, t);
    Slices(p1, tag, 0, 0);
    assert text[i + |Fence|..t] == tag;
    Slices(p6, post, i, i + |Fence|);
    Slices(p5, Fence, i, i + |Fence|);
    Slices(p4, sp2, i, i + |Fence|);
    Slices(p3, body, i, i + |Fence|);
    Slices(p2, sp1, i, i + |Fence|);
    Slices(p1, tag, i, i + |Fence|);
    Slices(pre, Fence, 0, 0);
    assert text[i..i + |Fence|] == Fence;
    Slices(p6, post, 0, i);
    Slices(p5, Fence, 0, i);
    Slices(p4, sp2, 0, i);
    Slices(p3, body, 0, i);
    Slices(p2, sp1, 0, i);
    Slices(p1, tag, 0, i);
    Slices(pre, Fence, 0, i);
    assert text[..i] == pre;
    Spaces(text, t, sp1);
    Spaces(text, e, sp2);
    UnfenceAt(text, pre, body, i, t, b, e, f);
  }

  /** UnfenceBlock in terms of positions in the text. */
  lemma {:induction false} UnfenceAt(text: string, pre: string, body: string, i: nat, t: nat, b: nat, e: nat, f: nat)
    requires i + |Fence| <= t < b <= e < f && f + |Fence| <= |text|
    requires text[..i] == pre && text[b..e] == body
    requires !Contains(pre, Fence) && (pre == [] || pre[|pre| - 1] != '`')
    requires text[i..i + |Fence|] == Fence && text[f..f + |Fence|] == Fence
    requires t == i + |Fence| || (t == i + |Fence| + 4 && text[i + |Fence|..t] == "json")
    requires forall k :: t <= k < b ==> IsRegexSpace(text[k])
    requires forall k :: e <= k < f ==> IsRegexSpace(text[k])
    requires !Contains(body, Fence)
    requires body != [] ==> !IsRegexSpace(body[0]) && !IsRegexSpace(body[|body| - 1])
    ensures Unfence(text) == body
  {
    if body != [] {
      assert text[b] == body[0] && text[e - 1] == body[|body| - 1];
    }
    if i > 0 {
      assert text[i - 1] == pre[i - 1];
    }
    assert OccursAt(text, Fence, i) && OccursAt(text, Fence, f);
    FirstFence(text, i);
    FenceBodyAt(text, i, t, b, e, f);
  }

  /** The slices of u + v: the part within u, and v itself. */
  lemma Slices(u: string, v: string, a: nat, c: nat)
    requires a <= c <= |u|
    ensures (u + v)[a..c] == u[a..c] && (u + v)[|u|..] == v
  {
  }

  /** A run of `\s` bytes laid in the text at `at`. */
  lemma Spaces(text: string, at: nat, run: string)
    requires at + |run| <= |text| && text[at..at + |run|] == run
    requires forall k :: 0 <= k < |run| ==> IsRegexSpace(run[k])
    ensures forall k :: at <= k < at + |run| ==> IsRegexSpace(text[k])
  {
    forall k | at <= k < at + |run| ensures IsRegexSpace(text[k]) {
      assert text[k] == run[k - at];
    }
  }

  /** A tagged block loses its fences, tag and surrounding white space. */
  lemma {:induction false} FenceExample()
    ensures Unfence("```json\n{}\n```") == "{}"
  {
    var t := "```json\n{}\n```";
    assert OccursAt(t, Fence, 0);
    assert Find(t, Fence) == Some(0);
    assert OccursAt(t, "json", 3);
    assert SkipSpace(t, 7) == 8 by {
      assert IsRegexSpace(t[7]) && !IsRegexSpace(t[8]);
      assert SkipSpace(t, 8) == 8;
    }
    assert t[8] == '{' && t[9] == '}' && t[10] == '\n';
    assert !OccursAt(t, Fence, 8) && !OccursAt(t, Fence, 9) && !OccursAt(t, Fence, 10);
    assert OccursAt(t, Fence, 11);
    assert FindFrom(t, Fence, 8) == Some(11) by {
      assert FindFrom(t, Fence, 11) == Some(11);
      assert FindFrom(t, Fence, 10) == FindFrom(t, Fence, 11);
      assert FindFrom(t, Fence, 9) == FindFrom(t, Fence, 10);
    }
    assert t[8..11] == "{}\n";
    assert TrimRightSpace("{}\n") == "{}" by {
      assert "{}\n"[..2] == "{}";
    }
  }

  // ---- reading the answer ----

  /** The analysis the client returns. */
  datatype Analysis = Analysis(summary: string, keypoints: seq<string>, topics: seq<string>,
                               transcript: string, language: string)

  /**
   * json_decode of the model's text as parse_analysis_response uses it: a
   * falsy value, or a truthy one with whichever of the five properties it
   * has (a truthy value that is not an object has none of them).
   */
  datatype Decoded =
    | Falsy
    | Fields(summary: Option<string>, keypoints: Option<seq<string>>, topics: Option<seq<string>>,
             transcript: Option<string>, language: Option<string>)

  /**
   * The analysis read from the model's text: when the text does not decode
   * to a truthy value it becomes the summary; missing properties default.
   */
  function ReadAnalysis(text: string, decode: string -> Decoded): (a: Analysis)
    ensures decode(text).Falsy? ==> a.summary == text && a.keypoints == [] && a.topics == [] && a.language == "en"
    ensures decode(text).Fields? ==> Some(a.summary) == decode(text).summary || (decode(text).summary.None? && a.summary == "")
    ensures decode(text).Fields? ==> Some(a.language) == decode(text).language || (decode(text).language.None? && a.language == "en")
    ensures decode(text).Fields? ==> Some(a.keypoints) == decode(text).keypoints || (decode(text).keypoints.None? && a.keypoints == [])
    ensures decode(text).Fields? ==> Some(a.topics) == decode(text).topics || (decode(text).topics.None? && a.topics == [])
  {
    match decode(text)
    case Falsy => Analysis(text, [], [], "", "en")
    case Fields(summary, keypoints, topics, transcript, language) =>
      Analysis(summary.GetOr(""), keypoints.GetOr([]), topics.GetOr([]), transcript.GetOr(""), language.GetOr("en"))
  }

  /**
   * parse_analysis_response. `candidateText` gives
   * `candidates[0].content.parts[0].text` of the decoded reply when the
   * reply decodes to a truthy value and that property is set.
   */
  function ParseAnalysisResponse(response: string, candidateText: string -> Option<string>,
                                 decode: string -> Decoded): (r: Outcome<Analysis>)
    ensures r.Raise? <==> candidateText(response).None?
    ensures r.Raise? ==> r.exc == AiError("Invalid API response format")
  {
    match candidateText(response)
    case None => Raise(AiError("Invalid API response format"))
    case Some(text) => Ok(ReadAnalysis(Unfence(Trim(text)), decode))
  }

  /** extract_text_from_response */
  function ExtractText(response: string, candidateText: string -> Option<string>): (r: Outcome<string>)
    ensures r.Raise? <==> candidateText(response).None?
    ensures r.Raise? ==> r.exc == AiError("Invalid API response format")
  {
    match candidateText(response)
    case None => Raise(AiError("Invalid API response format"))
    case Some(text) => Ok(text)
  }

  /**
   * Once the envelope holds a text, reading it never throws: undecodable
   * text is kept whole as the summary with language "en", and each missing
   * property takes its default. Both parse paths reject the same replies.
   */
  lemma {:induction false} ParseAnalysisSpec(response: string, candidateText: string -> Option<string>,
                                             decode: string -> Decoded)
    ensures ParseAnalysisResponse(response, candidateText, decode).Raise? <==>
      ExtractText(response, candidateText).Raise?
    ensures candidateText(response).Some? ==>
      var text := Unfence(Trim(candidateText(response).value));
      decode(text).Falsy? ==> ParseAnalysisResponse(response, candidateText, decode) == Ok(Analysis(text, [], [], "", "en"))
    ensures candidateText(response).Some? ==>
      var text := Unfence(Trim(candidateText(response).value));
      var a := ParseAnalysisResponse(response, candidateText, decode).value;
      decode(text).Fields? ==>
        (decode(text).summary.None? ==> a.summary == "") && (decode(text).keypoints.None? ==> a.keypoints == [])
        && (decode(text).topics.None? ==> a.topics == []) && (decode(text).transcript.None? ==> a.transcript == "")
        && (decode(text).language.None? ==> a.language == "en")
        && (decode(text).summary.Some? ==> a.summary == decode(text).summary.value)
        && (decode(text).keypoints.Some? ==> a.keypoints == decode(text).keypoints.value)
        && (decode(text).topics.Some? ==> a.topics == decode(text).topics.value)
        && (decode(text).transcript.Some? ==> a.transcript == decode(text).transcript.value)
        && (decode(text).language.Some? ==> a.language == decode(text).language.value)
  {
  }

  // ---- the public calls ----

  /**
   * What the API side contributes to one request: the reply, and the JSON
   * readings of its body and of the model's text.
   */
  datatype Exchange = Exchange(reply: Reply, errorMessage: string -> Option<string>,
                               candidateText: string -> Option<string>, decode: string -> Decoded)

  /** A call that may reach the API: its outcome, and whether a request was sent. */
  datatype Call<T> = Call(outcome: Outcome<T>, sent: bool)

  /** analyze_video: refuse when unconfigured, else request and parse. */
  function AnalyzeVideo(c: Client, x: Exchange): (r: Call<Analysis>)
    ensures !IsConfigured(c) <==> r == Call(Raise(AiNotConfigured), false)
  {
    if !IsConfigured(c) then Call(Raise(AiNotConfigured), false)
    else match CallApi(x.reply, x.errorMessage)
      case Raise(e) => Call(Raise(e), true)
      case Ok(body) => Call(ParseAnalysisResponse(body, x.candidateText, x.decode), true)
  }

  /** generate_summary: refuse when unconfigured, else request and return the text. */
  function GenerateSummary(c: Client, x: Exchange): (r: Call<string>)
    ensures !IsConfigured(c) <==> r == Call(Raise(AiNotConfigured), false)
  {
    if !IsConfigured(c) then Call(Raise(AiNotConfigured), false)
    else match CallApi(x.reply, x.errorMessage)
      case Raise(e) => Call(Raise(e), true)
      case Ok(body) => Call(ExtractText(body, x.candidateText), true)
  }

  /**
   * A configured client's analysis succeeds exactly when the reply is a 200
   * without transport error and its envelope holds a text; every failure is
   * an ai_error.
   */
  lemma {:induction false} AnalyzeVideoSpec(c: Client, x: Exchange)
    requires IsConfigured(c)
    ensures AnalyzeVideo(c, x).sent
    ensures AnalyzeVideo(c, x).outcome.Ok? <==>
      x.reply.errno == 0 && x.reply.httpCode == 200 && x.candidateText(x.reply.body).Some?
    ensures AnalyzeVideo(c, x).outcome.Raise? ==> AnalyzeVideo(c, x).outcome.exc.AiError?
  {
  }

  /** test_connection: true only for a configured client whose request returned a non-empty body; never throws. */
  function TestConnection(c: Client, reply: Reply, errorMessage: string -> Option<string>): (ok: bool)
    ensures ok <==> IsConfigured(c) && reply.errno == 0 && reply.httpCode == 200 && !IsEmpty(reply.body)
  {
    if !IsConfigured(c) then false
    else match CallApi(reply, errorMessage)
      case Raise(_) => false
      case Ok(body) => !IsEmpty(body)
  }
}
