/**
  Rendering a transcript as WebVTT (transcriptions/formats.py) and parsing it back with
  the file parser of section 6.1 of the W3C WebVTT specification.
 */
module WebVtt {
  import opened Wrappers
  import opened PlainText
  import opened VttTime
  import opened CueText
  import Decimal
  import opened Sequences

  datatype Segment = Segment(start: real, end: real, text: string)

  datatype Transcript = Transcript(text: string, segments: seq<Segment>)

  // -- Rendering --------------------------------------------------------------------------

  function Max(a: real, b: real): real { if b > a then b else a }

  function KeptSegments(segments: seq<Segment>): seq<Segment> {
    if segments == [] then []
    else
      var s := segments[0];
      (if Strip(s.text) == [] then [] else [Segment(s.start, Max(s.start, s.end), s.text)]) +
        KeptSegments(segments[1..])
  }

  /** Blank segments are dropped, ends clamped; a transcript without segments becomes one cue at the start. */
  function Normalized(t: Transcript): seq<Segment> {
    if t.segments != [] then KeptSegments(t.segments)
    else if Strip(t.text) != [] then [Segment(0.0, 0.0, Strip(t.text))]
    else []
  }

  lemma {:induction false} KeptAppend(a: seq<Segment>, b: seq<Segment>)
    ensures KeptSegments(a + b) == KeptSegments(a) + KeptSegments(b)
  {
    if a == [] {
      assert a + b == b;
    } else {
      hide Strip;
      assert (a + b)[0] == a[0] && (a + b)[1..] == a[1..] + b;
      KeptAppend(a[1..], b);
    }
  }

  /**
    A segment is kept in its place exactly when its text has more than whitespace, and ends no
    earlier than it starts; a text without segments is one cue at the start.
   */
  lemma SegmentIsKeptIff(before: seq<Segment>, s: Segment, after: seq<Segment>, text: string)
    ensures Normalized(Transcript(text, before + [s] + after)) == KeptSegments(before) +
            (if exists c :: c in s.text && !IsSpace(c)
             then [Segment(s.start, if s.end < s.start then s.start else s.end, s.text)] else []) + KeptSegments(after)
    ensures Normalized(Transcript(text, [])) ==
            if exists c :: c in text && !IsSpace(c) then [Segment(0.0, 0.0, Strip(text))] else []
  {
    hide KeptSegments, Strip, IsSpace;
    StripEdges(text);
    OneIsKept(s);
    KeptAppend(before + [s], after);
    KeptAppend(before, [s]);
  }

  lemma OneIsKept(s: Segment)
    ensures KeptSegments([s]) == if exists c :: c in s.text && !IsSpace(c)
                                 then [Segment(s.start, if s.end < s.start then s.start else s.end, s.text)] else []
  {
    StripEdges(s.text);
    hide Strip, IsSpace;
    assert [s][1..] == [];
  }

  function TimingLine(s: Segment): string { FormatSeconds(s.start) + " --> " + FormatSeconds(s.end) }

  function CueLines(segments: seq<Segment>): seq<string> {
    if segments == [] then []
    else
      CueLines(segments[..|segments| - 1])
        + if EscapeCueText(segments[|segments| - 1].text) == [] then []
          else [TimingLine(segments[|segments| - 1]), EscapeCueText(segments[|segments| - 1].text), ""]
  }

  function Rendered(t: Transcript): string {
    RightStrip(Join(["WEBVTT", ""] + CueLines(Normalized(t)), '\n')) + "\n"
  }

  method Render(t: Transcript) returns (vtt: string)
    ensures vtt == Rendered(t)
  {
    var lines := ["WEBVTT", ""];
    var segments := Normalized(t);
    hide Normalized, EscapeCueText, TimingLine, RightStrip, Join;
    for i := 0 to |segments|
      invariant lines == ["WEBVTT", ""] + CueLines(segments[..i])
    {
      var s := segments[i];
      assert segments[..i + 1][..i] == segments[..i];
      var text := EscapeCueText(s.text);
      if text != [] {
        assert lines + [TimingLine(s)] + [text] + [""] ==
          ["WEBVTT", ""] + (CueLines(segments[..i]) + [TimingLine(s), text, ""]);
        lines := lines + [TimingLine(s)];
        lines := lines + [text];
        lines := lines + [""];
      }
    }
    assert segments[..|segments|] == segments;
    return RightStrip(Join(lines, '\n')) + "\n";
  }

  // -- Parsing ----------------------------------------------------------------------------------

  datatype Timing = Timing(start: nat, end: nat, settings: string)

  datatype Cue = Cue(id: string, timing: Timing, text: string)

  /** Null characters are replaced; CR LF and lone CR become LF. */
  function Preprocessed(s: string): string {
    if s == [] then []
    else if s[0] == NUL then [REPLACEMENT] + Preprocessed(s[1..])
    else if s[0] == '\r' then
      if |s| > 1 && s[1] == '\n' then "\n" + Preprocessed(s[2..]) else "\n" + Preprocessed(s[1..])
    else [s[0]] + Preprocessed(s[1..])
  }

  predicate HasArrow(line: string) {
    line != [] && ("-->" <= line || HasArrow(line[1..]))
  }

  predicate IsAsciiWhitespace(c: char) { c == ' ' || c == '\t' || c == '\n' || c == '\U{c}' || c == '\r' }

  function SkipWhitespace(s: string): string {
    if s != [] && IsAsciiWhitespace(s[0]) then SkipWhitespace(s[1..]) else s
  }

  /** The timings of a line; what follows them are the settings. */
  function CollectTimings(line: string): Option<Timing> {
    var first := Collect(SkipWhitespace(line));
    if first.None? then None
    else
      var middle := SkipWhitespace(first.value.1);
      if !("-->" <= middle) then None
      else
        var second := Collect(SkipWhitespace(middle[3..]));
        if second.None? then None else Some(Timing(first.value.0, second.value.0, SkipWhitespace(second.value.1)))
  }

  function Finished(cue: Option<(string, Timing)>, buffer: string): Option<Cue> {
    if cue.Some? then Some(Cue(cue.value.0, cue.value.1, buffer)) else None
  }

  /**
    One block: its cue, if it is one, and the lines after it. `count` lines are read;
    style and region blocks hold no cue.
   */
  function Block(lines: seq<string>, count: nat, buffer: string, cue: Option<(string, Timing)>, seenArrow: bool,
      inHeader: bool)
    : (result: (Option<Cue>, seq<string>))
    ensures |result.1| <= |lines|
    ensures lines != [] && count == 0 && !inHeader ==> |result.1| < |lines|
  {
    if lines == [] then (Finished(cue, buffer), [])
    else if HasArrow(lines[0]) then
      if !inHeader && (count == 0 || (count == 1 && !seenArrow)) then
        var timing := CollectTimings(lines[0]);
        if timing.Some? then Block(lines[1..], count + 1, "", Some((buffer, timing.value)), true, inHeader)
        else Block(lines[1..], count + 1, buffer, None, true, inHeader)
      else (Finished(cue, buffer), lines)
    else if lines[0] == "" then (Finished(cue, buffer), lines[1..])
    else
      Block(lines[1..], count + 1, if buffer == "" then lines[0]
        else buffer + "\n" + lines[0], cue, seenArrow, inHeader)
  }

  function SkipEmpty(lines: seq<string>): (rest: seq<string>)
    ensures |rest| <= |lines|
  {
    if lines != [] && lines[0] == "" then SkipEmpty(lines[1..]) else lines
  }

  function Blocks(lines: seq<string>): seq<Cue>
    decreases |lines|
  {
    var open := SkipEmpty(lines);
    if open == [] then []
    else
      var (cue, rest) := Block(open, 0, "", None, false, false);
      (if cue.Some? then [cue.value] else []) + Blocks(rest)
  }

  /** The cues of a file, or no value when its signature is missing. */
  function Parse(input: string): Option<seq<Cue>> {
    var lines := Split(Preprocessed(input), '\n');
    var header := lines[0];
    if !("WEBVTT" <= header) || (|header| > 6 && header[6] != ' ' && header[6] != '\t') then None
    else
      var rest := lines[1..];
      if rest == [] then Some([])
      else if rest[0] == "" then Some(Blocks(rest[1..]))
      else Some(Blocks(Block(rest, 0, "", None, false, true).1))
  }

  // -- The rendered lines ---------------------------------------------------------------------------

  /** No character that the parser treats before it splits the lines. */
  predicate IsClean(s: string) { '\r' !in s && '\n' !in s }

  lemma FormatCharacters(ms: nat)
    ensures forall c | c in Format(ms) :: Decimal.IsDigit(c) || c == ':' || c == '.'
    ensures Format(ms) != [] && Decimal.IsDigit(Format(ms)[0])
  {
    Widths(ms);
    var (hours, minutes, seconds, millis) := Clock(ms);
    var h := Decimal.Padded(hours, 2);
    hide Decimal.Padded, Decimal.Read, Clock;
    assert h[0] in h;
  }

  lemma TimingLineIsPlain(s: Segment)
    ensures var line := TimingLine(s); IsClean(line) && NUL !in line && HasArrow(line) && line != []
  {
    var a, b := FormatSeconds(s.start), FormatSeconds(s.end);
    FormatCharacters(Milliseconds(s.start));
    FormatCharacters(Milliseconds(s.end));
    hide Format, HasArrow;
    ArrowInside(a + " ", " " + b);
    assert forall c | c in a + " --> " + b :: c in a || c in " --> " || c in b;
    assert TimingLine(s) == a + " " + "-->" + (" " + b);
  }

  lemma {:induction false} ArrowInside(a: string, b: string)
    ensures HasArrow(a + "-->" + b)
  {
    if a == [] {
      assert a + "-->" + b == "-->" + b;
    } else {
      ArrowInside(a[1..], b);
      assert (a + "-->" + b)[1..] == a[1..] + "-->" + b;
    }
  }

  lemma {:induction false} NoBracketNoArrow(s: string)
    requires '>' !in s
    ensures !HasArrow(s)
  {
    if s != [] {
      NoBracketNoArrow(s[1..]);
      assert forall i | 0 <= i < |s| :: s[i] in s;
      assert "-->"[2] == '>';
    }
  }

  lemma TimingsBack(s: Segment)
    ensures CollectTimings(TimingLine(s)) == Some(Timing(Milliseconds(s.start), Milliseconds(s.end), ""))
  {
    var a, b := Milliseconds(s.start), Milliseconds(s.end);
    FormatCharacters(a);
    FormatCharacters(b);
    hide Collect, Format, Milliseconds;
    var middle := " --> " + Format(b);
    assert TimingLine(s) == Format(a) + middle;
    CollectBack(a, middle);
    assert SkipWhitespace(TimingLine(s)) == TimingLine(s);
    assert middle[1..] == "--> " + Format(b);
    assert SkipWhitespace(middle) == SkipWhitespace(middle[1..]) == middle[1..];
    assert middle[1..][..3] == "-->" && middle[1..][3..] == " " + Format(b);
    assert (" " + Format(b))[1..] == Format(b);
    assert SkipWhitespace(" " + Format(b)) == SkipWhitespace(Format(b)) == Format(b);
    CollectBack(b, "");
    assert Format(b) + "" == Format(b);
  }

  /** The payload line of a segment with text: not empty, one line, no arrow, no blank at its end. */
  lemma PayloadIsPlain(text: string)
    requires Strip(text) != []
    ensures var line := EscapeCueText(text);
            line != [] && IsClean(line) && !IsSpace(line[|line| - 1]) && '>' !in line
  {
    StripEdges(text);
    SingleLineIsLine(text);
    var line := SingleLine(text);
    EscapeIsEach(line);
    EscapedIsPlain(line);
    hide SingleLine, Strip, Escape, IsSpace, EscapeEach;
    assert forall c | c in EscapeEach(line) :: !IsBreak(c);
  }

  lemma {:induction false} KeptAreNotBlank(segments: seq<Segment>)
    ensures forall s | s in KeptSegments(segments) :: Strip(s.text) != []
  {
    if segments != [] {
      KeptAreNotBlank(segments[1..]);
    }
  }

  lemma NormalizedAreNotBlank(t: Transcript)
    ensures forall s | s in Normalized(t) :: Strip(s.text) != []
  {
    KeptAreNotBlank(t.segments);
    if t.segments == [] && Strip(t.text) != [] {
      StripEdges(t.text);
      StripEdges(Strip(t.text));
      assert Strip(t.text)[0] in Strip(t.text);
    }
  }

  // -- The round trip -------------------------------------------------------------------------------------

  /** The lines of the cues as the parser sees them, from the front. */
  function SeenLines(segments: seq<Segment>): seq<string> {
    if segments == [] then []
    else SeenBlock(segments[0]) + SeenLines(segments[1..])
  }

  function SeenBlock(s: Segment): seq<string> { [TimingLine(s), ReplaceNul(EscapeCueText(s.text)), ""] }

  function SeenCues(segments: seq<Segment>): seq<Cue> {
    if segments == [] then []
    else
      var s := segments[0];
      [Cue("", Timing(Milliseconds(s.start), Milliseconds(s.end), ""), ReplaceNul(EscapeCueText(s.text)))] +
        SeenCues(segments[1..])
  }

  lemma SeenPayload(text: string)
    requires Strip(text) != []
    ensures var line := ReplaceNul(EscapeCueText(text)); line != [] && !HasArrow(line) && IsClean(line)
  {
    PayloadIsPlain(text);
    var line := EscapeCueText(text);
    hide EscapeCueText, Strip, HasArrow, IsSpace;
    ReplaceNulChangesIff(line);
    ReplaceNulMembers(line);
    NoBracketNoArrow(ReplaceNul(line));
  }

  lemma {:induction false} ReplaceNulMembers(s: string)
    ensures forall c | c in ReplaceNul(s) :: c == REPLACEMENT || c in s
  {
    if s != [] {
      ReplaceNulMembers(s[1..]);
      assert ReplaceNul(s) == (if s[0] == NUL then [REPLACEMENT] else [s[0]]) + ReplaceNul(s[1..]);
    }
  }

  lemma ThreeFirst(x: string, y: string, z: string, rest: seq<string>)
    ensures [x, y, z] + rest == [x] + ([y] + ([z] + rest))
  {
  }

  /** One cue is read from its three lines. */
  lemma BlockOfCue(s: Segment, rest: seq<string>)
    requires Strip(s.text) != []
    ensures var payload := ReplaceNul(EscapeCueText(s.text));
            Block([TimingLine(s), payload, ""] + rest, 0, "", None, false, false)
            == (Some(Cue("", Timing(Milliseconds(s.start), Milliseconds(s.end), ""), payload)), rest)
  {
    var timing := Timing(Milliseconds(s.start), Milliseconds(s.end), "");
    var line, payload := TimingLine(s), ReplaceNul(EscapeCueText(s.text));
    TimingsBack(s);
    TimingLineIsPlain(s);
    SeenPayload(s.text);
    hide *;
    assert Block([""] + rest, 2, payload, Some(("", timing)), true, false) == (Some(Cue("", timing, payload)), rest);
    ThreeFirst(line, payload, "", rest);
  }

  lemma {:induction false} BlocksOfSeen(segments: seq<Segment>)
    requires forall s | s in segments :: Strip(s.text) != []
    ensures Blocks(SeenLines(segments)) == SeenCues(segments)
  {
    if segments != [] {
      var s := segments[0];
      assert s in segments;
      BlockOfCue(s, SeenLines(segments[1..]));
      TimingLineIsPlain(s);
      hide Block, TimingLine, EscapeCueText, ReplaceNul, Strip;
      BlocksOfSeen(segments[1..]);
      assert SkipEmpty(SeenLines(segments)) == SeenLines(segments);
    }
  }

  // -- From the rendered text to the lines ---------------------------------------------------------------

  lemma {:induction false} PreprocessedWithoutCr(s: string)
    requires '\r' !in s
    ensures Preprocessed(s) == ReplaceNul(s)
  {
    if s != [] {
      assert s[0] in s;
      PreprocessedWithoutCr(s[1..]);
    }
  }

  function EachReplaced(lines: seq<string>): seq<string> {
    if lines == [] then [] else [ReplaceNul(lines[0])] + EachReplaced(lines[1..])
  }

  lemma {:induction false} ReplaceNulInJoin(lines: seq<string>)
    ensures ReplaceNul(Join(lines, '\n')) == Join(EachReplaced(lines), '\n')
    ensures |EachReplaced(lines)| == |lines|
  {
    if |lines| == 1 {
      assert EachReplaced(lines[1..]) == [];
    } else if lines != [] {
      var rest := Join(lines[1..], '\n');
      ReplaceNulInJoin(lines[1..]);
      ReplaceAppend(lines[0] + "\n", rest, NUL, [REPLACEMENT]);
      ReplaceAppend(lines[0], "\n", NUL, [REPLACEMENT]);
      ReplaceNothing("\n", NUL, [REPLACEMENT]);
      assert EachReplaced(lines)[1..] == EachReplaced(lines[1..]);
    }
  }

  lemma {:induction false} EachReplacedAppend(a: seq<string>, b: seq<string>)
    ensures EachReplaced(a + b) == EachReplaced(a) + EachReplaced(b)
  {
    if a == [] {
      assert a + b == b;
    } else {
      TailOfAppend(a, b);
      EachReplacedAppend(a[1..], b);
      Assoc([ReplaceNul(a[0])], EachReplaced(a[1..]), EachReplaced(b));
    }
  }

  lemma {:induction false} SeenLinesAppend(a: seq<Segment>, b: seq<Segment>)
    ensures SeenLines(a + b) == SeenLines(a) + SeenLines(b)
  {
    hide SeenBlock;
    if a == [] {
      assert a + b == b;
    } else {
      TailOfAppend(a, b);
      SeenLinesAppend(a[1..], b);
      Assoc(SeenBlock(a[0]), SeenLines(a[1..]), SeenLines(b));
    }
  }

  lemma EachReplacedOfThree(x: string, y: string, z: string)
    ensures EachReplaced([x, y, z]) == [ReplaceNul(x), ReplaceNul(y), ReplaceNul(z)]
  {
    hide ReplaceNul;
    assert [x, y, z][1..] == [y, z] && [y, z][1..] == [z] && [z][1..] == [];
    assert EachReplaced([z]) == [ReplaceNul(z)];
    assert EachReplaced([y, z]) == [ReplaceNul(y)] + EachReplaced([z]);
  }

  lemma SeenBlockOf(s: Segment)
    requires Strip(s.text) != []
    ensures EachReplaced([TimingLine(s), EscapeCueText(s.text), ""]) == SeenBlock(s)
    ensures IsClean(TimingLine(s)) && IsClean(EscapeCueText(s.text)) && EscapeCueText(s.text) != []
  {
    TimingLineIsPlain(s);
    PayloadIsPlain(s.text);
    ReplaceNulChangesIff(TimingLine(s));
    assert ReplaceNul("") == "";
    hide TimingLine, EscapeCueText, Strip, HasArrow, IsSpace, ReplaceNul, EachReplaced;
    EachReplacedOfThree(TimingLine(s), EscapeCueText(s.text), "");
  }

  lemma CueLinesUnfold(segments: seq<Segment>)
    requires segments != [] && EscapeCueText(segments[|segments| - 1].text) != []
    ensures var init, s := segments[..|segments| - 1], segments[|segments| - 1];
            && segments == init + [s] && CueLines(segments) ==
              CueLines(init) + [TimingLine(s), EscapeCueText(s.text), ""]
  {
    hide TimingLine, EscapeCueText;
  }

  lemma LinesOfNone(segments: seq<Segment>)
    requires segments == []
    ensures EachReplaced(CueLines(segments)) == SeenLines(segments)
  {
  }

  lemma LinesOfOne(s: Segment)
    ensures SeenLines([s]) == SeenBlock(s)
  {
    hide SeenBlock;
    assert [s][1..] == [];
  }

  /** What the parser sees of the cue lines. */
  lemma {:induction false} CueLinesSeen(segments: seq<Segment>)
    requires forall s | s in segments :: Strip(s.text) != []
    ensures EachReplaced(CueLines(segments)) == SeenLines(segments)
  {
    hide *;
    if segments == [] {
      LinesOfNone(segments);
    } else {
      var init, s := segments[..|segments| - 1], segments[|segments| - 1];
      assert s in segments;
      SeenBlockOf(s);
      CueLinesUnfold(segments);
      CueLinesSeen(init);
      EachReplacedAppend(CueLines(init), [TimingLine(s), EscapeCueText(s.text), ""]);
      SeenLinesAppend(init, [s]);
      LinesOfOne(s);
    }
  }

  lemma {:induction false} CueLinesAreClean(segments: seq<Segment>)
    requires forall s | s in segments :: Strip(s.text) != []
    ensures forall line | line in CueLines(segments) :: IsClean(line)
  {
    if segments != [] {
      var init, s := segments[..|segments| - 1], segments[|segments| - 1];
      assert s in segments;
      SeenBlockOf(s);
      hide TimingLine, EscapeCueText, Strip, EachReplaced, SeenBlock;
      CueLinesAreClean(init);
    }
  }

  // -- The end of the rendered text ------------------------------------------------------------------------

  lemma {:induction false} JoinBeforeEmpty(parts: seq<string>)
    requires parts != []
    ensures Join(parts + [""], '\n') == Join(parts, '\n') + "\n"
  {
    var more := parts + [""];
    if |parts| == 1 {
      assert more[1..] == [""];
      assert Join([""], '\n') == "";
    } else {
      JoinBeforeEmpty(parts[1..]);
      assert more[1..] == parts[1..] + [""];
    }
  }

  lemma {:induction false} JoinEndsLikeLast(parts: seq<string>)
    requires parts != [] && parts[|parts| - 1] != []
    ensures Join(parts, '\n') != []
    ensures var last := parts[|parts| - 1]; Join(parts, '\n')[|Join(parts, '\n')| - 1] == last[|last| - 1]
  {
    if |parts| > 1 {
      JoinEndsLikeLast(parts[1..]);
    }
  }

  /**
    Stripping the end and adding a line break gives the joined lines back: their last line is
    empty and the one before has text.
   */
  lemma StrippedEnd(parts: seq<string>)
    requires parts != [] && parts[|parts| - 1] != [] && !IsSpace(parts[|parts| - 1][|parts[|parts| - 1]| - 1])
    ensures RightStrip(Join(parts + [""], '\n')) + "\n" == Join(parts + [""], '\n')
  {
    JoinBeforeEmpty(parts);
    JoinEndsLikeLast(parts);
    var body := Join(parts, '\n');
    assert (body + "\n")[..|body|] == body;
  }

  lemma RenderedIsJoin(t: Transcript)
    ensures Rendered(t) == Join(["WEBVTT", ""] + CueLines(Normalized(t)), '\n')
  {
    var segments := Normalized(t);
    NormalizedAreNotBlank(t);
    hide Normalized, Join, RightStrip, IsSpace, TimingLine, EscapeCueText, Strip;
    if segments == [] {
      assert ["WEBVTT", ""] + CueLines(segments) == ["WEBVTT"] + [""];
      assert !IsSpace('T') by { SpaceIsNoLetter(); }
      StrippedEnd(["WEBVTT"]);
    } else {
      var s := segments[|segments| - 1];
      assert s in segments;
      PayloadIsPlain(s.text);
      var parts := ["WEBVTT", ""] + CueLines(segments[..|segments| - 1]) + [TimingLine(s), EscapeCueText(s.text)];
      assert ["WEBVTT", ""] + CueLines(segments) == parts + [""];
      StrippedEnd(parts);
    }
  }

  lemma SpaceIsNoLetter()
    ensures !IsSpace('T')
  {
  }

  /** A file of a header line, an empty line and more lines holds the cues of those. */
  lemma ParseOfLines(input: string, cues: seq<string>)
    requires Split(Preprocessed(input), '\n') == ["WEBVTT", ""] + cues
    ensures Parse(input) == Some(Blocks(cues))
  {
    hide Split, Preprocessed, Blocks, Block;
    var lines := ["WEBVTT", ""] + cues;
    assert lines[0] == "WEBVTT" && lines[1..] == [""] + cues;
    assert ([""] + cues)[0] == "" && ([""] + cues)[1..] == cues;
  }

  /** Parsing the rendered transcript gives its cues. */
  lemma ParseOfRendered(t: Transcript)
    ensures Parse(Rendered(t)) == Some(SeenCues(Normalized(t)))
  {
    hide *;
    NormalizedAreNotBlank(t);
    RenderedIsJoin(t);
    CueLinesSeen(Normalized(t));
    CueLinesAreClean(Normalized(t));
    SplitRendered(CueLines(Normalized(t)));
    ParseOfLines(Rendered(t), SeenLines(Normalized(t)));
    BlocksOfSeen(Normalized(t));
  }

  /** Splitting the text at line breaks gives the lines it was joined from, null characters replaced. */
  lemma SplitRendered(cues: seq<string>)
    requires forall line | line in cues :: IsClean(line)
    ensures Split(Preprocessed(Join(["WEBVTT", ""] + cues, '\n')), '\n') == ["WEBVTT", ""] + EachReplaced(cues)
  {
    var lines := ["WEBVTT", ""] + cues;
    assert forall line | line in lines :: IsClean(line);
    JoinIsWithoutCr(lines);
    PreprocessedWithoutCr(Join(lines, '\n'));
    ReplaceNulInJoin(lines);
    EachReplacedAppend(["WEBVTT", ""], cues);
    ReplaceNothing("WEBVTT", NUL, [REPLACEMENT]);
    assert EachReplaced(["WEBVTT", ""]) == ["WEBVTT", ""] by { assert ["WEBVTT", ""][1..] == [""] && [""][1..] == []; }
    EachReplacedIsClean(lines);
    hide Preprocessed, ReplaceNul, EachReplaced, Join, Split;
    SplitOfJoin(EachReplaced(lines), '\n');
  }

  lemma {:induction false} JoinIsWithoutCr(lines: seq<string>)
    requires forall line | line in lines :: IsClean(line)
    ensures '\r' !in Join(lines, '\n')
  {
    if lines != [] {
      assert lines[0] in lines;
      JoinIsWithoutCr(lines[1..]);
    }
  }

  lemma {:induction false} EachReplacedIsClean(lines: seq<string>)
    requires forall line | line in lines :: IsClean(line)
    ensures forall line | line in EachReplaced(lines) :: '\n' !in line
  {
    if lines != [] {
      assert lines[0] in lines;
      ReplaceNulMembers(lines[0]);
      EachReplacedIsClean(lines[1..]);
    }
  }

  /**
    Every segment with text comes back as one cue, in order, with its times rounded to
    milliseconds, no settings and no identifier. Its decoded payload is the segment's
    text on a single line with null characters replaced; so it is that line exactly when
    the text holds none.
   */
  lemma RoundTrip(t: Transcript, i: nat)
    requires i < |Normalized(t)|
    ensures var parsed, s := Parse(Rendered(t)), Normalized(t)[i];
            && parsed.Some? && |parsed.value| == |Normalized(t)|
            && parsed.value[i].id == "" && parsed.value[i].timing ==
              Timing(Milliseconds(s.start), Milliseconds(s.end), "")
            && Decode(parsed.value[i].text) == Some(ReplaceNul(SingleLine(s.text)))
            && (Decode(parsed.value[i].text) == Some(SingleLine(s.text)) <==> NUL !in s.text)
  {
    ParseOfRendered(t);
    SeenCueAt(Normalized(t), i);
    var line := SingleLine(Normalized(t)[i].text);
    hide Parse, Rendered, Normalized, SingleLine;
    EscapeIsEach(line);
    ReplaceNulInEscaped(line);
    EscapeIsEach(ReplaceNul(line));
    DecodeOfEscape(ReplaceNul(line));
    ReplaceNulChangesIff(line);
    SingleLineIsLine(Normalized(t)[i].text);
    assert !IsSpace(NUL);
  }

  lemma {:induction false} SeenCueAt(segments: seq<Segment>, i: nat)
    requires i < |segments|
    ensures |SeenCues(segments)| == |segments|
    ensures var s := segments[i];
            SeenCues(segments)[i] == Cue("", Timing(Milliseconds(s.start), Milliseconds(s.end), ""),
              ReplaceNul(EscapeCueText(s.text)))
  {
    hide EscapeCueText, ReplaceNul, Milliseconds;
    if i > 0 {
      SeenCueAt(segments[1..], i - 1);
    } else if |segments| > 1 {
      SeenCueAt(segments[1..], 0);
    }
  }
}
