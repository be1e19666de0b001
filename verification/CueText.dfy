/**
  The payload line of a cue: line breaks collapsed, arrows shortened, markup escaped
  (transcriptions/formats.py), and its decoding by section 6.4 of the W3C WebVTT
  specification.
 */
module CueText {
  import opened Wrappers
  import opened PlainText
  import opened Sequences
  import StableSort

  predicate IsBreak(c: char) { c == '\r' || c == '\n' }

  /** The whitespace at the front. */
  function Blanks(s: string): (b: string)
    ensures |b| <= |s| && b == s[..|b|]
    ensures s != [] && IsSpace(s[0]) ==> b != []
  {
    if s != [] && IsSpace(s[0]) then [s[0]] + Blanks(s[1..]) else []
  }

  predicate HasBreak(s: string) { exists c :: c in s && IsBreak(c) }

  /** Every run of whitespace with a line break in it becomes one space. */
  function CollapseBreaks(s: string): string {
    if s == [] then []
    else if IsSpace(s[0]) then
      var run := Blanks(s);
      (if HasBreak(run) then " " else run) + CollapseBreaks(s[|run|..])
    else [s[0]] + CollapseBreaks(s[1..])
  }

  /** One pass from the left: what the replacement puts together stays. */
  function ShortenArrows(s: string): string {
    if s == [] then []
    else if |s| >= 3 && s[..3] == "-->" then "->" + ShortenArrows(s[3..])
    else [s[0]] + ShortenArrows(s[1..])
  }

  function SingleLine(text: string): string { ShortenArrows(Strip(CollapseBreaks(text))) }

  function Replace(s: string, c: char, text: string): string {
    if s == [] then [] else (if s[0] == c then text else [s[0]]) + Replace(s[1..], c, text)
  }

  /** The ampersand first, so that the references written for the brackets are left alone. */
  function Escape(s: string): string {
    Replace(Replace(Replace(s, '&', "&amp;"), '<', "&lt;"), '>', "&gt;")
  }

  function EscapeCueText(text: string): string { Escape(SingleLine(text)) }

  // -- What the single line keeps ------------------------------------------------------------

  function Words(s: string): string { StableSort.Filter(s, c => !IsSpace(c)) }

  lemma {:induction false} BlanksAreSpace(s: string)
    ensures forall c | c in Blanks(s) :: IsSpace(c)
  {
    if s != [] && IsSpace(s[0]) {
      BlanksAreSpace(s[1..]);
    }
  }

  lemma {:induction false} NoWordsIn(s: string)
    requires forall c | c in s :: IsSpace(c)
    ensures Words(s) == []
  {
    if s != [] {
      NoWordsIn(s[1..]);
      assert s[0] in s;
    }
  }

  lemma WordsAppend(a: string, b: string)
    ensures Words(a + b) == Words(a) + Words(b)
  {
    StableSort.FilterAppend(a, b, c => !IsSpace(c));
  }

  /** Collapsing breaks changes whitespace only, and leaves none of the breaks. */
  lemma {:induction false} CollapseKeepsWords(s: string)
    ensures Words(CollapseBreaks(s)) == Words(s)
    ensures !HasBreak(CollapseBreaks(s))
  {
    if s != [] {
      if IsSpace(s[0]) {
        var run := Blanks(s);
        var rest := s[|run|..];
        CollapseKeepsWords(rest);
        BlanksAreSpace(s);
        NoWordsIn(run);
        var head := if HasBreak(run) then " " else run;
        NoWordsIn(head);
        WordsAppend(run, rest);
        WordsAppend(head, CollapseBreaks(rest));
        assert s == run + rest;
        assert !HasBreak(head);
      } else {
        CollapseKeepsWords(s[1..]);
        WordsAppend([s[0]], s[1..]);
        WordsAppend([s[0]], CollapseBreaks(s[1..]));
        assert s == [s[0]] + s[1..];
      }
    }
  }

  /** Text on one line already is left alone. */
  lemma {:induction false} CollapseOneLine(s: string)
    requires !HasBreak(s)
    ensures CollapseBreaks(s) == s
  {
    if s != [] {
      if IsSpace(s[0]) {
        var run := Blanks(s);
        assert run + s[|run|..] == s;
        CollapseOneLine(s[|run|..]);
      } else {
        assert [s[0]] + s[1..] == s;
        CollapseOneLine(s[1..]);
      }
    }
  }

  lemma {:induction false} ShorteningKeepsCharacters(s: string)
    ensures forall c :: c in ShortenArrows(s) <==> c in s
    ensures s != [] ==> ShortenArrows(s) != [] && ShortenArrows(s)[0] == s[0]
                        && ShortenArrows(s)[|ShortenArrows(s)| - 1] == s[|s| - 1]
  {
    if s != [] {
      if |s| >= 3 && s[..3] == "-->" {
        ShorteningKeepsCharacters(s[3..]);
        assert s == "-->" + s[3..];
        assert forall c :: c in "-->" <==> c in "->";
      } else {
        ShorteningKeepsCharacters(s[1..]);
        assert s == [s[0]] + s[1..];
      }
    }
  }

  lemma {:induction false} WordsAreMembers(s: string)
    ensures forall c :: c in Words(s) <==> c in s && !IsSpace(c)
  {
    StableSort.FilterMembers(s, c => !IsSpace(c));
  }

  lemma {:induction false} LeftStripKeepsWords(s: string)
    ensures Words(LeftStrip(s)) == Words(s)
  {
    if s != [] && IsSpace(s[0]) {
      LeftStripKeepsWords(s[1..]);
    }
  }

  lemma {:induction false} RightStripKeepsWords(s: string)
    ensures Words(RightStrip(s)) == Words(s)
  {
    if s != [] && IsSpace(s[|s| - 1]) {
      var init := s[..|s| - 1];
      RightStripKeepsWords(init);
      NoWordsIn([s[|s| - 1]]);
      WordsAppend(init, [s[|s| - 1]]);
      assert s == init + [s[|s| - 1]];
    }
  }

  /**
    Before arrows are shortened, the line has the words of the text in order, and one line that
    is stripped already stays.
   */
  lemma LineKeepsWords(text: string)
    ensures Words(Strip(CollapseBreaks(text))) == Words(text)
    ensures !HasBreak(text) && Strip(text) == text ==> Strip(CollapseBreaks(text)) == text
  {
    CollapseKeepsWords(text);
    LeftStripKeepsWords(CollapseBreaks(text));
    RightStripKeepsWords(LeftStrip(CollapseBreaks(text)));
    if !HasBreak(text) {
      CollapseOneLine(text);
    }
  }

  lemma NoBreakLeft(s: string, part: string)
    requires !HasBreak(s) && forall c | c in part :: c in s
    ensures !HasBreak(part)
  {
  }

  /**
    A line is empty only for blank text, has no break, starts and ends with text, and has every
    other character of the text.
   */
  lemma SingleLineIsLine(text: string)
    ensures var line := SingleLine(text);
            && (line == [] <==> forall c | c in text :: IsSpace(c))
            && !HasBreak(line)
            && (line != [] ==> !IsSpace(line[0]) && !IsSpace(line[|line| - 1]))
            && forall c | !IsSpace(c) :: c in line <==> c in text
  {
    var collapsed := CollapseBreaks(text);
    CollapseKeepsWords(text);
    StripEdges(collapsed);
    LineKeepsWords(text);
    ShorteningKeepsCharacters(Strip(collapsed));
    WordsAreMembers(text);
    WordsAreMembers(Strip(collapsed));
    WordsAreMembers(collapsed);
    hide Strip, CollapseBreaks, ShortenArrows, IsSpace, Words, HasBreak;
    assert Words(collapsed) == Words(text) && Words(Strip(collapsed)) == Words(text);
    assert forall c | !IsSpace(c) :: c in collapsed <==> c in text;
    assert SingleLine(text) != [] ==> SingleLine(text)[0] in SingleLine(text);
    assert SingleLine(text) == [] <==> Strip(collapsed) == [];
    assert (forall c | c in collapsed :: IsSpace(c)) <==> (forall c | c in text :: IsSpace(c));
    NoBreakLeft(collapsed, SingleLine(text));
  }

  // -- What becomes of blanks and arrows -----------------------------------------------------------

  lemma {:induction false} BlanksOf(w: string, rest: string)
    requires (forall c | c in w :: IsSpace(c)) && (rest != [] ==> !IsSpace(rest[0]))
    ensures Blanks(w + rest) == w
  {
    if w == [] {
      assert w + rest == rest;
    } else {
      assert w[0] in w && (w + rest)[1..] == w[1..] + rest;
      BlanksOf(w[1..], rest);
    }
  }

  lemma BlanksInFront(a: string, rest: string)
    requires a != [] && !IsSpace(a[|a| - 1])
    ensures Blanks(a + rest) == Blanks(a) && |Blanks(a)| < |a|
  {
    if IsSpace(a[0]) {
      BlanksInFront(a[1..], rest);
      assert (a + rest)[1..] == a[1..] + rest;
    }
  }

  /** What the blanks at the front, or the first character if there are none, become. */
  function Front(s: string): (front: string)
    requires s != []
  {
    var run := Blanks(s);
    if run == [] then [s[0]] else if '\r' in run || '\n' in run then " " else run
  }

  lemma FrontBecomes(s: string)
    requires s != []
    ensures (Blanks(s) == [] <==> !IsSpace(s[0])) && |Blanks(s)| <= |s|
    ensures CollapseBreaks(s) == Front(s) + CollapseBreaks(s[if Blanks(s) == [] then 1 else |Blanks(s)|..])
  {
    assert HasBreak(Blanks(s)) <==> '\r' in Blanks(s) || '\n' in Blanks(s);
  }

  /** A stretch of whitespace is one space if there is a line break in it, and stays if not. */
  lemma {:induction false} StretchBecomesSpace(a: string, w: string, b: string)
    requires (a != [] ==> !IsSpace(a[|a| - 1])) && (b != [] ==> !IsSpace(b[0]))
    requires w != [] && forall c | c in w :: IsSpace(c)
    ensures CollapseBreaks(a + w + b) ==
        CollapseBreaks(a) + (if '\r' in w || '\n' in w then " " else w) + CollapseBreaks(b)
    decreases |a|
  {
    hide IsSpace, Blanks, CollapseBreaks, Front;
    var middle := if '\r' in w || '\n' in w then " " else w;
    if a == [] {
      NothingToCollapse();
      StretchInFront(w, b);
      assert a + w + b == w + b;
    } else {
      assert a + w + b == a + (w + b);
      TextInFront(a, w + b);
      var k := if Blanks(a) == [] then 1 else |Blanks(a)|;
      assert (a + (w + b))[k..] == a[k..] + w + b;
      StretchBecomesSpace(a[k..], w, b);
      Assoc(Front(a), CollapseBreaks(a[k..]) + middle, CollapseBreaks(b));
      Assoc(Front(a), CollapseBreaks(a[k..]), middle);
    }
  }

  lemma StretchInFront(w: string, b: string)
    requires w != [] && (forall c | c in w :: IsSpace(c)) && (b != [] ==> !IsSpace(b[0]))
    ensures CollapseBreaks(w + b) == (if '\r' in w || '\n' in w then " " else w) + CollapseBreaks(b)
  {
    hide IsSpace, Blanks, CollapseBreaks;
    BlanksOf(w, b);
    FrontBecomes(w + b);
    assert (w + b)[|w|..] == b;
  }

  lemma TextInFront(a: string, rest: string)
    requires a != [] && !IsSpace(a[|a| - 1])
    ensures |Blanks(a)| < |a|
    ensures var k := if Blanks(a) == [] then 1 else |Blanks(a)|;
            && k <= |a| && CollapseBreaks(a) == Front(a) + CollapseBreaks(a[k..])
            && CollapseBreaks(a + rest) == Front(a) + CollapseBreaks((a + rest)[k..])
  {
    hide IsSpace, Blanks, CollapseBreaks;
    BlanksInFront(a, rest);
    FrontBecomes(a);
    FrontBecomes(a + rest);
  }

  lemma NothingToCollapse()
    ensures CollapseBreaks("") == ""
  {
  }

  /** The first arrow loses a dash, the text before it stays, and the rest is dealt with for itself. */
  lemma {:induction false} FirstArrowIsShortened(a: string, b: string)
    requires !Holds(a + "--", "-->")
    ensures ShortenArrows(a + "-->" + b) == a + "->" + ShortenArrows(b)
  {
    var s := a + "-->" + b;
    if a == [] {
      assert s == "-->" + b && s[3..] == b;
    } else {
      assert (a + "--")[1..] == a[1..] + "--";
      FirstArrowIsShortened(a[1..], b);
      NoArrowYet(a, b);
      hide Holds;
      assert s[0] == a[0] && s[1..] == a[1..] + "-->" + b;
      assert [a[0]] + (a[1..] + "->" + ShortenArrows(b)) == a + "->" + ShortenArrows(b);
    }
  }

  lemma NoArrowYet(a: string, b: string)
    requires a != [] && !Holds(a + "--", "-->")
    ensures |a + "-->" + b| >= 3 && (a + "-->" + b)[..3] != "-->"
  {
    var s := a + "-->" + b;
    if |a| >= 3 {
      assert s[..3] == (a + "--")[..3];
    } else {
      assert s[2] == '-';
    }
  }

  lemma {:induction false} WithoutArrowStays(s: string)
    requires !Holds(s, "-->")
    ensures ShortenArrows(s) == s
  {
    if s != [] {
      WithoutArrowStays(s[1..]);
    }
  }

  predicate Holds(s: string, part: string) {
    part <= s || (s != [] && Holds(s[1..], part))
  }

  // -- Arrows -------------------------------------------------------------------------------------

  lemma ShortenedStart(s: string)
    ensures "->" <= ShortenArrows(s) <==> "->" <= s || "-->" <= s
  {
    if s != [] && !("-->" <= s) {
      ShorteningKeepsCharacters(s[1..]);
    }
  }

  /** Only a longer arrow leaves an arrow when it is shortened. */
  lemma {:induction false} ShorteningLeavesArrowIff(s: string)
    ensures Holds(ShortenArrows(s), "-->") <==> Holds(s, "--->")
  {
    if "-->" <= s {
      var rest := ShortenArrows(s[3..]);
      ShorteningLeavesArrowIff(s[3..]);
      HoldsBehind("->", rest, "-->");
      assert s == "-->" + s[3..];
      HoldsBehind("-->", s[3..], "--->");
    } else if s != [] {
      var rest := ShortenArrows(s[1..]);
      ShorteningLeavesArrowIff(s[1..]);
      ShortenedStart(s[1..]);
      assert ([s[0]] + rest)[1..] == rest;
      assert "-->" <= [s[0]] + rest <==> s[0] == '-' && "->" <= rest;
    }
  }

  /** An arrow does not start inside text that ends in its head. */
  lemma HoldsBehind(head: string, rest: string, arrow: string)
    requires (head == "->" && arrow == "-->") || (head == "-->" && arrow == "--->")
    ensures Holds(head + rest, arrow) <==> Holds(rest, arrow)
  {
    var s := head + rest;
    if |head| == 2 {
      assert s[1] == '>' && s[2..] == rest && s[1..][1..] == s[2..] && s[1..][0] == '>';
    } else {
      assert s[2] == '>' && s[1..][1] == '>' && s[2..][0] == '>' && s[3..] == rest;
      assert s[1..][1..] == s[2..] && s[2..][1..] == s[3..];
      assert Holds(s[2..], arrow) <==> Holds(s[3..], arrow);
      assert Holds(s[1..], arrow) <==> Holds(s[2..], arrow);
    }
  }

  /** The single line keeps an arrow if and only if the stripped line has one with another dash before it. */
  lemma LineHoldsArrowIff(text: string)
    ensures Holds(SingleLine(text), "-->") <==> Holds(Strip(CollapseBreaks(text)), "--->")
    ensures Holds(SingleLine("--->"), "-->")
  {
    ShorteningLeavesArrowIff(Strip(CollapseBreaks(text)));
    LongArrow();
  }

  lemma LongArrow()
    ensures SingleLine("--->") == "-->"
  {
    CollapseOneLine("--->");
    assert Strip("--->") == "--->";
    assert "--->"[1..] == "-->" && "--->"[..3] == "---" && "-->"[3..] == "";
    assert ShortenArrows("-->") == "->" + ShortenArrows("");
  }

  // -- Escaping and decoding ----------------------------------------------------------------------

  function EscapeCharacter(c: char): string {
    if c == '&' then "&amp;" else if c == '<' then "&lt;" else if c == '>' then "&gt;" else [c]
  }

  function EscapeEach(s: string): string {
    if s == [] then [] else EscapeCharacter(s[0]) + EscapeEach(s[1..])
  }

  lemma {:induction false} ReplaceAppend(a: string, b: string, c: char, text: string)
    ensures Replace(a + b, c, text) == Replace(a, c, text) + Replace(b, c, text)
  {
    if a == [] {
      assert a + b == b;
    } else {
      TailOfAppend(a, b);
      ReplaceAppend(a[1..], b, c, text);
      Assoc(if a[0] == c then text else [a[0]], Replace(a[1..], c, text), Replace(b, c, text));
    }
  }

  lemma {:induction false} ReplaceNothing(s: string, c: char, text: string)
    requires c !in s
    ensures Replace(s, c, text) == s
  {
    if s != [] {
      ReplaceNothing(s[1..], c, text);
      assert s == [s[0]] + s[1..];
    }
  }

  /** The three passes escape character by character. */
  lemma {:induction false} EscapeIsEach(s: string)
    ensures Escape(s) == EscapeEach(s)
  {
    if s != [] {
      var head, tail := [s[0]], s[1..];
      EscapeIsEach(tail);
      assert s == head + tail;
      ReplaceAppend(head, tail, '&', "&amp;");
      ReplaceAppend(Replace(head, '&', "&amp;"), Replace(tail, '&', "&amp;"), '<', "&lt;");
      ReplaceAppend(Replace(Replace(head, '&', "&amp;"), '<', "&lt;"),
        Replace(Replace(tail, '&', "&amp;"), '<', "&lt;"), '>', "&gt;");
      EscapeOne(s[0]);
    }
  }

  lemma ReplaceOne(c: char, what: char, text: string)
    ensures Replace([c], what, text) == if c == what then text else [c]
  {
    assert [c][1..] == [];
    assert text + [] == text;
  }

  lemma EscapeOne(c: char)
    ensures Escape([c]) == EscapeCharacter(c)
  {
    ReplaceOne(c, '&', "&amp;");
    ReplaceOne(c, '<', "&lt;");
    ReplaceOne(c, '>', "&gt;");
    ReplaceNothing("&amp;", '<', "&lt;");
    ReplaceNothing("&amp;", '>', "&gt;");
    ReplaceNothing("&lt;", '>', "&gt;");
  }

  /**
    Plain cue text with its character references resolved; no value for text with tags.
    An ampersand that starts none of these references stands for itself.
   */
  function Decode(s: string): Option<string> {
    if s == [] then Some([])
    else if s[0] == '<' then None
    else if "&amp;" <= s then Put('&', Decode(s[5..]))
    else if "&lt;" <= s then Put('<', Decode(s[4..]))
    else if "&gt;" <= s then Put('>', Decode(s[4..]))
    else Put(s[0], Decode(s[1..]))
  }

  function Put(c: char, rest: Option<string>): Option<string> {
    if rest.Some? then Some([c] + rest.value) else None
  }

  /** Decoding undoes escaping, whatever the text. */
  lemma {:induction false} DecodeOfEscape(s: string)
    ensures Decode(Escape(s)) == Some(s)
  {
    EscapeIsEach(s);
    DecodeOfEach(s);
  }

  lemma {:induction false} DecodeOfEach(s: string)
    ensures Decode(EscapeEach(s)) == Some(s)
  {
    if s != [] {
      var c, rest := s[0], EscapeEach(s[1..]);
      DecodeOfEach(s[1..]);
      assert s == [c] + s[1..];
      var whole := EscapeCharacter(c) + rest;
      if c == '&' {
        assert whole[..5] == "&amp;" && whole[5..] == rest;
      } else if c == '<' {
        assert whole[..4] == "&lt;" && whole[4..] == rest && whole[1] == 'l';
      } else if c == '>' {
        assert whole[..4] == "&gt;" && whole[4..] == rest && whole[1] == 'g';
      } else {
        assert whole[0] == c && whole[1..] == rest;
      }
    }
  }

  lemma {:induction false} EscapedMembers(s: string)
    ensures forall c | c in EscapeEach(s) :: c != '<' && c != '>' && (IsBreak(c) ==> c in s)
    ensures EscapeEach(s) == [] <==> s == []
  {
    if s != [] {
      EscapedMembers(s[1..]);
      forall c | c in EscapeEach(s) ensures c != '<' && c != '>' && (IsBreak(c) ==> c in s) {
        assert c in EscapeCharacter(s[0]) || c in EscapeEach(s[1..]);
      }
    }
  }

  lemma {:induction false} EscapedEdge(s: string)
    requires s != [] && !IsSpace(s[|s| - 1])
    ensures EscapeEach(s) != [] && !IsSpace(EscapeEach(s)[|EscapeEach(s)| - 1])
  {
    var head, tail := EscapeCharacter(s[0]), EscapeEach(s[1..]);
    assert EscapeEach(s) == head + tail;
    assert |s| == 1 ==> tail == [];
    hide *;
    if |s| == 1 {
    } else {
      EscapedEdge(s[1..]);
    }
  }

  /** Escaped text has no brackets, so no arrow, and no more breaks or blank edges than the text. */
  lemma EscapedIsPlain(s: string)
    ensures var e := EscapeEach(s);
            && '<' !in e && '>' !in e && (e == [] <==> s == [])
            && (!HasBreak(s) ==> !HasBreak(e))
            && (s != [] && !IsSpace(s[|s| - 1]) ==> !IsSpace(e[|e| - 1]))
  {
    EscapedMembers(s);
    if s != [] && !IsSpace(s[|s| - 1]) {
      EscapedEdge(s);
    }
    hide EscapeEach, IsSpace;
  }

  // -- Null characters -------------------------------------------------------------------------------

  const NUL := '\U{0}'
  const REPLACEMENT := '\U{fffd}'

  function ReplaceNul(s: string): string { Replace(s, NUL, [REPLACEMENT]) }

  lemma {:induction false} ReplaceNulInEscaped(s: string)
    ensures ReplaceNul(EscapeEach(s)) == EscapeEach(ReplaceNul(s))
  {
    if s != [] {
      ReplaceNulInEscaped(s[1..]);
      ReplaceAppend(EscapeCharacter(s[0]), EscapeEach(s[1..]), NUL, [REPLACEMENT]);
      if s[0] == NUL {
        assert ReplaceNul([NUL]) == [REPLACEMENT];
      } else {
        ReplaceNothing(EscapeCharacter(s[0]), NUL, [REPLACEMENT]);
      }
      var r := ReplaceNul(s);
      assert r[1..] == ReplaceNul(s[1..]) && r[0] == if s[0] == NUL then REPLACEMENT else s[0];
    }
  }

  lemma {:induction false} ReplaceNulChangesIff(s: string)
    ensures ReplaceNul(s) == s <==> NUL !in s
    ensures |ReplaceNul(s)| == |s|
  {
    if s != [] {
      ReplaceNulChangesIff(s[1..]);
      assert s == [s[0]] + s[1..];
      assert ReplaceNul(s)[1..] == ReplaceNul(s[1..]);
    }
  }
}
