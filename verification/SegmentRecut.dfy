/**
  Re-cutting transcript segments at speaker changes
  (transcriptions/known_speaker.py).
 */
module SegmentRecut {
  import opened Wrappers
  import opened Sequences
  import opened Turns

  const RESEGMENT_MIN_PIECE_WORDS := 2
  const RESEGMENT_MIN_PIECE_SECONDS := 0.3

  datatype Word = Word(text: string, start: real, end: real)

  datatype Segment = Segment(id: int, start: real, end: real, text: string, speaker: Option<string>, words: seq<Word>)

  /** Neighbouring words under the turn speaker that keeps them together. */
  datatype Piece = Piece(speaker: string, words: seq<Word>)

  function TurnSpeakerOf(word: Word, turns: seq<Turn>): string
    requires turns != []
  {
    TurnSpeakerAt((word.start + word.end) / 2.0, turns, Starts(turns))
  }

  function WordsOf(pieces: seq<Piece>): seq<Word> {
    if pieces == [] then [] else pieces[0].words + WordsOf(pieces[1..])
  }

  lemma {:induction false} WordsOfAppend(a: seq<Piece>, b: seq<Piece>)
    ensures WordsOf(a + b) == WordsOf(a) + WordsOf(b)
  {
    if a == [] {
      assert a + b == b;
    } else {
      assert (a + b)[0] == a[0] && (a + b)[1..] == a[1..] + b;
      WordsOfAppend(a[1..], b);
    }
  }

  // -- Grouping and folding ----------------------------------------------------------

  /** `more` goes into the last piece when that has the same speaker. */
  function Join(pieces: seq<Piece>, more: Piece): seq<Piece> {
    var n := |pieces|;
    if n > 0 && pieces[n - 1].speaker == more.speaker then
      pieces[n - 1 := Piece(more.speaker, pieces[n - 1].words + more.words)]
    else
      pieces + [more]
  }

  /** Maximal runs of words that fall into turns of one speaker. */
  function Group(words: seq<Word>, turns: seq<Turn>): seq<Piece>
    requires turns != []
  {
    if words == [] then []
    else
      var word := words[|words| - 1];
      Join(Group(words[..|words| - 1], turns), Piece(TurnSpeakerOf(word, turns), [word]))
  }

  /** Neighbours of one speaker become one piece. */
  function JoinNeighbours(pieces: seq<Piece>): seq<Piece> {
    if pieces == [] then [] else Join(JoinNeighbours(pieces[..|pieces| - 1]), pieces[|pieces| - 1])
  }

  function PieceStart(segment: Segment, pieces: seq<Piece>, position: nat): real
    requires position < |pieces| && pieces[position].words != []
  {
    if position == 0 then segment.start else pieces[position].words[0].start
  }

  function PieceEnd(segment: Segment, pieces: seq<Piece>, position: nat): real
    requires position < |pieces| && (position + 1 < |pieces| ==> pieces[position + 1].words != [])
  {
    if position + 1 == |pieces| then segment.end else pieces[position + 1].words[0].start
  }

  ghost predicate NoneEmpty(pieces: seq<Piece>) {
    forall i | 0 <= i < |pieces| :: pieces[i].words != []
  }

  predicate TooSmall(segment: Segment, pieces: seq<Piece>, position: nat)
    requires NoneEmpty(pieces) && position < |pieces|
  {
    var words := pieces[position].words;
    || |words| < RESEGMENT_MIN_PIECE_WORDS
    || words[|words| - 1].end - words[0].start < RESEGMENT_MIN_PIECE_SECONDS
    || PieceEnd(segment, pieces, position) - PieceStart(segment, pieces, position) < RESEGMENT_MIN_PIECE_SECONDS
  }

  /** The neighbour a small piece is folded into: the one before it, except for the first. */
  function FoldTarget(small: nat): nat {
    if small > 0 then small - 1 else 1
  }

  /** The small piece and its target become one piece under the target's speaker. */
  function FoldInto(pieces: seq<Piece>, small: nat): seq<Piece>
    requires small < |pieces| && |pieces| > 1
  {
    var target := FoldTarget(small);
    var first := if small < target then small else target;
    pieces[..first] + [Piece(pieces[target].speaker, pieces[first].words + pieces[first + 1].words)] +
      pieces[first + 2..]
  }

  /** The words of `segment` in pieces, neighbours of different speakers. */
  ghost predicate Pieces(segment: Segment, turns: seq<Turn>, pieces: seq<Piece>) {
    && turns != []
    && NoneEmpty(pieces)
    && WordsOf(pieces) == segment.words
    && NeighboursDiffer(pieces)
    && Labelled(pieces, turns)
  }

  ghost predicate NeighboursDiffer(pieces: seq<Piece>) {
    forall i, j | 0 <= i < j < |pieces| && j == i + 1 :: pieces[i].speaker != pieces[j].speaker
  }

  /** Every piece has a word that falls into a turn of its speaker. */
  ghost predicate Labelled(pieces: seq<Piece>, turns: seq<Turn>)
    requires turns != []
  {
    forall i | 0 <= i < |pieces| :: HasWordOfSpeaker(pieces[i], turns)
  }

  ghost predicate HasWordOfSpeaker(piece: Piece, turns: seq<Turn>)
    requires turns != []
  {
    exists word :: word in piece.words && TurnSpeakerOf(word, turns) == piece.speaker
  }

  lemma JoinKeeps(pieces: seq<Piece>, more: Piece, turns: seq<Turn>)
    requires turns != [] && NoneEmpty(pieces) && more.words != []
    requires Labelled(pieces, turns) && HasWordOfSpeaker(more, turns)
    ensures NoneEmpty(Join(pieces, more)) && Labelled(Join(pieces, more), turns)
    ensures WordsOf(Join(pieces, more)) == WordsOf(pieces) + more.words
    ensures NeighboursDiffer(pieces) ==> NeighboursDiffer(Join(pieces, more))
    ensures |Join(pieces, more)| <= |pieces| + 1
  {
    JoinKeepsWords(pieces, more);
    hide TurnSpeakerOf, WordsOf;
    var n := |pieces|;
    if n > 0 && pieces[n - 1].speaker == more.speaker {
      assert Join(pieces, more) == pieces[..n - 1] + [Piece(more.speaker, pieces[n - 1].words + more.words)];
      WordStays(more, Piece(more.speaker, pieces[n - 1].words + more.words), turns);
    } else {
      assert Join(pieces, more) == pieces + [more];
    }
  }

  lemma JoinKeepsWords(pieces: seq<Piece>, more: Piece)
    ensures WordsOf(Join(pieces, more)) == WordsOf(pieces) + more.words
  {
    var n := |pieces|;
    if n > 0 && pieces[n - 1].speaker == more.speaker {
      var joined := Piece(more.speaker, pieces[n - 1].words + more.words);
      WordsOfOneMore(pieces[..n - 1], joined);
      WordsOfOneMore(pieces[..n - 1], pieces[n - 1]);
      hide WordsOf;
      assert Join(pieces, more) == pieces[..n - 1] + [joined];
      assert pieces == pieces[..n - 1] + [pieces[n - 1]];
      assert WordsOf(pieces[..n - 1]) + (pieces[n - 1].words + more.words) ==
        WordsOf(pieces[..n - 1]) + pieces[n - 1].words + more.words;
    } else {
      WordsOfOneMore(pieces, more);
    }
  }

  lemma WordsOfOneMore(pieces: seq<Piece>, more: Piece)
    ensures WordsOf(pieces + [more]) == WordsOf(pieces) + more.words
  {
    WordsOfAppend(pieces, [more]);
    assert WordsOf([more]) == more.words by { assert [more][1..] == []; }
  }

  lemma WordStays(piece: Piece, longer: Piece, turns: seq<Turn>)
    requires turns != [] && HasWordOfSpeaker(piece, turns)
    requires longer.speaker == piece.speaker && forall word | word in piece.words :: word in longer.words
    ensures HasWordOfSpeaker(longer, turns)
  {
  }

  lemma {:induction false} GroupIsPieces(words: seq<Word>, turns: seq<Turn>)
    requires turns != []
    ensures NoneEmpty(Group(words, turns)) && Labelled(Group(words, turns), turns)
    ensures WordsOf(Group(words, turns)) == words && NeighboursDiffer(Group(words, turns))
  {
    hide TurnSpeakerOf;
    if words != [] {
      var init, word := words[..|words| - 1], words[|words| - 1];
      GroupIsPieces(init, turns);
      var more := Piece(TurnSpeakerOf(word, turns), [word]);
      assert word in more.words;
      JoinKeeps(Group(init, turns), more, turns);
      assert words == init + [word];
    }
  }

  lemma {:induction false} JoinNeighboursKeeps(pieces: seq<Piece>, turns: seq<Turn>)
    requires turns != [] && NoneEmpty(pieces) && Labelled(pieces, turns)
    ensures NoneEmpty(JoinNeighbours(pieces)) && Labelled(JoinNeighbours(pieces), turns)
    ensures WordsOf(JoinNeighbours(pieces)) == WordsOf(pieces)
    ensures NeighboursDiffer(JoinNeighbours(pieces))
    ensures |JoinNeighbours(pieces)| <= |pieces|
  {
    hide TurnSpeakerOf;
    if pieces != [] {
      var init, last := pieces[..|pieces| - 1], pieces[|pieces| - 1];
      JoinNeighboursKeeps(init, turns);
      JoinKeeps(JoinNeighbours(init), last, turns);
      assert pieces == init + [last];
      WordsOfAppend(init, [last]);
    }
  }

  lemma WordsOfThree(a: seq<Piece>, b: seq<Piece>, c: seq<Piece>)
    ensures WordsOf(a + b + c) == WordsOf(a) + WordsOf(b) + WordsOf(c)
  {
    WordsOfAppend(a + b, c);
    WordsOfAppend(a, b);
  }

  lemma WordsOfPair(a: Piece, b: Piece)
    ensures WordsOf([a]) == a.words
    ensures WordsOf([a, b]) == a.words + b.words
  {
    assert [a, b][1..] == [b] && [b][1..] == [];
  }

  lemma FoldKeepsWords(pieces: seq<Piece>, small: nat)
    requires small < |pieces| && |pieces| > 1
    ensures WordsOf(FoldInto(pieces, small)) == WordsOf(pieces)
  {
    hide *;
    var target := FoldTarget(small);
    var first := if small < target then small else target;
    FoldParts(pieces, small, first);
    var before, rest := pieces[..first], pieces[first + 2..];
    var a, b := pieces[first], pieces[first + 1];
    var folded := Piece(pieces[target].speaker, a.words + b.words);
    WordsOfThree(before, [folded], rest);
    WordsOfPair(folded, folded);
    WordsOfPair(a, b);
    WordsOfThree(before, [a, b], rest);
  }

  lemma FoldParts(pieces: seq<Piece>, small: nat, first: nat)
    requires small < |pieces| && |pieces| > 1 && first == if small < FoldTarget(small) then small else FoldTarget(small)
    ensures first + 1 < |pieces| && FoldTarget(small) < |pieces|
    ensures pieces == pieces[..first] + [pieces[first], pieces[first + 1]] + pieces[first + 2..]
    ensures FoldInto(pieces, small)
         == pieces[..first] + [Piece(pieces[FoldTarget(small)].speaker,
           pieces[first].words + pieces[first + 1].words)] + pieces[first + 2..]
  {
  }

  lemma FoldKeeps(pieces: seq<Piece>, small: nat, turns: seq<Turn>)
    requires turns != [] && NoneEmpty(pieces) && Labelled(pieces, turns)
    requires small < |pieces| && |pieces| > 1
    ensures NoneEmpty(FoldInto(pieces, small)) && Labelled(FoldInto(pieces, small), turns)
    ensures WordsOf(FoldInto(pieces, small)) == WordsOf(pieces)
    ensures |FoldInto(pieces, small)| == |pieces| - 1
  {
    hide TurnSpeakerOf;
    FoldKeepsWords(pieces, small);
    hide WordsOf;
    var target := FoldTarget(small);
    var first := if small < target then small else target;
    var r := FoldInto(pieces, small);
    var folded := r[first];
    assert HasWordOfSpeaker(folded, turns) by {
      assert HasWordOfSpeaker(pieces[target], turns);
      var word :| word in pieces[target].words && TurnSpeakerOf(word, turns) == folded.speaker;
      assert word in folded.words;
    }
    forall i | 0 <= i < |r| ensures HasWordOfSpeaker(r[i], turns) && r[i].words != [] {
      if i < first {
        assert r[i] == pieces[i];
      } else if i > first {
        assert r[i] == pieces[i + 1];
      }
    }
  }

  /** `small` is the first piece that is too small. */
  ghost predicate FirstSmall(segment: Segment, pieces: seq<Piece>, small: nat)
    requires NoneEmpty(pieces)
  {
    && small < |pieces| && TooSmall(segment, pieces, small)
    && forall i: nat | i < small :: !TooSmall(segment, pieces, i)
  }

  ghost predicate AllLargeEnough(segment: Segment, pieces: seq<Piece>)
    requires NoneEmpty(pieces)
  {
    forall i: nat | i < |pieces| :: !TooSmall(segment, pieces, i)
  }

  /** Folding the first small piece, until one piece is left or none is too small. */
  ghost predicate Settles(segment: Segment, turns: seq<Turn>, pieces: seq<Piece>, settled: seq<Piece>)
    requires turns != [] && NoneEmpty(pieces) && Labelled(pieces, turns)
    decreases |pieces|
  {
    if |pieces| <= 1 || AllLargeEnough(segment, pieces) then
      settled == pieces
    else
      exists small: nat :: FirstSmall(segment, pieces, small) && (
        FoldKeeps(pieces, small, turns);
        JoinNeighboursKeeps(FoldInto(pieces, small), turns);
        Settles(segment, turns, JoinNeighbours(FoldInto(pieces, small)), settled))
  }

  // -- Splitting one segment -----------------------------------------------------------

  function JoinTexts(words: seq<Word>): string {
    if words == [] then ""
    else if |words| == 1 then words[0].text
    else words[0].text + " " + JoinTexts(words[1..])
  }

  /** The text of some words is their texts in order with one blank between any two. */
  lemma {:induction false} TextsAreJoined(a: seq<Word>, b: seq<Word>)
    requires a != [] && b != []
    ensures JoinTexts(a + b) == JoinTexts(a) + " " + JoinTexts(b)
    ensures |a| == 1 ==> JoinTexts(a) == a[0].text
  {
    assert (a + b)[1..] == a[1..] + b && (a + b)[0] == a[0];
    if |a| > 1 {
      TextsAreJoined(a[1..], b);
    } else {
      assert a[1..] + b == b;
    }
  }

  function Emit(segment: Segment, pieces: seq<Piece>, position: nat): Segment
    requires NoneEmpty(pieces) && position < |pieces|
  {
    var words := pieces[position].words;
    Segment(segment.id, PieceStart(segment, pieces, position), PieceEnd(segment, pieces, position),
            JoinTexts(words), segment.speaker, words)
  }

  function WordsIn(segments: seq<Segment>): seq<Word> {
    if segments == [] then [] else segments[0].words + WordsIn(segments[1..])
  }

  /**
    A split into two or more segments: they hold exactly the words in order, tile
    the time of `segment`, are long enough, and neighbours belong to different
    turn speakers, each of whom speaks at least one word of the segment.
   */
  ghost predicate IsSplit(segment: Segment, turns: seq<Turn>, out: seq<Segment>, speakers: seq<string>) {
    && turns != [] && |out| == |speakers| >= 2
    && WordsIn(out) == segment.words
    && out[0].start == segment.start && out[|out| - 1].end == segment.end
    && (forall i, j | 0 <= i < j < |out| && j == i + 1 ::
          out[i].end == out[j].start && speakers[i] != speakers[j])
    && (forall i | 0 <= i < |out| :: IsPart(segment, turns, out[i], speakers[i]))
    && (forall i | 0 < i < |out| :: out[i].start == out[i].words[0].start)
  }

  ghost predicate IsPart(segment: Segment, turns: seq<Turn>, part: Segment, speaker: string)
    requires turns != []
  {
    && |part.words| >= RESEGMENT_MIN_PIECE_WORDS
    && part.words[|part.words| - 1].end - part.words[0].start >= RESEGMENT_MIN_PIECE_SECONDS
    && part.end - part.start >= RESEGMENT_MIN_PIECE_SECONDS
    && HasWordOfSpeaker(Piece(speaker, part.words), turns)
    && part.text == JoinTexts(part.words)
    && part.id == segment.id && part.speaker == segment.speaker
  }

  /** `out` is what the settled pieces of the segment's words come out as. */
  ghost predicate RecutOf(segment: Segment, turns: seq<Turn>, out: seq<Segment>, settled: seq<Piece>) {
    if segment.words == [] || |turns| < 2 then
      out == [segment]
    else
      && NoneEmpty(settled)
      && (GroupIsPieces(segment.words, turns);
          Settles(segment, turns, Group(segment.words, turns), settled))
      && if |settled| < 2 then out == [segment]
         else |out| == |settled| && forall i: nat | i < |settled| :: out[i] == Emit(segment, settled, i)
  }

  lemma {:induction false} EmittedWords(segment: Segment, pieces: seq<Piece>, out: seq<Segment>)
    requires |out| == |pieces| && forall i | 0 <= i < |pieces| :: out[i].words == pieces[i].words
    ensures WordsIn(out) == WordsOf(pieces)
  {
    if pieces != [] {
      EmittedWords(segment, pieces[1..], out[1..]);
    }
  }

  lemma PieceIsPart(segment: Segment, turns: seq<Turn>, pieces: seq<Piece>, i: nat)
    requires Pieces(segment, turns, pieces) && i < |pieces|
    requires AllLargeEnough(segment, pieces)
    ensures IsPart(segment, turns, Emit(segment, pieces, i), pieces[i].speaker)
  {
    hide TurnSpeakerOf, WordsOf, JoinTexts;
    assert !TooSmall(segment, pieces, i);
    assert HasWordOfSpeaker(pieces[i], turns);
  }

  lemma PiecesSplit(segment: Segment, turns: seq<Turn>, pieces: seq<Piece>, out: seq<Segment>, speakers: seq<string>)
    requires Pieces(segment, turns, pieces) && |pieces| >= 2
    requires AllLargeEnough(segment, pieces)
    requires |out| == |pieces| == |speakers|
    requires forall i: nat | i < |pieces| :: out[i] == Emit(segment, pieces, i) && speakers[i] == pieces[i].speaker
    ensures IsSplit(segment, turns, out, speakers)
  {
    hide TurnSpeakerOf, IsPart, JoinTexts, TooSmall;
    EmittedWords(segment, pieces, out);
    hide WordsOf, WordsIn;
    forall i: nat | i < |out| ensures IsPart(segment, turns, out[i], speakers[i]) {
      PieceIsPart(segment, turns, pieces, i);
    }
  }

  method SplitSegmentAtTurns(segment: Segment, turns: seq<Turn>)
    returns (out: seq<Segment>, ghost settled: seq<Piece>, ghost speakers: seq<string>)
    ensures RecutOf(segment, turns, out, settled)
    ensures out == [segment] || IsSplit(segment, turns, out, speakers)
  {
    hide TurnSpeakerOf, JoinTexts;
    settled, speakers := [], [];
    if segment.words == [] || |turns| < 2 {
      return [segment], [], [];
    }
    var pieces: seq<Piece> := [];
    for i := 0 to |segment.words|
      invariant pieces == Group(segment.words[..i], turns)
    {
      var word := segment.words[i];
      assert segment.words[..i + 1][..i] == segment.words[..i];
      pieces := Join(pieces, Piece(TurnSpeakerOf(word, turns), [word]));
    }
    assert segment.words[..|segment.words|] == segment.words;
    pieces := FoldSmallPieces(segment, turns, pieces);
    settled := pieces;
    if |pieces| < 2 {
      return [segment], pieces, [];
    }
    out := [];
    for position := 0 to |pieces|
      invariant |out| == |speakers| == position
      invariant forall i: nat | i < position :: out[i] == Emit(segment, pieces, i) && speakers[i] == pieces[i].speaker
    {
      out := out + [Emit(segment, pieces, position)];
      speakers := speakers + [pieces[position].speaker];
    }
    PiecesSplit(segment, turns, pieces, out, speakers);
  }

  method JoinAll(folded: seq<Piece>) returns (joined: seq<Piece>)
    ensures joined == JoinNeighbours(folded)
  {
    joined := [];
    for i := 0 to |folded|
      invariant joined == JoinNeighbours(folded[..i])
    {
      assert folded[..i + 1][..i] == folded[..i];
      joined := Join(joined, folded[i]);
    }
    assert folded[..|folded|] == folded;
  }

  /** The fold loop: it ends because every round leaves fewer pieces. */
  method FoldSmallPieces(segment: Segment, turns: seq<Turn>, grouped: seq<Piece>) returns (pieces: seq<Piece>)
    requires turns != [] && grouped == Group(segment.words, turns)
    ensures Pieces(segment, turns, pieces)
    ensures |pieces| >= 2 ==> AllLargeEnough(segment, pieces)
    ensures NoneEmpty(grouped) && Labelled(grouped, turns) && Settles(segment, turns, grouped, pieces)
  {
    hide TurnSpeakerOf, TooSmall, FoldInto, Join, JoinNeighbours, WordsOf, NeighboursDiffer, Group;
    GroupIsPieces(segment.words, turns);
    pieces := grouped;
    while |pieces| > 1
      invariant Pieces(segment, turns, pieces)
      invariant forall settled :: Settles(segment, turns, pieces, settled) ==> Settles(segment, turns, grouped, settled)
      decreases |pieces|
    {
      var small := 0;
      while small < |pieces| && !TooSmall(segment, pieces, small)
        invariant small <= |pieces|
        invariant forall i: nat | i < small :: !TooSmall(segment, pieces, i)
      {
        small := small + 1;
      }
      if small == |pieces| {
        break;
      }
      assert FirstSmall(segment, pieces, small);
      var folded := FoldInto(pieces, small);
      FoldKeeps(pieces, small, turns);
      JoinNeighboursKeeps(folded, turns);
      pieces := JoinAll(folded);
    }
  }

  // -- The whole transcript ---------------------------------------------------------------

  /** Segment `i` of `parts` is the re-cut of segment `i` of `segments`. */
  ghost predicate RecutsOf(segments: seq<Segment>, turns: seq<Turn>, parts: seq<seq<Segment>>) {
    |parts| == |segments| &&
    forall i | 0 <= i < |segments| :: IsRecut(segments[i], turns, parts[i])
  }

  ghost predicate IsRecut(segment: Segment, turns: seq<Turn>, part: seq<Segment>) {
    && (exists settled :: RecutOf(segment, turns, part, settled))
    && (part == [segment] || exists speakers :: IsSplit(segment, turns, part, speakers))
  }

  function Flatten(parts: seq<seq<Segment>>): seq<Segment> {
    if parts == [] then [] else Flatten(parts[..|parts| - 1]) + parts[|parts| - 1]
  }

  /** The number of segments that came out of a split. */
  function FromSplit(parts: seq<seq<Segment>>): nat {
    if parts == [] then 0
    else
      var last := parts[|parts| - 1];
      FromSplit(parts[..|parts| - 1]) + if |last| > 1 then |last| else 0
  }

  ghost predicate Renumbered(segments: seq<Segment>, out: seq<Segment>) {
    |out| == |segments| && forall i | 0 <= i < |out| :: out[i] == segments[i].(id := i)
  }

  lemma {:induction false} WordsInAppend(a: seq<Segment>, b: seq<Segment>)
    ensures WordsIn(a + b) == WordsIn(a) + WordsIn(b)
  {
    if a == [] {
      assert a + b == b;
    } else {
      TailOfAppend(a, b);
      WordsInAppend(a[1..], b);
      Assoc(a[0].words, WordsIn(a[1..]), WordsIn(b));
    }
  }

  lemma {:induction false} RenumberingKeepsWords(segments: seq<Segment>, out: seq<Segment>)
    requires |out| == |segments| && forall i | 0 <= i < |out| :: out[i].words == segments[i].words
    ensures WordsIn(out) == WordsIn(segments)
  {
    if out != [] {
      RenumberingKeepsWords(segments[1..], out[1..]);
    }
  }

  lemma {:induction false} RecutsKeepWords(segments: seq<Segment>, turns: seq<Turn>, parts: seq<seq<Segment>>)
    requires RecutsOf(segments, turns, parts)
    ensures WordsIn(Flatten(parts)) == WordsIn(segments)
  {
    if parts != [] {
      var n := |parts| - 1;
      assert segments == segments[..n] + [segments[n]];
      assert IsRecut(segments[n], turns, parts[n]);
      hide WordsIn, IsRecut;
      RecutsKeepWords(segments[..n], turns, parts[..n]);
      WordsInAppend(Flatten(parts[..n]), parts[n]);
      WordsInAppend(segments[..n], [segments[n]]);
    }
  }

  lemma RecutsExtend(segments: seq<Segment>, i: nat, turns: seq<Turn>, parts: seq<seq<Segment>>, part: seq<Segment>)
    requires i < |segments| && RecutsOf(segments[..i], turns, parts) && IsRecut(segments[i], turns, part)
    ensures RecutsOf(segments[..i + 1], turns, parts + [part])
    ensures Flatten(parts + [part]) == Flatten(parts) + part
    ensures FromSplit(parts + [part]) == FromSplit(parts) + if |part| > 1 then |part| else 0
  {
    hide IsRecut;
    var more := parts + [part];
    assert more[..|more| - 1] == parts;
    forall k | 0 <= k < i ensures IsRecut(segments[..i + 1][k], turns, more[k]) {
      assert IsRecut(segments[..i][k], turns, parts[k]);
    }
  }

  method ResegmentResult(segments: seq<Segment>, turns: seq<Turn>)
    returns (out: seq<Segment>, fromSplit: nat, ghost parts: seq<seq<Segment>>)
    ensures RecutsOf(segments, turns, parts)
    ensures Renumbered(Flatten(parts), out) && fromSplit == FromSplit(parts)
    ensures WordsIn(out) == WordsIn(segments)
  {
    hide *;
    out, fromSplit, parts := [], 0, [];
    NothingRecut(turns);
    for i := 0 to |segments|
      invariant RecutsOf(segments[..i], turns, parts)
      invariant Renumbered(Flatten(parts), out) && fromSplit == FromSplit(parts)
    {
      var pieces;
      ghost var settled, speakers;
      pieces, settled, speakers := SplitSegmentAtTurns(segments[i], turns);
      SplitIsRecut(segments[i], turns, pieces, settled, speakers);
      if |pieces| > 1 {
        fromSplit := fromSplit + |pieces|;
      }
      RecutsExtend(segments, i, turns, parts, pieces);
      ghost var before := Flatten(parts);
      assert before + pieces[..0] == before;
      for k := 0 to |pieces|
        invariant Renumbered(before + pieces[..k], out)
      {
        RenumberedExtends(before, pieces, k, out);
        out := out + [pieces[k].(id := |out|)];
      }
      assert pieces[..|pieces|] == pieces;
      parts := parts + [pieces];
    }
    assert segments[..|segments|] == segments;
    RecutsKeepWords(segments, turns, parts);
    RenumberedKeepsWords(Flatten(parts), out);
  }

  lemma RenumberedKeepsWords(segments: seq<Segment>, out: seq<Segment>)
    requires Renumbered(segments, out)
    ensures WordsIn(out) == WordsIn(segments)
  {
    RenumberingKeepsWords(segments, out);
  }

  lemma NothingRecut(turns: seq<Turn>)
    ensures RecutsOf([], turns, []) && Renumbered(Flatten([]), []) && FromSplit([]) == 0
  {
  }

  lemma SplitIsRecut(segment: Segment, turns: seq<Turn>, part: seq<Segment>, settled: seq<Piece>, speakers: seq<string>)
    requires RecutOf(segment, turns, part, settled)
    requires part == [segment] || IsSplit(segment, turns, part, speakers)
    ensures IsRecut(segment, turns, part)
  {
  }

  lemma RenumberedExtends(before: seq<Segment>, pieces: seq<Segment>, k: nat, out: seq<Segment>)
    requires k < |pieces| && Renumbered(before + pieces[..k], out)
    ensures Renumbered(before + pieces[..k + 1], out + [pieces[k].(id := |out|)])
  {
  }
}
