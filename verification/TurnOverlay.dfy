/**
  Cutting the unmapped diarization turns into the speaker track
  (transcriptions/known_speaker.py).
 */
module TurnOverlay {
  import opened Turns
  import opened TurnSweep
  import StableSort

  const UNMAPPED_TURN_PREFIX := "unmapped:"

  /** Without track turns the whole file is one neutral turn. */
  function Base(turns: seq<Turn>): seq<Turn> {
    if turns == [] then [Turn(0.0, Never, "")] else turns
  }

  ghost predicate Held(unmapped: seq<Turn>, x: real) {
    exists name :: Holds(unmapped, x, name)
  }

  /**
    The speaker of the overlaid track at `x`: the prefixed label of the
    last-started unmapped turn covering `x`, otherwise the track's speaker.
   */
  ghost predicate OverlayMeaning(turns: seq<Turn>, unmapped: seq<Turn>, x: real, speaker: string) {
    || (exists name :: Holds(unmapped, x, name) && speaker == "unmapped:" + name)
    || (!Held(unmapped, x) && if turns == [] then x >= 0.0 && speaker == "" else Speaks(turns, x, speaker))
  }

  ghost predicate Covered(turns: seq<Turn>, x: real) {
    exists turn :: turn in turns && Covers(turn, x)
  }

  predicate StartsNoLater(a: Turn, b: Turn) {
    a.start <= b.start
  }

  /** No time is covered by both turns. */
  predicate Apart(a: Turn, b: Turn) {
    !Before(At(a.start), b.end) || !Before(At(b.start), a.end)
  }

  // -- Cutting one track turn ----------------------------------------------------

  /**
    `pieces` are the parts of `turn` before `at` that no cut covers, and no cut
    among the first `done` reaches past `at` within the turn.
   */
  ghost predicate CutTo(turn: Turn, cuts: seq<Turn>, done: nat, pieces: seq<Turn>, at: Bound) {
    && done <= |cuts| && !Before(at, At(turn.start))
    && Ordered(pieces)
    && (forall piece | piece in pieces :: turn.start <= piece.start && !Before(turn.end, piece.end)
                                          && !Before(at, piece.end) && piece.speaker == turn.speaker)
    && (forall x | Covers(turn, x) && Before(At(x), at) :: Covered(pieces, x) <==> !Covered(cuts, x))
    && (forall i, x | 0 <= i < done && Covers(turn, x) && Covers(cuts[i], x) :: Before(At(x), at))
  }

  lemma AppendInOrder(pieces: seq<Turn>, piece: Turn)
    requires Ordered(pieces) && Positive(piece)
    requires forall other | other in pieces :: !Before(At(piece.start), other.end)
    ensures Ordered(pieces + [piece])
    ensures forall x :: Covered(pieces + [piece], x) <==> Covered(pieces, x) || Covers(piece, x)
    ensures forall x, s :: Speaks(pieces + [piece], x, s) <==>
        Speaks(pieces, x, s) || (Covers(piece, x) && piece.speaker == s)
  {
    assert piece in pieces + [piece];
    forall i | 0 <= i < |pieces| ensures !Before(At(piece.start), pieces[i].end) {
      assert pieces[i] in pieces;
    }
  }

  /** The free time before the next cut becomes a piece. */
  lemma KeepBeforeCut(turn: Turn, cuts: seq<Turn>, done: nat, pieces: seq<Turn>, at: real)
    requires CutTo(turn, cuts, done, pieces, At(at)) && done < |cuts| && Ordered(cuts)
    requires at < cuts[done].start && Before(At(cuts[done].start), turn.end)
    ensures CutTo(turn, cuts, done, pieces + [Turn(at, At(cuts[done].start), turn.speaker)], At(cuts[done].start))
  {
    var piece := Turn(at, At(cuts[done].start), turn.speaker);
    var more := pieces + [piece];
    AppendInOrder(pieces, piece);
    forall x | Covers(turn, x) && x < cuts[done].start
      ensures Covered(more, x) <==> !Covered(cuts, x)
    {
      if at <= x {
      }
    }
  }

  /** The time under a cut that already started is skipped. */
  lemma SkipUnderCut(turn: Turn, cuts: seq<Turn>, done: nat, pieces: seq<Turn>, at: real)
    requires CutTo(turn, cuts, done, pieces, At(at)) && done < |cuts|
    requires Covers(cuts[done], at)
    ensures CutTo(turn, cuts, done + 1, pieces, cuts[done].end)
  {
    var cut := cuts[done];
    assert cut in cuts;
    forall x | Covers(turn, x) && Before(At(x), cut.end)
      ensures Covered(pieces, x) <==> !Covered(cuts, x)
    {
      if at <= x {
        assert Covers(cut, x);
      }
    }
  }

  lemma ApplyCut(turn: Turn, cuts: seq<Turn>, done: nat, pieces: seq<Turn>, at: Bound)
    requires CutTo(turn, cuts, done, pieces, at) && done < |cuts| && Ordered(cuts) && at.At?
    requires Before(at, cuts[done].end) && Before(At(cuts[done].start), turn.end)
    ensures CutTo(turn, cuts, done + 1,
              if cuts[done].start > at.time then pieces + [Turn(at.time, At(cuts[done].start), turn.speaker)]
                else pieces,
              Later(at, cuts[done].end))
  {
    var cut := cuts[done];
    assert Positive(cut);
    if cut.start > at.time {
      KeepBeforeCut(turn, cuts, done, pieces, at.time);
      SkipUnderCut(turn, cuts, done, pieces + [Turn(at.time, At(cut.start), turn.speaker)], cut.start);
    } else {
      SkipUnderCut(turn, cuts, done, pieces, at.time);
    }
  }

  /** What is left of the turn after the last cut is one more piece. */
  lemma FinishTurn(turn: Turn, cuts: seq<Turn>, pieces: seq<Turn>, at: Bound)
    requires CutTo(turn, cuts, |cuts|, pieces, at)
    ensures var whole := if Before(at, turn.end) then pieces + [Turn(at.time, turn.end, turn.speaker)] else pieces;
            CutTo(turn, cuts, |cuts|, whole, Later(at, turn.end))
  {
    if Before(at, turn.end) {
      var piece := Turn(at.time, turn.end, turn.speaker);
      AppendInOrder(pieces, piece);
      var whole := pieces + [piece];
      forall x | Covers(turn, x) ensures Covered(whole, x) <==> !Covered(cuts, x) {
        if at.time <= x {
          assert !Covered(pieces, x);
          forall cut | cut in cuts ensures !Covers(cut, x) {
            var i :| 0 <= i < |cuts| && cuts[i] == cut;
          }
        }
      }
    }
  }

  // -- Cutting the whole track ---------------------------------------------------

  /** The parts of the first `done` track turns that no cut covers, in order. */
  ghost predicate TrackCut(turns: seq<Turn>, done: nat, cuts: seq<Turn>, pieces: seq<Turn>) {
    && done <= |turns|
    && Ordered(pieces)
    && (forall piece | piece in pieces :: piece.start >= 0.0)
    && (done < |turns| ==> forall piece | piece in pieces :: !Before(At(turns[done].start), piece.end))
    && (forall x, s :: Speaks(pieces, x, s) <==> Speaks(turns[..done], x, s) && !Covered(cuts, x))
  }

  lemma SpeaksAppend(a: seq<Turn>, b: seq<Turn>, x: real, speaker: string)
    ensures Speaks(a + b, x, speaker) <==> Speaks(a, x, speaker) || Speaks(b, x, speaker)
  {
    assert forall turn :: turn in a + b <==> turn in a || turn in b;
  }

  lemma OrderedAppend(a: seq<Turn>, b: seq<Turn>, start: real)
    requires Ordered(a) && Ordered(b)
    requires forall turn | turn in a :: !Before(At(start), turn.end)
    requires forall turn | turn in b :: start <= turn.start
    ensures Ordered(a + b)
  {
    forall i, j | 0 <= i < |a| && 0 <= j < |b| ensures !Before(At(b[j].start), a[i].end) {
      assert a[i] in a && b[j] in b;
    }
  }

  lemma CutNextTurn(turns: seq<Turn>, done: nat, cuts: seq<Turn>, pieces: seq<Turn>, more: seq<Turn>, at: Bound)
    requires Tiles(turns) && done < |turns|
    requires TrackCut(turns, done, cuts, pieces)
    requires CutTo(turns[done], cuts, |cuts|, more, at) && !Before(at, turns[done].end)
    ensures TrackCut(turns, done + 1, cuts, pieces + more)
  {
    var turn := turns[done];
    if done > 0 {
      TilesAreOrdered(turns, 0, done);
    }
    OrderedAppend(pieces, more, turn.start);
    assert turns[..done + 1] == turns[..done] + [turn];
    forall x, s
      ensures Speaks(pieces + more, x, s) <==> Speaks(turns[..done + 1], x, s) && !Covered(cuts, x)
    {
      SpeaksAppend(pieces, more, x, s);
      SpeaksAppend(turns[..done], [turn], x, s);
      assert Speaks([turn], x, s) <==> Covers(turn, x) && turn.speaker == s;
    }
    if done + 1 < |turns| {
      assert turns[done].end == At(turns[done + 1].start);
      TilesAreOrdered(turns, done, done + 1);
    }
  }

  function Prefixed(turns: seq<Turn>): (r: seq<Turn>)
    ensures |r| == |turns|
    ensures forall i | 0 <= i < |turns| ::
              r[i] == Turn(turns[i].start, turns[i].end, UNMAPPED_TURN_PREFIX + turns[i].speaker)
  {
    if turns == [] then []
    else [Turn(turns[0].start, turns[0].end, UNMAPPED_TURN_PREFIX + turns[0].speaker)] + Prefixed(turns[1..])
  }

  // -- Putting the pieces together -------------------------------------------------

  lemma ApartTurns(a: Turn, b: Turn)
    requires Positive(a) && Positive(b)
    requires forall x :: !(Covers(a, x) && Covers(b, x))
    ensures Apart(a, b)
  {
    if !Apart(a, b) {
      var x := if a.start <= b.start then b.start else a.start;
      assert Covers(a, x) && Covers(b, x);
    }
  }

  /** Disjoint turns in start order that leave no time from 0 uncovered tile the line. */
  lemma GaplessTurnsTile(s: seq<Turn>)
    requires forall i | 0 <= i < |s| :: Positive(s[i]) && s[i].start >= 0.0
    requires StableSort.Sorted(s, StartsNoLater) && StableSort.Pairwise(s, Apart)
    requires forall x | x >= 0.0 :: Covered(s, x)
    ensures Tiles(s)
  {
    assert Covered(s, 0.0);
    hide Covered, Covers;
    forall i, j | 0 <= i < j < |s| && j == i + 1 ensures s[i].end == At(s[j].start) {
      assert StartsNoLater(s[i], s[j]) && Apart(s[i], s[j]);
      NoGapAfter(s, i);
    }
    var last := |s| - 1;
    if s[last].end.At? {
      NoGapAfter(s, last);
      assert false;
    }
  }

  lemma NoGapAfter(s: seq<Turn>, i: nat)
    requires forall k | 0 <= k < |s| :: Positive(s[k]) && s[k].start >= 0.0
    requires StableSort.Sorted(s, StartsNoLater) && StableSort.Pairwise(s, Apart)
    requires forall x | x >= 0.0 :: Covered(s, x)
    requires i < |s| && s[i].end.At?
    ensures i + 1 < |s| && s[i + 1].start <= s[i].end.time
  {
    var x := s[i].end.time;
    assert Covered(s, x);
    var next :| next in s && Covers(next, x);
    var j :| 0 <= j < |s| && s[j] == next;
    assert StartsNoLater(s[i + 1], s[j]) || j == i + 1;
  }

  lemma Assemble(turns: seq<Turn>, unmapped: seq<Turn>, cuts: seq<Turn>, pieces: seq<Turn>, out: seq<Turn>)
    requires Tiles(turns) && TrackCut(turns, |turns|, cuts, pieces)
    requires ResolutionOf(cuts, unmapped) && forall turn | turn in unmapped :: turn.start >= 0.0
    requires out == StableSort.Sort(pieces + Prefixed(cuts), StartsNoLater)
    ensures Tiles(out)
    ensures forall x, s :: Speaks(out, x, s) <==> Speaks(pieces, x, s) || Speaks(Prefixed(cuts), x, s)
  {
    var labelled := Prefixed(cuts);
    var all := pieces + labelled;
    StableSort.SortMembers(all, StartsNoLater);
    StableSort.SortSorted(all, StartsNoLater);
    forall i | 0 <= i < |cuts| ensures labelled[i].start >= 0.0 && Positive(labelled[i]) {
      CutsStartLate(unmapped, cuts, i);
    }
    forall x, i, j | 0 <= i < |pieces| && 0 <= j < |labelled|
      ensures !(Covers(pieces[i], x) && Covers(labelled[j], x))
    {
      if Covers(pieces[i], x) && Covers(labelled[j], x) {
        assert Speaks(pieces, x, pieces[i].speaker);
        assert cuts[j] in cuts && Covers(cuts[j], x);
      }
    }
    assert StableSort.Pairwise(all, Apart) by {
      forall i, j | 0 <= i < j < |all| ensures Apart(all[i], all[j]) {
        if i < |pieces| <= j {
          ApartTurns(pieces[i], labelled[j - |pieces|]);
        } else if |pieces| <= i {
          assert !Before(At(cuts[j - |pieces|].start), cuts[i - |pieces|].end);
        }
      }
    }
    StableSort.SortPairwise(all, StartsNoLater, Apart);
    forall x | x >= 0.0 ensures Covered(out, x) {
      EveryTimeIsSpoken(turns, cuts, pieces, x);
    }
    forall i | 0 <= i < |out| ensures Positive(out[i]) && out[i].start >= 0.0 {
      assert out[i] in out;
      assert out[i] in all;
    }
    GaplessTurnsTile(out);
  }

  lemma CutsStartLate(unmapped: seq<Turn>, cuts: seq<Turn>, i: nat)
    requires ResolutionOf(cuts, unmapped) && forall turn | turn in unmapped :: turn.start >= 0.0
    requires i < |cuts|
    ensures cuts[i].start >= 0.0 && Positive(cuts[i])
  {
    assert cuts[i] in cuts && Covers(cuts[i], cuts[i].start);
    assert Speaks(cuts, cuts[i].start, cuts[i].speaker);
    assert Holds(unmapped, cuts[i].start, cuts[i].speaker);
  }

  lemma EveryTimeIsSpoken(turns: seq<Turn>, cuts: seq<Turn>, pieces: seq<Turn>, x: real)
    requires Tiles(turns) && TrackCut(turns, |turns|, cuts, pieces) && x >= 0.0
    ensures Covered(pieces + Prefixed(cuts), x)
  {
    if Covered(cuts, x) {
      var cut :| cut in cuts && Covers(cut, x);
      var j :| 0 <= j < |cuts| && cuts[j] == cut;
      assert Prefixed(cuts)[j] in Prefixed(cuts);
      assert Covers(Prefixed(cuts)[j], x);
    } else {
      var speaker := TurnSpeakerAt(x, turns, Starts(turns));
      LookupFindsTheCoveringTurn(turns, x, speaker);
      assert turns[..|turns|] == turns;
      assert Speaks(pieces, x, speaker);
    }
  }

  lemma PrefixedSpeaksOnly(cuts: seq<Turn>, x: real, s: string) returns (name: string)
    requires Speaks(Prefixed(cuts), x, s)
    ensures Speaks(cuts, x, name) && s == UNMAPPED_TURN_PREFIX + name
  {
    var labelled := Prefixed(cuts);
    var turn :| turn in labelled && Covers(turn, x) && turn.speaker == s;
    var i :| 0 <= i < |labelled| && labelled[i] == turn;
    assert cuts[i] in cuts;
    name := cuts[i].speaker;
  }

  lemma PrefixedSpeaksAll(cuts: seq<Turn>, x: real, name: string)
    requires Speaks(cuts, x, name)
    ensures Speaks(Prefixed(cuts), x, UNMAPPED_TURN_PREFIX + name)
  {
    var turn :| turn in cuts && Covers(turn, x) && turn.speaker == name;
    var i :| 0 <= i < |cuts| && cuts[i] == turn;
    assert Prefixed(cuts)[i] in Prefixed(cuts);
  }

  lemma HeldIsSpoken(unmapped: seq<Turn>, cuts: seq<Turn>, x: real, name: string)
    requires ResolutionOf(cuts, unmapped)
    ensures Speaks(cuts, x, name) <==> Holds(unmapped, x, name)
  {
    hide Speaks, Holds;
  }

  lemma PrefixedSpeak(unmapped: seq<Turn>, cuts: seq<Turn>, x: real, s: string)
    requires ResolutionOf(cuts, unmapped)
    ensures Speaks(Prefixed(cuts), x, s) <==>
        exists name :: Holds(unmapped, x, name) && s == UNMAPPED_TURN_PREFIX + name
  {
    hide *;
    if Speaks(Prefixed(cuts), x, s) {
      var name := PrefixedSpeaksOnly(cuts, x, s);
      HeldIsSpoken(unmapped, cuts, x, name);
    }
    if name :| Holds(unmapped, x, name) && s == UNMAPPED_TURN_PREFIX + name {
      HeldIsSpoken(unmapped, cuts, x, name);
      PrefixedSpeaksAll(cuts, x, name);
    }
  }

  lemma CutsCoverHeldTimes(unmapped: seq<Turn>, cuts: seq<Turn>, x: real)
    requires ResolutionOf(cuts, unmapped)
    ensures Covered(cuts, x) <==> Held(unmapped, x)
  {
    if Covered(cuts, x) {
      var cut :| cut in cuts && Covers(cut, x);
      assert Speaks(cuts, x, cut.speaker);
    }
    if Held(unmapped, x) {
      var name :| Holds(unmapped, x, name);
      assert Speaks(cuts, x, name);
    }
  }

  lemma OverlayIsCorrect(turns: seq<Turn>, unmapped: seq<Turn>, cuts: seq<Turn>, pieces: seq<Turn>, out: seq<Turn>)
    requires Tiles(Base(turns)) && TrackCut(Base(turns), |Base(turns)|, cuts, pieces)
    requires ResolutionOf(cuts, unmapped) && forall turn | turn in unmapped :: turn.start >= 0.0
    requires out == StableSort.Sort(pieces + Prefixed(cuts), StartsNoLater)
    ensures Tiles(out)
    ensures forall x, speaker | x >= 0.0 ::
              TurnSpeakerAt(x, out, Starts(out)) == speaker <==> OverlayMeaning(turns, unmapped, x, speaker)
  {
    Assemble(Base(turns), unmapped, cuts, pieces, out);
    hide Tiles, TurnSpeakerAt, OverlayMeaning, ResolutionOf;
    forall x, s | x >= 0.0
      ensures TurnSpeakerAt(x, out, Starts(out)) == s <==> OverlayMeaning(turns, unmapped, x, s)
    {
      OverlayAt(turns, unmapped, cuts, pieces, out, x, s);
    }
  }

  lemma OverlayAt(turns: seq<Turn>, unmapped: seq<Turn>, cuts: seq<Turn>, pieces: seq<Turn>, out: seq<Turn>,
      x: real, s: string)
    requires TrackCut(Base(turns), |Base(turns)|, cuts, pieces) && ResolutionOf(cuts, unmapped)
    requires Tiles(out) && x >= 0.0
    requires Speaks(out, x, s) <==> Speaks(pieces, x, s) || Speaks(Prefixed(cuts), x, s)
    ensures TurnSpeakerAt(x, out, Starts(out)) == s <==> OverlayMeaning(turns, unmapped, x, s)
  {
    LookupFindsTheCoveringTurn(out, x, s);
    PrefixedSpeak(unmapped, cuts, x, s);
    CutsCoverHeldTimes(unmapped, cuts, x);
    var base := Base(turns);
    assert base[..|base|] == base;
    assert Speaks(pieces, x, s) <==> Speaks(base, x, s) && !Covered(cuts, x);
    hide Tiles, TurnSpeakerAt, ResolutionOf, TrackCut, Speaks, Covered;
  }

  /** The parts of one track turn that no cut covers. */
  method CutTurn(turn: Turn, cuts: seq<Turn>) returns (pieces: seq<Turn>)
    requires Ordered(cuts)
    ensures exists at :: CutTo(turn, cuts, |cuts|, pieces, at) && !Before(at, turn.end)
  {
    pieces := [];
    var start := At(turn.start);
    for j := 0 to |cuts|
      invariant CutTo(turn, cuts, j, pieces, start)
    {
      var other := cuts[j];
      if !Before(start, other.end) || !Before(At(other.start), turn.end) {
        continue;
      }
      ApplyCut(turn, cuts, j, pieces, start);
      if other.start > start.time {
        pieces := pieces + [Turn(start.time, At(other.start), turn.speaker)];
      }
      start := Later(start, other.end);
    }
    FinishTurn(turn, cuts, pieces, start);
    if Before(start, turn.end) {
      pieces := pieces + [Turn(start.time, turn.end, turn.speaker)];
    }
    assert CutTo(turn, cuts, |cuts|, pieces, Later(start, turn.end));
  }

  method OverlayUnmappedTurns(turns: seq<Turn>, unmapped: seq<Turn>) returns (out: seq<Turn>)
    requires turns == [] || Tiles(turns)
    requires forall turn | turn in unmapped :: turn.start >= 0.0
    ensures Tiles(out)
    ensures forall x, speaker | x >= 0.0 ::
              TurnSpeakerAt(x, out, Starts(out)) == speaker <==> OverlayMeaning(turns, unmapped, x, speaker)
  {
    var cuts := ResolveOverlappingTurns(unmapped);
    var base := Base(turns);
    var pieces: seq<Turn> := [];
    for i := 0 to |base|
      invariant TrackCut(base, i, cuts, pieces)
    {
      var more := CutTurn(base[i], cuts);
      ghost var at :| CutTo(base[i], cuts, |cuts|, more, at) && !Before(at, base[i].end);
      CutNextTurn(base, i, cuts, pieces, more, at);
      pieces := pieces + more;
    }
    OverlayIsCorrect(turns, unmapped, cuts, pieces, StableSort.Sort(pieces + Prefixed(cuts), StartsNoLater));
    out := StableSort.Sort(pieces + Prefixed(cuts), StartsNoLater);
  }
}
