/**
  Speaker turns (transcriptions/diarization.py, transcriptions/known_speaker.py).
  A turn ends at a time or, for the last turn of a track, never.
 */
module Turns {

  datatype Bound = At(time: real) | Never

  predicate Before(a: Bound, b: Bound) {
    a.At? && (b.Never? || a.time < b.time)
  }

  function Later(a: Bound, b: Bound): Bound {
    if Before(a, b) then b else a
  }

  datatype Turn = Turn(start: real, end: Bound, speaker: string)

  predicate Covers(turn: Turn, x: real) {
    turn.start <= x && Before(At(x), turn.end)
  }

  predicate Positive(turn: Turn) {
    Before(At(turn.start), turn.end)
  }

  /** Some turn of the list covers `x` with the label `speaker`. */
  ghost predicate Speaks(turns: seq<Turn>, x: real, speaker: string) {
    exists turn :: turn in turns && Covers(turn, x) && turn.speaker == speaker
  }

  /** Turns in time order, of positive length and without overlap; gaps are allowed. */
  ghost predicate Ordered(turns: seq<Turn>) {
    && (forall i | 0 <= i < |turns| :: Positive(turns[i]))
    && (forall i, j | 0 <= i < j < |turns| :: !Before(At(turns[j].start), turns[i].end))
  }

  /** Contiguous turns from 0 that never end. */
  ghost predicate Tiles(turns: seq<Turn>) {
    && turns != []
    && turns[0].start == 0.0
    && turns[|turns| - 1].end == Never
    && (forall i | 0 <= i < |turns| :: Positive(turns[i]))
    && (forall i, j | 0 <= i < j < |turns| && j == i + 1 :: turns[i].end == At(turns[j].start))
  }

  // -- Lookup -----------------------------------------------------------------

  function Starts(turns: seq<Turn>): (starts: seq<real>)
    ensures |starts| == |turns|
    ensures forall i | 0 <= i < |turns| :: starts[i] == turns[i].start
  {
    if turns == [] then [] else [turns[0].start] + Starts(turns[1..])
  }

  /** The insertion point after all entries up to `x` of an ascending list. */
  function BisectRight(starts: seq<real>, x: real): (k: nat)
    ensures k <= |starts|
    ensures forall i | 0 <= i < k :: starts[i] <= x
    ensures k < |starts| ==> x < starts[k]
  {
    if starts == [] || x < starts[0] then 0 else 1 + BisectRight(starts[1..], x)
  }

  function TurnSpeakerAt(x: real, turns: seq<Turn>, starts: seq<real>): string
    requires turns != [] && |starts| == |turns|
  {
    var k := BisectRight(starts, x);
    turns[if k == 0 then 0 else k - 1].speaker
  }

  lemma {:induction false} TilesAreOrdered(turns: seq<Turn>, i: nat, j: nat)
    requires Tiles(turns) && i < j < |turns|
    ensures turns[i].end.At? && turns[i].end.time <= turns[j].start
    ensures turns[i].start < turns[j].start
    decreases j
  {
    assert Positive(turns[j - 1]) && turns[j - 1].end == At(turns[j].start);
    if i < j - 1 {
      TilesAreOrdered(turns, i, j - 1);
    }
  }

  lemma TilesImpliesOrdered(turns: seq<Turn>)
    requires Tiles(turns)
    ensures Ordered(turns)
  {
    forall i, j | 0 <= i < j < |turns| ensures !Before(At(turns[j].start), turns[i].end) {
      TilesAreOrdered(turns, i, j);
    }
  }

  /** Among turns without overlap at most one covers a given time. */
  lemma OrderedIsFunctional(turns: seq<Turn>, a: Turn, b: Turn, x: real)
    requires Ordered(turns) && a in turns && b in turns && Covers(a, x) && Covers(b, x)
    ensures a == b
  {
    var i :| 0 <= i < |turns| && turns[i] == a;
    var j :| 0 <= j < |turns| && turns[j] == b;
    assert i == j;
  }

  /**
    Bisecting the starts of contiguous turns finds the one turn that covers the
    time, and times before 0 fall to the first turn.
   */
  lemma LookupFindsTheCoveringTurn(turns: seq<Turn>, x: real, speaker: string)
    requires Tiles(turns)
    ensures x >= 0.0 ==> (TurnSpeakerAt(x, turns, Starts(turns)) == speaker <==> Speaks(turns, x, speaker))
    ensures x < 0.0 ==> TurnSpeakerAt(x, turns, Starts(turns)) == turns[0].speaker
  {
    var k := BisectRight(Starts(turns), x);
    assert Starts(turns)[0] == 0.0;
    if x >= 0.0 {
      assert k > 0;
      var found := turns[k - 1];
      assert found in turns && Starts(turns)[k - 1] == found.start <= x;
      assert Covers(found, x) by {
        if k < |turns| {
          assert turns[k - 1].end == At(turns[k].start);
        }
      }
      TilesImpliesOrdered(turns);
      if Speaks(turns, x, speaker) {
        var other :| other in turns && Covers(other, x) && other.speaker == speaker;
        OrderedIsFunctional(turns, other, found, x);
      }
    }
  }
}
