/**
  From the sliding-window speaker track to contiguous turns
  (transcriptions/known_speaker.py).
 */
module TrackTurns {
  import opened Turns

  const RESEGMENT_MIN_RUN_FRAMES := 2

  datatype Frame = Frame(center: real, speaker: string, clear: bool)

  /** Clear frames `first` to `last` of one speaker with only unclear frames between them. */
  datatype Run = Run(first: nat, last: nat, speaker: string, clear: nat)

  // -- What the turns mean -------------------------------------------------------

  /** No clear frame strictly between `i` and `j` names somebody else. */
  ghost predicate OneVoiceBetween(frames: seq<Frame>, i: nat, j: nat) {
    forall k | i < k < j < |frames| && frames[k].clear :: frames[k].speaker == frames[i].speaker
  }

  /** Frames `i < j` are clear, agree, and so does every clear frame between them. */
  ghost predicate Supports(frames: seq<Frame>, i: nat, j: nat) {
    i < j < |frames| && frames[i].clear && frames[j].clear &&
    frames[i].speaker == frames[j].speaker && OneVoiceBetween(frames, i, j)
  }

  /** A clear frame survives when another clear frame supports it. */
  ghost predicate Survives(frames: seq<Frame>, i: nat) {
    i < |frames| && exists j: nat :: Supports(frames, i, j) || Supports(frames, j, i)
  }

  /** From frame `k` to the next the track goes from one speaker to the other. */
  ghost predicate GoesOver(frames: seq<Frame>, k: nat, earlier: string, later: string) {
    k + 1 < |frames| && frames[k].speaker == earlier && frames[k + 1].speaker == later
  }

  ghost predicate HalfWay(frames: seq<Frame>, i: nat, j: nat, cut: real) {
    i < |frames| && j < |frames| && 2.0 * cut == frames[i].center + frames[j].center
  }

  /**
    `cut` lies half-way where the track last goes over between the frames, or half-way between
    them if it never does.
   */
  ghost predicate IsCut(frames: seq<Frame>, last: nat, first: nat, cut: real) {
    last < first < |frames| && (
      var earlier, later := frames[last].speaker, frames[first].speaker;
      || ((forall k: nat | last <= k < first :: !GoesOver(frames, k, earlier, later)) &&
        HalfWay(frames, last, first, cut))
      || (exists k: nat :: last <= k < first && GoesOver(frames, k, earlier, later) && HalfWay(frames, k, k + 1, cut) &&
            forall m: nat | k < m < first :: !GoesOver(frames, m, earlier, later)))
  }

  /** Turn `p` ends at the cut between two surviving frames with no surviving one between. */
  ghost predicate CutBetweenSurvivors(frames: seq<Frame>, turns: seq<Turn>, p: nat) {
    p + 1 < |turns| && turns[p].speaker != turns[p + 1].speaker &&
    exists a: nat, b: nat :: Survives(frames, a) && Survives(frames, b) && IsCut(frames, a, b, turns[p + 1].start) &&
      frames[a].speaker == turns[p].speaker && frames[b].speaker == turns[p + 1].speaker &&
      forall k | a < k < b :: !Survives(frames, k)
  }

  ghost predicate CentersAscend(frames: seq<Frame>) {
    && (forall i | 0 <= i < |frames| :: frames[i].center > 0.0)
    && (forall i, j | 0 <= i < j < |frames| :: frames[i].center < frames[j].center)
  }

  // -- Runs ------------------------------------------------------------------------

  ghost predicate IsRun(frames: seq<Frame>, run: Run) {
    && run.first <= run.last < |frames|
    && frames[run.first].clear && frames[run.last].clear
    && (forall k | run.first <= k <= run.last && frames[k].clear :: frames[k].speaker == run.speaker)
    && run.clear >= 1
    && (run.clear >= 2 <==> run.first < run.last)
  }

  ghost predicate InSomeRun(runs: seq<Run>, i: nat) {
    exists a :: 0 <= a < |runs| && runs[a].first <= i <= runs[a].last
  }

  ghost predicate InLongRun(runs: seq<Run>, i: nat) {
    exists a :: 0 <= a < |runs| && runs[a].first <= i <= runs[a].last && runs[a].clear >= RESEGMENT_MIN_RUN_FRAMES
  }

  /** Runs before frame `n`, in order, neighbours of different speakers. */
  ghost predicate RunsInOrder(frames: seq<Frame>, n: nat, runs: seq<Run>) {
    && (forall a {:trigger IsRun(frames, runs[a])} | 0 <= a < |runs| :: IsRun(frames, runs[a]) && runs[a].last < n)
    && (forall a, b | 0 <= a < b < |runs| :: runs[a].last < runs[b].first)
    && (forall a, b | 0 <= a < b < |runs| && b == a + 1 :: runs[a].speaker != runs[b].speaker)
  }

  /** The clear frames before `n`, partitioned into maximal runs in order. */
  ghost predicate RunsOf(frames: seq<Frame>, n: nat, runs: seq<Run>) {
    && RunsInOrder(frames, n, runs)
    && (forall i: nat {:trigger InSomeRun(runs, i)} | i < n && i < |frames| && frames[i].clear :: InSomeRun(runs, i))
    && (runs != [] ==> forall i: nat | runs[|runs| - 1].last < i < n && i < |frames| :: !frames[i].clear)
  }

  lemma ExtendRuns(frames: seq<Frame>, n: nat, runs: seq<Run>, longer: Run)
    requires RunsOf(frames, n, runs) && n < |frames| && frames[n].clear
    requires runs != [] && runs[|runs| - 1].speaker == frames[n].speaker
    requires longer == runs[|runs| - 1].(last := n, clear := runs[|runs| - 1].clear + 1)
    ensures RunsOf(frames, n + 1, runs[|runs| - 1 := longer])
  {
    var m := |runs| - 1;
    assert IsRun(frames, runs[m]);
    var r := runs[m := longer];
    forall i: nat | i < n + 1 && frames[i].clear ensures InSomeRun(r, i) {
      if i < n {
        assert InSomeRun(runs, i);
        var a :| 0 <= a < |runs| && runs[a].first <= i <= runs[a].last;
        assert r[a].first <= i <= r[a].last;
      } else {
        assert r[m].first <= i <= r[m].last;
      }
    }
  }

  lemma NewRunInOrder(frames: seq<Frame>, n: nat, runs: seq<Run>, single: Run)
    requires RunsInOrder(frames, n, runs) && n < |frames| && frames[n].clear
    requires runs == [] || runs[|runs| - 1].speaker != frames[n].speaker
    requires single == Run(n, n, frames[n].speaker, 1)
    ensures RunsInOrder(frames, n + 1, runs + [single])
  {
    var r := runs + [single];
    assert IsRun(frames, single);
    forall a | 0 <= a < |runs| ensures IsRun(frames, runs[a]) && runs[a].last < n {
    }
  }

  lemma NewRun(frames: seq<Frame>, n: nat, runs: seq<Run>)
    requires RunsOf(frames, n, runs) && n < |frames| && frames[n].clear
    requires runs == [] || runs[|runs| - 1].speaker != frames[n].speaker
    ensures RunsOf(frames, n + 1, runs + [Run(n, n, frames[n].speaker, 1)])
  {
    var single := Run(n, n, frames[n].speaker, 1);
    var r := runs + [single];
    NewRunInOrder(frames, n, runs, single);
    forall i: nat | i < n + 1 && frames[i].clear ensures InSomeRun(r, i) {
      if i < n {
        assert InSomeRun(runs, i);
        var a :| 0 <= a < |runs| && runs[a].first <= i <= runs[a].last;
        assert r[a].first <= i <= r[a].last;
      } else {
        assert r[|runs|].first <= i <= r[|runs|].last;
      }
    }
  }

  /** Two frames of different runs have a clear frame of another speaker between them. */
  lemma RunsSeparate(frames: seq<Frame>, runs: seq<Run>, a: nat, b: nat, i: nat, j: nat)
    requires RunsInOrder(frames, |frames|, runs) && a < b < |runs|
    requires runs[a].first <= i <= runs[a].last && runs[b].first <= j <= runs[b].last
    ensures !Supports(frames, i, j)
  {
    assert IsRun(frames, runs[a]) && IsRun(frames, runs[b]) && IsRun(frames, runs[a + 1]);
    assert runs[a].speaker != runs[a + 1].speaker;
    assert a + 1 < b ==> runs[a + 1].last < runs[b].first;
    var k := runs[a + 1].first;
    assert i < k <= j && frames[k].clear && frames[k].speaker == runs[a + 1].speaker;
  }

  /** A clear frame survives exactly when its run has two or more clear frames. */
  lemma SurvivorsAreInLongRuns(frames: seq<Frame>, runs: seq<Run>, i: nat)
    requires RunsOf(frames, |frames|, runs) && i < |frames| && frames[i].clear
    ensures Survives(frames, i) <==> InLongRun(runs, i)
  {
    assert InSomeRun(runs, i);
    if InLongRun(runs, i) {
      var a :| 0 <= a < |runs| && runs[a].first <= i <= runs[a].last && runs[a].clear >= RESEGMENT_MIN_RUN_FRAMES;
      assert IsRun(frames, runs[a]);
      assert i < runs[a].last ==> Supports(frames, i, runs[a].last);
      assert i == runs[a].last ==> Supports(frames, runs[a].first, i);
    }
    if Survives(frames, i) {
      var j: nat :| Supports(frames, i, j) || Supports(frames, j, i);
      assert InSomeRun(runs, j);
      var a :| 0 <= a < |runs| && runs[a].first <= i <= runs[a].last;
      var b :| 0 <= b < |runs| && runs[b].first <= j <= runs[b].last;
      if a < b {
        assert !Supports(frames, j, i);
        RunsSeparate(frames, runs, a, b, i, j);
      } else if b < a {
        assert !Supports(frames, i, j);
        RunsSeparate(frames, runs, b, a, j, i);
      }
      assert IsRun(frames, runs[a]);
    }
  }

  // -- Merged runs ---------------------------------------------------------------

  ghost predicate IsSpan(frames: seq<Frame>, span: Run) {
    && span.first < span.last < |frames|
    && Survives(frames, span.first) && Survives(frames, span.last)
    && frames[span.first].speaker == span.speaker && frames[span.last].speaker == span.speaker
  }

  ghost predicate SpansInOrder(frames: seq<Frame>, merged: seq<Run>) {
    && (forall a {:trigger IsSpan(frames, merged[a])} | 0 <= a < |merged| :: IsSpan(frames, merged[a]))
    && (forall a, b | 0 <= a < b < |merged| :: merged[a].last < merged[b].first)
    && (forall a, b | 0 <= a < b < |merged| && b == a + 1 :: merged[a].speaker != merged[b].speaker)
  }

  ghost predicate Contains(merged: seq<Run>, run: Run) {
    exists a :: 0 <= a < |merged| && merged[a].speaker == run.speaker
                && merged[a].first <= run.first && run.last <= merged[a].last
  }

  /** The long runs among the first `n`, neighbours of one speaker joined. */
  ghost predicate MergedOf(frames: seq<Frame>, runs: seq<Run>, n: nat, merged: seq<Run>) {
    && n <= |runs|
    && SpansInOrder(frames, merged)
    && (n < |runs| && merged != [] ==> merged[|merged| - 1].last < runs[n].first)
    && (forall k {:trigger Contains(merged, runs[k])} | 0 <= k < n && runs[k].clear >= RESEGMENT_MIN_RUN_FRAMES ::
      Contains(merged, runs[k]))
  }

  lemma LongRunIsSpan(frames: seq<Frame>, run: Run)
    requires IsRun(frames, run) && run.clear >= RESEGMENT_MIN_RUN_FRAMES
    ensures IsSpan(frames, run)
  {
    assert Supports(frames, run.first, run.last);
  }

  function Merge(merged: seq<Run>, run: Run): seq<Run> {
    var m := |merged| - 1;
    if merged != [] && merged[m].speaker == run.speaker then merged[m := merged[m].(last := run.last)]
    else merged + [run]
  }

  lemma MergeKeepsOrder(frames: seq<Frame>, merged: seq<Run>, run: Run)
    requires SpansInOrder(frames, merged) && IsSpan(frames, run)
    requires merged != [] ==> merged[|merged| - 1].last < run.first
    ensures SpansInOrder(frames, Merge(merged, run))
  {
    forall a | 0 <= a < |merged| ensures IsSpan(frames, merged[a]) && merged[a].last < run.first {
      var m := |merged| - 1;
      assert IsSpan(frames, merged[m]);
      assert a < m ==> merged[a].last < merged[m].first;
    }
  }

  lemma MergeKeepsContents(merged: seq<Run>, run: Run, earlier: Run)
    requires merged != [] ==> merged[|merged| - 1].first <= merged[|merged| - 1].last < run.first <= run.last
    ensures Contains(Merge(merged, run), run)
    ensures Contains(merged, earlier) ==> Contains(Merge(merged, run), earlier)
  {
    var r, m := Merge(merged, run), |merged| - 1;
    if Contains(merged, earlier) {
      var a :| 0 <= a < |merged| && merged[a].speaker == earlier.speaker
               && merged[a].first <= earlier.first && earlier.last <= merged[a].last;
      assert r[a].speaker == earlier.speaker && r[a].first <= earlier.first && earlier.last <= r[a].last;
    }
    assert r[|r| - 1].speaker == run.speaker && run.last <= r[|r| - 1].last;
  }

  lemma MergeRun(frames: seq<Frame>, runs: seq<Run>, n: nat, merged: seq<Run>)
    requires RunsOf(frames, |frames|, runs) && n < |runs|
    requires MergedOf(frames, runs, n, merged)
    ensures MergedOf(frames, runs, n + 1,
              if runs[n].clear < RESEGMENT_MIN_RUN_FRAMES then merged else Merge(merged, runs[n]))
  {
    var run := runs[n];
    assert IsRun(frames, run);
    assert n + 1 < |runs| ==> run.last < runs[n + 1].first;
    if run.clear >= RESEGMENT_MIN_RUN_FRAMES {
      LongRunIsSpan(frames, run);
      MergeKeepsOrder(frames, merged, run);
      if merged != [] { assert IsSpan(frames, merged[|merged| - 1]); }
      forall k | 0 <= k < n + 1 && runs[k].clear >= RESEGMENT_MIN_RUN_FRAMES
        ensures Contains(Merge(merged, run), runs[k])
      {
        MergeKeepsContents(merged, run, runs[k]);
      }
    }
  }

  ghost predicate InSpan(merged: seq<Run>, i: nat, speaker: string) {
    exists a :: 0 <= a < |merged| && merged[a].first <= i <= merged[a].last && merged[a].speaker == speaker
  }

  /** The merged runs hold every surviving frame under its own speaker. */
  lemma SurvivorsAreInSpans(frames: seq<Frame>, runs: seq<Run>, merged: seq<Run>, i: nat)
    requires RunsOf(frames, |frames|, runs) && MergedOf(frames, runs, |runs|, merged)
    requires Survives(frames, i)
    ensures InSpan(merged, i, frames[i].speaker)
  {
    SurvivorsAreInLongRuns(frames, runs, i);
    var k :| 0 <= k < |runs| && runs[k].first <= i <= runs[k].last && runs[k].clear >= RESEGMENT_MIN_RUN_FRAMES;
    assert IsRun(frames, runs[k]) && Contains(merged, runs[k]);
  }

  // -- Turns -----------------------------------------------------------------------

  /** Turns `p` and `q` meet at the cut between their merged runs. */
  ghost predicate Meet(frames: seq<Frame>, merged: seq<Run>, turns: seq<Turn>, p: nat, q: nat) {
    && p < |turns| && q < |turns| && p < |merged| && q < |merged|
    && turns[p].end == At(turns[q].start)
    && IsCut(frames, merged[p].last, merged[q].first, turns[q].start)
  }

  /** Turns for the first `n` merged runs, the last of them still open at `start`. */
  ghost predicate TurnsUpTo(frames: seq<Frame>, merged: seq<Run>, n: nat, turns: seq<Turn>, start: real) {
    && |turns| == n < |merged|
    && (n == 0 ==> start == 0.0)
    && (n > 0 ==> turns[0].start == 0.0 && turns[n - 1].end == At(start)
                  && IsCut(frames, merged[n - 1].last, merged[n].first, start))
    && (forall p | 0 <= p < n :: turns[p].speaker == merged[p].speaker && turns[p].end.At?)
    && (forall p, q | 0 <= p < q < n && q == p + 1 :: Meet(frames, merged, turns, p, q))
  }

  ghost predicate TurnsOf(frames: seq<Frame>, merged: seq<Run>, turns: seq<Turn>) {
    && |turns| == |merged| > 0
    && turns[0].start == 0.0 && turns[|turns| - 1].end == Never
    && (forall p | 0 <= p < |turns| :: turns[p].speaker == merged[p].speaker)
    && (forall p, q | 0 <= p < q < |turns| && q == p + 1 :: Meet(frames, merged, turns, p, q))
  }

  /** A turn holds the whole merged run it was made from. */
  lemma TurnHoldsItsSpan(frames: seq<Frame>, merged: seq<Run>, turns: seq<Turn>, p: nat, i: nat)
    requires CentersAscend(frames) && TurnsOf(frames, merged, turns) && p < |turns|
    requires SpansInOrder(frames, merged)
    requires merged[p].first <= i <= merged[p].last && i < |frames|
    ensures Covers(turns[p], frames[i].center)
  {
    assert IsSpan(frames, merged[p]);
    assert frames[merged[p].first].center <= frames[i].center <= frames[merged[p].last].center;
    if p > 0 {
      assert Meet(frames, merged, turns, p - 1, p);
    }
    if p + 1 < |turns| {
      assert Meet(frames, merged, turns, p, p + 1);
    }
  }

  lemma TurnsTile(frames: seq<Frame>, merged: seq<Run>, turns: seq<Turn>)
    requires CentersAscend(frames) && TurnsOf(frames, merged, turns)
    requires SpansInOrder(frames, merged)
    ensures Tiles(turns)
  {
    forall p | 0 <= p < |turns| ensures Positive(turns[p]) {
      assert IsSpan(frames, merged[p]);
      TurnHoldsItsSpan(frames, merged, turns, p, merged[p].first);
    }
    forall p, q | 0 <= p < q < |turns| && q == p + 1 ensures turns[p].end == At(turns[q].start) {
      assert Meet(frames, merged, turns, p, q);
    }
  }

  lemma NoSurvivorBetweenSpans(frames: seq<Frame>, runs: seq<Run>, merged: seq<Run>, p: nat, k: nat)
    requires RunsOf(frames, |frames|, runs) && MergedOf(frames, runs, |runs|, merged)
    requires p + 1 < |merged| && merged[p].last < k < merged[p + 1].first
    ensures !Survives(frames, k)
  {
    assert IsSpan(frames, merged[p]) && IsSpan(frames, merged[p + 1]);
    forall c | 0 <= c < |merged| ensures !(merged[c].first <= k <= merged[c].last) {
    }
    if Survives(frames, k) {
      SurvivorsAreInSpans(frames, runs, merged, k);
    }
  }

  lemma CutsLieBetweenSurvivors(frames: seq<Frame>, runs: seq<Run>, merged: seq<Run>, turns: seq<Turn>, p: nat)
    requires RunsOf(frames, |frames|, runs) && MergedOf(frames, runs, |runs|, merged)
    requires TurnsOf(frames, merged, turns) && p + 1 < |turns|
    ensures CutBetweenSurvivors(frames, turns, p)
  {
    var a, b := merged[p].last, merged[p + 1].first;
    assert IsSpan(frames, merged[p]) && IsSpan(frames, merged[p + 1]);
    assert Meet(frames, merged, turns, p, p + 1);
    forall k: nat | a < k < b ensures !Survives(frames, k) {
      NoSurvivorBetweenSpans(frames, runs, merged, p, k);
    }
  }

  lemma SurvivorsKeepTheirSpeaker(frames: seq<Frame>, runs: seq<Run>, merged: seq<Run>, turns: seq<Turn>, i: nat)
    requires CentersAscend(frames)
    requires RunsOf(frames, |frames|, runs) && MergedOf(frames, runs, |runs|, merged)
    requires TurnsOf(frames, merged, turns) && Survives(frames, i)
    ensures turns != [] && TurnSpeakerAt(frames[i].center, turns, Starts(turns)) == frames[i].speaker
  {
    SurvivorsAreInSpans(frames, runs, merged, i);
    var p :| 0 <= p < |merged| && merged[p].first <= i <= merged[p].last && merged[p].speaker == frames[i].speaker;
    TurnHoldsItsSpan(frames, merged, turns, p, i);
    TurnsTile(frames, merged, turns);
    assert turns[p] in turns;
    LookupFindsTheCoveringTurn(turns, frames[i].center, frames[i].speaker);
  }

  lemma TurnsAreRight(frames: seq<Frame>, runs: seq<Run>, merged: seq<Run>, turns: seq<Turn>)
    requires CentersAscend(frames)
    requires RunsOf(frames, |frames|, runs) && MergedOf(frames, runs, |runs|, merged)
    requires if merged == [] then turns == [] else TurnsOf(frames, merged, turns)
    ensures RightTurns(frames, turns)
  {
    if merged == [] {
      forall i: nat ensures !Survives(frames, i) {
        if Survives(frames, i) {
          SurvivorsAreInSpans(frames, runs, merged, i);
        }
      }
    } else {
      assert IsSpan(frames, merged[0]);
      TurnsTile(frames, merged, turns);
      forall i: nat | Survives(frames, i)
        ensures TurnSpeakerAt(frames[i].center, turns, Starts(turns)) == frames[i].speaker
      {
        SurvivorsKeepTheirSpeaker(frames, runs, merged, turns, i);
      }
      forall p: nat | p + 1 < |turns| ensures CutBetweenSurvivors(frames, turns, p)
      {
        CutsLieBetweenSurvivors(frames, runs, merged, turns, p);
      }
    }
  }

  /**
    There are turns exactly when a frame survives; they run from 0 for ever, every
    surviving frame lies in a turn of its own speaker, and neighbouring turns
    differ and meet at the cut between their surviving frames.
   */
  ghost predicate RightTurns(frames: seq<Frame>, turns: seq<Turn>) {
    && (turns == [] <==> forall i: nat :: !Survives(frames, i))
    && (turns != [] ==> Tiles(turns))
    && (turns != [] ==> forall i: nat | Survives(frames, i) ::
          TurnSpeakerAt(frames[i].center, turns, Starts(turns)) == frames[i].speaker)
    && (forall p: nat | p + 1 < |turns| :: CutBetweenSurvivors(frames, turns, p))
  }

  method TurnsOfTrack(frames: seq<Frame>) returns (turns: seq<Turn>)
    requires CentersAscend(frames)
    ensures RightTurns(frames, turns)
  {
    var runs: seq<Run> := [];
    for index := 0 to |frames|
      invariant RunsOf(frames, index, runs)
    {
      var frame := frames[index];
      if !frame.clear {
        continue;
      }
      var m := |runs| - 1;
      if runs != [] && runs[m].speaker == frame.speaker {
        var longer := runs[m].(last := index, clear := runs[m].clear + 1);
        ExtendRuns(frames, index, runs, longer);
        runs := runs[m := longer];
      } else {
        NewRun(frames, index, runs);
        runs := runs + [Run(index, index, frame.speaker, 1)];
      }
    }
    var merged: seq<Run> := [];
    for position := 0 to |runs|
      invariant MergedOf(frames, runs, position, merged)
    {
      MergeRun(frames, runs, position, merged);
      if runs[position].clear < RESEGMENT_MIN_RUN_FRAMES {
        continue;
      }
      merged := Merge(merged, runs[position]);
    }
    turns := CutMergedRuns(frames, merged);
    TurnsAreRight(frames, runs, merged, turns);
  }

  /** The last place where the top speaker flips from one run to the next, or the middle. */
  method CutBetween(frames: seq<Frame>, run: Run, following: Run) returns (cut: real)
    requires IsSpan(frames, run) && IsSpan(frames, following) && run.last < following.first
    ensures IsCut(frames, run.last, following.first, cut)
  {
    cut := (frames[run.last].center + frames[following.first].center) / 2.0;
    ghost var flip: int := -1;
    for index := run.last to following.first
      invariant flip == -1 || run.last <= flip < index
      invariant flip == -1 ==> HalfWay(frames, run.last, following.first, cut)
      invariant flip >= 0 ==> GoesOver(frames, flip, run.speaker, following.speaker) &&
                              HalfWay(frames, flip, flip + 1, cut)
      invariant forall k: nat | run.last <= k < index && k > flip ::
          !GoesOver(frames, k, run.speaker, following.speaker)
    {
      if frames[index].speaker == run.speaker && frames[index + 1].speaker == following.speaker {
        flip := index;
        cut := (frames[index].center + frames[index + 1].center) / 2.0;
      }
    }
  }

  lemma MeetStays(frames: seq<Frame>, merged: seq<Run>, turns: seq<Turn>, next: Turn)
    requires forall p, q | 0 <= p < q < |turns| && q == p + 1 :: Meet(frames, merged, turns, p, q)
    ensures forall p, q | 0 <= p < q < |turns| && q == p + 1 :: Meet(frames, merged, turns + [next], p, q)
  {
    forall p, q | 0 <= p < q < |turns| && q == p + 1 ensures Meet(frames, merged, turns + [next], p, q) {
      assert Meet(frames, merged, turns, p, q);
    }
  }

  /** One turn for each merged run, the last of them without an end. */
  method CutMergedRuns(frames: seq<Frame>, merged: seq<Run>) returns (turns: seq<Turn>)
    requires SpansInOrder(frames, merged)
    ensures if merged == [] then turns == [] else TurnsOf(frames, merged, turns)
  {
    turns := [];
    var start := 0.0;
    var position := 0;
    while position < |merged|
      invariant if merged == [] then position == |turns| == 0 else TurnsUpTo(frames, merged, position, turns, start)
    {
      var run := merged[position];
      if position + 1 == |merged| {
        MeetStays(frames, merged, turns, Turn(start, Never, run.speaker));
        turns := turns + [Turn(start, Never, run.speaker)];
        break;
      }
      var following := merged[position + 1];
      assert IsSpan(frames, run) && IsSpan(frames, following);
      var cut := CutBetween(frames, run, following);
      MeetStays(frames, merged, turns, Turn(start, At(cut), run.speaker));
      turns := turns + [Turn(start, At(cut), run.speaker)];
      start := cut;
      position := position + 1;
    }
  }
}
