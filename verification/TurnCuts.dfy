/**
  At which words a segment is cut (transcriptions/known_speaker.py): before a run of words
  of one turn speaker that is large enough by itself, when the last run before it that
  gave its speaker to a part has another speaker. Nothing here speaks of how the pieces
  are folded; that the fold loop comes to these cuts is what is proved.
 */
module TurnCuts {
  import opened Turns
  import opened SegmentRecut
  import opened FoldedCuts

  // -- The words of a segment ---------------------------------------------------------------------

  /** The words from `i` up to `j` fall into turns of one speaker, those next to them do not. */
  ghost predicate IsRun(words: seq<Word>, turns: seq<Turn>, i: nat, j: nat)
    requires turns != []
  {
    && i < j <= |words|
    && (forall k | i <= k < j :: TurnSpeakerOf(words[k], turns) == TurnSpeakerOf(words[i], turns))
    && (i > 0 ==> TurnSpeakerOf(words[i - 1], turns) != TurnSpeakerOf(words[i], turns))
    && (j < |words| ==> TurnSpeakerOf(words[j], turns) != TurnSpeakerOf(words[i], turns))
  }

  /** A run that is large by itself, or the one with which the words from the beginning become large. */
  ghost predicate Leads(segment: Segment, turns: seq<Turn>, i: nat, j: nat)
    requires turns != []
  {
    && IsRun(segment.words, turns, i, j)
    && (Big(segment, i, j) || (i > 0 && Big(segment, 0, j) && !Big(segment, 0, i)))
  }

  /** The last run up to word `x` that leads. */
  ghost predicate LeadsLast(segment: Segment, turns: seq<Turn>, i: nat, j: nat, x: nat)
    requires turns != []
  {
    && Leads(segment, turns, i, j) && j <= x
    && forall k: nat, l: nat | j <= k && l <= x :: !Leads(segment, turns, k, l)
  }

  /** A large run begins at word `x`, of another speaker than the last run that leads. */
  ghost predicate ChangesAt(segment: Segment, turns: seq<Turn>, x: nat)
    requires turns != []
  {
    exists i: nat, j: nat, k: nat ::
      && LeadsLast(segment, turns, i, j, x) && IsRun(segment.words, turns, x, k) && Big(segment, x, k)
      && TurnSpeakerOf(segment.words[i], turns) != TurnSpeakerOf(segment.words[x], turns)
  }

  /** A segment of `out` other than the first begins with word `x`. */
  ghost predicate CutBefore(out: seq<Segment>, x: nat) {
    exists m: nat :: 0 < m < |out| && |WordsIn(out[..m])| == x
  }

  /** The speaker of a word is the one whose turn covers its middle. */
  lemma WordIsOfTurnAtItsMiddle(word: Word, turns: seq<Turn>, speaker: string)
    requires Tiles(turns) && word.start + word.end >= 0.0
    ensures TurnSpeakerOf(word, turns) == speaker <==> Speaks(turns, (word.start + word.end) / 2.0, speaker)
  {
    hide Tiles, Speaks, TurnSpeakerAt;
    LookupFindsTheCoveringTurn(turns, (word.start + word.end) / 2.0, speaker);
  }

  // -- Runs as cuts ---------------------------------------------------------------------------------

  lemma {:induction false} RunsAreOfOneSpeaker(words: seq<Word>, turns: seq<Turn>, a: nat, k: nat)
    requires turns != [] && a < |RunsOf(words, turns)|
    requires RunsOf(words, turns)[a].first <= k < NextOf(RunsOf(words, turns), a, |words|)
    ensures k < |words| && TurnSpeakerOf(words[k], turns) == RunsOf(words, turns)[a].speaker
  {
    hide TurnSpeakerOf, RunsOf, Ascending;
    RunsAreInside(words, turns, a);
    var last, _ := OneWordMore(words, turns);
    if k < last.first {
      RunsAreInside(words, turns, |RunsOf(words, turns)| - 1);
      RunsAreOfOneSpeaker(words[..last.first], turns, a, k);
    } else {
      RunsAreApart(words, turns, a);
    }
  }

  lemma RunsAreInside(words: seq<Word>, turns: seq<Turn>, a: nat)
    requires turns != [] && a < |RunsOf(words, turns)|
    ensures RunsOf(words, turns)[a].first < NextOf(RunsOf(words, turns), a, |words|) <= |words|
  {
    RunsAscend(words, turns);
  }

  lemma RunsAreApart(words: seq<Word>, turns: seq<Turn>, a: nat)
    requires turns != [] && a < |RunsOf(words, turns)| && |words| - 1 < NextOf(RunsOf(words, turns), a, |words|)
    ensures a == |RunsOf(words, turns)| - 1
  {
    RunsAscend(words, turns);
  }

  lemma RunsAscend(words: seq<Word>, turns: seq<Turn>)
    requires turns != []
    ensures Ascending(RunsOf(words, turns), |words|) && Differ(RunsOf(words, turns))
    ensures words != [] ==> RunsOf(words, turns) != []
  {
    GroupIsCut(words, turns);
    RunsDiffer(words, turns);
  }

  lemma RunIsRun(words: seq<Word>, turns: seq<Turn>, a: nat)
    requires turns != [] && a < |RunsOf(words, turns)|
    ensures Ascending(RunsOf(words, turns), |words|)
    ensures var runs := RunsOf(words, turns);
            && IsRun(words, turns, runs[a].first, NextOf(runs, a, |words|))
            && TurnSpeakerOf(words[runs[a].first], turns) == runs[a].speaker
  {
    hide TurnSpeakerOf, RunsOf;
    RunsAscend(words, turns);
    var runs := RunsOf(words, turns);
    var i, j := runs[a].first, NextOf(runs, a, |words|);
    assert i < j <= |words|;
    assert j < |words| ==> j < NextOf(runs, a + 1, |words|) && runs[a].speaker != runs[a + 1].speaker;
    assert i > 0 ==> a > 0 && runs[a - 1].first < i && runs[a - 1].speaker != runs[a].speaker;
    hide Ascending, Differ;
    RunsAreOfOneSpeaker(words, turns, a, i);
    forall k | i <= k < j ensures TurnSpeakerOf(words[k], turns) == TurnSpeakerOf(words[i], turns) {
      RunsAreOfOneSpeaker(words, turns, a, k);
    }
    if i > 0 {
      RunsAreOfOneSpeaker(words, turns, a - 1, i - 1);
    }
    if j < |words| {
      RunsAreOfOneSpeaker(words, turns, a + 1, j);
    }
  }

  lemma {:induction false} RunWith(cuts: seq<Cut>, n: nat, x: nat, k: nat) returns (a: nat)
    requires Ascending(cuts, n) && k < |cuts| && x < NextOf(cuts, k, n)
    ensures a < |cuts| && cuts[a].first <= x < NextOf(cuts, a, n)
  {
    if cuts[k].first <= x {
      a := k;
    } else {
      a := RunWith(cuts, n, x, k - 1);
    }
  }

  /** Every run of the words is one of the runs. */
  lemma RunIsOne(words: seq<Word>, turns: seq<Turn>, i: nat, j: nat) returns (a: nat)
    requires turns != [] && IsRun(words, turns, i, j)
    ensures a < |RunsOf(words, turns)|
    ensures RunsOf(words, turns)[a].first == i && NextOf(RunsOf(words, turns), a, |words|) == j
  {
    GroupIsCut(words, turns);
    var runs := RunsOf(words, turns);
    a := RunWith(runs, |words|, i, |runs| - 1);
    RunIsRun(words, turns, a);
  }

  // -- What the fold leaves ---------------------------------------------------------------------------

  ghost predicate LeadsAt(segment: Segment, runs: seq<Cut>, a: nat)
    requires Ascending(runs, |segment.words|) && a < |runs|
  {
    || BigCut(segment, runs, a, |segment.words|)
    || (a > 0 && Big(segment, 0, NextOf(runs, a, |segment.words|)) && !Big(segment, 0, runs[a].first))
  }

  ghost predicate LastLead(segment: Segment, runs: seq<Cut>, a: nat, k: nat)
    requires Ascending(runs, |segment.words|) && k <= |runs|
  {
    a < k && LeadsAt(segment, runs, a) && forall b: nat | a < b < k :: !LeadsAt(segment, runs, b)
  }

  /** How one run more changes what is left: the first part is still small, the run is, or it begins a part. */
  lemma OneRunMore(segment: Segment, runs: seq<Cut>, k: nat)
    requires Ascending(runs, |segment.words|) && 0 < k < |runs| && InTime(segment)
    ensures 0 < runs[k].first < NextOf(runs, k, |segment.words|) <= |segment.words|
    ensures var left, more, run := Left(segment, runs, k), Left(segment, runs, k + 1), runs[k];
            && left != []
            && (BigCut(segment, runs, k, |segment.words|) ==> Big(segment, 0, NextOf(runs, k, |segment.words|)))
            && (Big(segment, 0, run.first) ==> Big(segment, 0, NextOf(runs, k, |segment.words|)))
            && (!Big(segment, 0, run.first) ==> |left| == 1 && more == [Cut(0, run.speaker)])
            && (Big(segment, 0, run.first) ==>
                  more == if BigCut(segment, runs, k, |segment.words|) && left[|left| - 1].speaker != run.speaker
                  then left + [run] else left)
  {
    LeftAscends(segment, runs, k);
    var left, run, next := Left(segment, runs, k), runs[k], NextOf(runs, k, |segment.words|);
    assert 0 < run.first < next <= |segment.words|;
    if BigCut(segment, runs, k, |segment.words|) {
      BigGrows(segment, run.first, next, next);
    }
    if Big(segment, 0, run.first) {
      BigGrows(segment, 0, run.first, next);
    }
    if |left| > 1 {
      LeftIsBig(segment, runs, k);
      assert BigCut(segment, left, 0, run.first);
      BigGrows(segment, 0, NextOf(left, 0, run.first), run.first);
    }
  }

  lemma FirstIsLeft(segment: Segment, runs: seq<Cut>)
    requires Ascending(runs, |segment.words|) && runs != []
    ensures Left(segment, runs, 1) == [runs[0]] && runs[0].first == 0
    ensures 0 < NextOf(runs, 0, |segment.words|) <= |segment.words|
    ensures LeadsAt(segment, runs, 0) <==> Big(segment, 0, NextOf(runs, 0, |segment.words|))
  {
  }

  /** Some run leads as soon as the words up to its end are large. */
  lemma {:induction false} LeadIsThereIff(segment: Segment, runs: seq<Cut>, k: nat)
    requires Ascending(runs, |segment.words|) && 0 < k <= |runs| && InTime(segment)
    ensures 0 < NextOf(runs, k - 1, |segment.words|) <= |segment.words|
    ensures Big(segment, 0, NextOf(runs, k - 1, |segment.words|)) <==>
            exists a :: 0 <= a < k && LeadsAt(segment, runs, a)
  {
    hide Ascending, Big, InTime, Left;
    FirstIsLeft(segment, runs);
    if k > 1 {
      LeadIsThereIff(segment, runs, k - 1);
      OneRunMore(segment, runs, k - 1);
      assert LeadsAt(segment, runs, k - 1) || !LeadsAt(segment, runs, k - 1);
    }
  }

  ghost predicate NoneLeads(segment: Segment, runs: seq<Cut>, k: nat)
    requires Ascending(runs, |segment.words|) && k <= |runs|
  {
    forall a: nat | a < k :: !LeadsAt(segment, runs, a)
  }

  /** One run more, by whether it and any run before it leads. */
  lemma LeadsSoFar(segment: Segment, runs: seq<Cut>, k: nat)
    requires Ascending(runs, |segment.words|) && 0 < k < |runs| && InTime(segment)
    ensures var left, more, run := Left(segment, runs, k), Left(segment, runs, k + 1), runs[k];
            && left != []
            && (NoneLeads(segment, runs, k) ==> |left| == 1 && more == [Cut(0, run.speaker)])
            && (!NoneLeads(segment, runs, k) ==>
                  && (LeadsAt(segment, runs, k) <==> BigCut(segment, runs, k, |segment.words|))
                  && more == if LeadsAt(segment, runs, k) && left[|left| - 1].speaker != run.speaker
                     then left + [run] else left)
  {
    OneRunMore(segment, runs, k);
    LeadIsThereIff(segment, runs, k);
    hide Ascending, Big, BigCut, InTime, Left;
  }

  lemma {:induction false} LastLeadIsThere(segment: Segment, runs: seq<Cut>, k: nat) returns (a: nat)
    requires Ascending(runs, |segment.words|) && k <= |runs| && !NoneLeads(segment, runs, k)
    ensures LastLead(segment, runs, a, k)
  {
    hide LeadsAt, Ascending;
    if LeadsAt(segment, runs, k - 1) {
      a := k - 1;
    } else {
      a := LastLeadIsThere(segment, runs, k - 1);
    }
  }

  /** The last part has the speaker of the last run that leads. */
  lemma {:induction false} LastPartIsOfLead(segment: Segment, runs: seq<Cut>, a: nat, k: nat)
    requires Ascending(runs, |segment.words|) && 0 < k <= |runs| && InTime(segment)
    requires LastLead(segment, runs, a, k)
    ensures var left := Left(segment, runs, k); left != [] && left[|left| - 1].speaker == runs[a].speaker
  {
    hide Ascending, Big, BigCut, InTime, Left, LeadsAt;
    FirstIsLeft(segment, runs);
    if k > 1 {
      LeadsSoFar(segment, runs, k - 1);
      if a < k - 1 {
        LastPartIsOfLead(segment, runs, a, k - 1);
      }
    }
  }

  /** A part begins with run `j` exactly when the run is large and of another speaker than the last that leads. */
  ghost predicate ChangesWith(segment: Segment, runs: seq<Cut>, j: nat)
    requires Ascending(runs, |segment.words|) && j < |runs|
  {
    && BigCut(segment, runs, j, |segment.words|)
    && exists a: nat :: LastLead(segment, runs, a, j) && runs[a].speaker != runs[j].speaker
  }

  ghost predicate PartBegins(cuts: seq<Cut>, x: nat) {
    exists i: nat :: 0 < i < |cuts| && cuts[i].first == x
  }

  lemma ChangesIffAppended(segment: Segment, runs: seq<Cut>, k: nat)
    requires Ascending(runs, |segment.words|) && 0 < k < |runs| && InTime(segment)
    ensures var left, more, run := Left(segment, runs, k), Left(segment, runs, k + 1), runs[k];
            && left != []
            && (ChangesWith(segment, runs, k) ==> more == left + [run])
            && (!ChangesWith(segment, runs, k) ==> more == left || (|left| == 1 && more == [Cut(0, run.speaker)]))
  {
    LeadsSoFar(segment, runs, k);
    hide Ascending, Big, BigCut, InTime, Left, LeadsAt;
    if NoneLeads(segment, runs, k) {
      assert !ChangesWith(segment, runs, k);
    } else {
      var a := LastLeadIsThere(segment, runs, k);
      LastPartIsOfLead(segment, runs, a, k);
      forall b: nat | LastLead(segment, runs, b, k) ensures b == a {
      }
    }
  }

  lemma {:induction false} PartBeginsIff(segment: Segment, runs: seq<Cut>, k: nat, j: nat)
    requires Ascending(runs, |segment.words|) && 0 < k <= |runs| && InTime(segment) && 0 < j < k
    ensures PartBegins(Left(segment, runs, k), runs[j].first) <==> ChangesWith(segment, runs, j)
  {
    hide Ascending, Big, BigCut, InTime, Left, ChangesWith, PartBegins;
    ChangesIffAppended(segment, runs, k - 1);
    var left, more := Left(segment, runs, k - 1), Left(segment, runs, k);
    AppendBegins(left, runs[k - 1], runs[j].first);
    OneBegins(left, runs[j].first);
    OneBegins(more, runs[j].first);
    if j < k - 1 {
      PartBeginsIff(segment, runs, k - 1, j);
      RunsApart(segment, runs, j, k - 1);
    } else {
      NotYetBegun(segment, runs, j);
    }
  }

  lemma RunsApart(segment: Segment, runs: seq<Cut>, j: nat, k: nat)
    requires Ascending(runs, |segment.words|) && j < k < |runs|
    ensures runs[j].first < runs[k].first
  {
  }

  lemma NotYetBegun(segment: Segment, runs: seq<Cut>, k: nat)
    requires Ascending(runs, |segment.words|) && 0 < k < |runs|
    ensures !PartBegins(Left(segment, runs, k), runs[k].first)
  {
    LeftAscends(segment, runs, k);
  }

  lemma OneBegins(cuts: seq<Cut>, x: nat)
    ensures |cuts| == 1 ==> !PartBegins(cuts, x)
  {
  }

  lemma AppendBegins(cuts: seq<Cut>, run: Cut, x: nat)
    requires cuts != []
    ensures PartBegins(cuts + [run], x) <==> PartBegins(cuts, x) || run.first == x
  {
    var more := cuts + [run];
    assert more[|cuts|] == run;
    if PartBegins(cuts, x) {
      var i: nat :| 0 < i < |cuts| && cuts[i].first == x;
      assert more[i] == cuts[i];
    }
  }

  /** Parts begin with runs only. */
  lemma {:induction false} PartsAreRuns(segment: Segment, runs: seq<Cut>, k: nat, i: nat) returns (j: nat)
    requires Ascending(runs, |segment.words|) && 0 < k <= |runs| && InTime(segment)
    requires 0 < i < |Left(segment, runs, k)|
    ensures 0 < j < k && Left(segment, runs, k)[i].first == runs[j].first
  {
    hide Ascending, Big, BigCut, InTime, Left, ChangesWith;
    FirstIsLeft(segment, runs);
    ChangesIffAppended(segment, runs, k - 1);
    if i < |Left(segment, runs, k - 1)| {
      j := PartsAreRuns(segment, runs, k - 1, i);
    } else {
      j := k - 1;
    }
  }

  /** A run that leads lies in a part of its speaker. */
  lemma {:induction false} LeadIsInPart(segment: Segment, runs: seq<Cut>, k: nat, a: nat) returns (i: nat)
    requires Ascending(runs, |segment.words|) && 0 < k <= |runs| && InTime(segment)
    requires a < k && LeadsAt(segment, runs, a)
    ensures var left := Left(segment, runs, k);
            && i < |left| && left[i].speaker == runs[a].speaker && left[i].first <= runs[a].first
            && NextOf(runs, a, |segment.words|) <= NextOf(left, i, NextOf(runs, k - 1, |segment.words|))
  {
    hide Ascending, Big, BigCut, InTime, Left, LeadsAt;
    FirstIsLeft(segment, runs);
    if k == 1 {
      i := 0;
    } else {
      LeadsSoFar(segment, runs, k - 1);
      PartsComeBefore(segment, runs, k - 1);
      if a == k - 1 {
        i := |Left(segment, runs, k)| - 1;
      } else {
        i := LeadIsInPart(segment, runs, k - 1, a);
        assert !NoneLeads(segment, runs, k - 1);
      }
    }
  }

  lemma PartsComeBefore(segment: Segment, runs: seq<Cut>, k: nat)
    requires Ascending(runs, |segment.words|) && 0 < k < |runs|
    ensures forall i | 0 <= i < |Left(segment, runs, k)| :: Left(segment, runs, k)[i].first < runs[k].first
    ensures runs[k].first < NextOf(runs, k, |segment.words|)
  {
    LeftAscends(segment, runs, k);
  }

  // -- From runs to words -----------------------------------------------------------------------------

  lemma LeadsIff(segment: Segment, turns: seq<Turn>, a: nat)
    requires turns != [] && a < |RunsOf(segment.words, turns)|
    ensures Ascending(RunsOf(segment.words, turns), |segment.words|)
    ensures var runs := RunsOf(segment.words, turns);
            Leads(segment, turns, runs[a].first, NextOf(runs, a, |segment.words|)) <==> LeadsAt(segment, runs, a)
  {
    RunIsRun(segment.words, turns, a);
    var runs := RunsOf(segment.words, turns);
    assert a > 0 <==> runs[a].first > 0;
    hide IsRun, RunsOf;
  }

  lemma LeadsLastIff(segment: Segment, turns: seq<Turn>, a: nat, k: nat)
    requires turns != [] && a < k < |RunsOf(segment.words, turns)|
    ensures Ascending(RunsOf(segment.words, turns), |segment.words|)
    ensures var runs := RunsOf(segment.words, turns);
            LeadsLast(segment, turns, runs[a].first, NextOf(runs, a, |segment.words|), runs[k].first)
            <==> LastLead(segment, runs, a, k)
  {
    hide RunsOf, Leads, LeadsAt, IsRun, Big;
    var words, runs := segment.words, RunsOf(segment.words, turns);
    LeadsIff(segment, turns, a);
    var i, j, x := runs[a].first, NextOf(runs, a, |words|), runs[k].first;
    if LeadsLast(segment, turns, i, j, x) {
      forall b: nat | a < b < k ensures !LeadsAt(segment, runs, b) {
        LeadsIff(segment, turns, b);
        RunsInside(runs, a, b, k, |words|);
      }
    }
    if LastLead(segment, runs, a, k) {
      forall y: nat, z: nat | j <= y && z <= x && Leads(segment, turns, y, z) ensures false {
        var b := LeadIsOne(segment, turns, y, z);
        InsideRuns(runs, a, b, k, |words|);
        LeadsIff(segment, turns, b);
      }
      RunsInside(runs, a, a, k, |words|);
    }
  }

  lemma LeadIsOne(segment: Segment, turns: seq<Turn>, i: nat, j: nat) returns (a: nat)
    requires turns != [] && Leads(segment, turns, i, j)
    ensures a < |RunsOf(segment.words, turns)|
    ensures RunsOf(segment.words, turns)[a].first == i
    ensures NextOf(RunsOf(segment.words, turns), a, |segment.words|) == j
  {
    hide RunsOf, IsRun, Big;
    a := RunIsOne(segment.words, turns, i, j);
  }

  lemma RunsInside(runs: seq<Cut>, a: nat, b: nat, k: nat, n: nat)
    requires Ascending(runs, n) && a <= b < k < |runs|
    ensures a < b ==> NextOf(runs, a, n) <= runs[b].first
    ensures NextOf(runs, b, n) <= runs[k].first
  {
  }

  lemma InsideRuns(runs: seq<Cut>, a: nat, b: nat, k: nat, n: nat)
    requires Ascending(runs, n) && a < k < |runs| && b < |runs|
    requires NextOf(runs, a, n) <= runs[b].first && NextOf(runs, b, n) <= runs[k].first
    ensures a < b < k
  {
  }

  lemma ChangesIff(segment: Segment, turns: seq<Turn>, k: nat)
    requires turns != [] && k < |RunsOf(segment.words, turns)|
    ensures Ascending(RunsOf(segment.words, turns), |segment.words|)
    ensures var runs := RunsOf(segment.words, turns);
            ChangesAt(segment, turns, runs[k].first) <==> ChangesWith(segment, runs, k)
  {
    hide RunsOf, LeadsAt, Big, TurnSpeakerOf;
    var words, runs := segment.words, RunsOf(segment.words, turns);
    RunIsRun(words, turns, k);
    var x, next := runs[k].first, NextOf(runs, k, |words|);
    if ChangesWith(segment, runs, k) {
      var a: nat :| LastLead(segment, runs, a, k) && runs[a].speaker != runs[k].speaker;
      LeadsLastIff(segment, turns, a, k);
      RunIsRun(words, turns, a);
      assert LeadsLast(segment, turns, runs[a].first, NextOf(runs, a, |words|), x);
    }
    if ChangesAt(segment, turns, x) {
      var i: nat, j: nat, l: nat :| LeadsLast(segment, turns, i, j, x) && IsRun(words, turns, x, l) &&
        Big(segment, x, l)
        && TurnSpeakerOf(words[i], turns) != TurnSpeakerOf(words[x], turns);
      var a := LastIsOne(segment, turns, i, j, k);
      LeadsLastIff(segment, turns, a, k);
      RunIsRun(words, turns, a);
      OneEnd(words, turns, x, next, l);
    }
  }

  lemma LastIsOne(segment: Segment, turns: seq<Turn>, i: nat, j: nat, k: nat) returns (a: nat)
    requires turns != [] && k < |RunsOf(segment.words, turns)|
    requires LeadsLast(segment, turns, i, j, RunsOf(segment.words, turns)[k].first)
    ensures a < k && RunsOf(segment.words, turns)[a].first == i
    ensures NextOf(RunsOf(segment.words, turns), a, |segment.words|) == j
  {
    hide RunsOf, IsRun, Big, TurnSpeakerOf;
    a := LeadIsOne(segment, turns, i, j);
    RunsAscend(segment.words, turns);
  }

  lemma OneEnd(words: seq<Word>, turns: seq<Turn>, i: nat, j: nat, k: nat)
    requires turns != [] && IsRun(words, turns, i, j) && IsRun(words, turns, i, k)
    ensures j == k
  {
    hide TurnSpeakerOf;
  }

  // -- The segments that come out -----------------------------------------------------------------

  lemma SettlesFromGroup(segment: Segment, turns: seq<Turn>, out: seq<Segment>, settled: seq<Piece>)
    requires RecutOf(segment, turns, out, settled) && segment.words != [] && |turns| >= 2
    ensures var pieces := Group(segment.words, turns);
            NoneEmpty(pieces) && Labelled(pieces, turns) && Settles(segment, turns, pieces, settled)
  {
    hide Settles, Group;
    GroupIsPieces(segment.words, turns);
  }

  lemma SecondDiffers(runs: seq<Cut>)
    requires Differ(runs) && |runs| > 1
    ensures runs[0].speaker != runs[1].speaker
  {
  }

  /** The settled pieces are cut where the fold from left to right leaves cuts. */
  lemma SettledIsLeft(segment: Segment, turns: seq<Turn>, out: seq<Segment>, settled: seq<Piece>)
    requires RecutOf(segment, turns, out, settled) && InTime(segment) && segment.words != [] && |turns| >= 2
    ensures var runs := RunsOf(segment.words, turns);
            && runs != [] && Ascending(runs, |segment.words|)
            && CutInto(segment.words, Left(segment, runs, |runs|), settled)
  {
    var words, runs := segment.words, RunsOf(segment.words, turns);
    hide *;
    RunsAscend(words, turns);
    GroupIsCut(words, turns);
    SettlesFromGroup(segment, turns, out, settled);
    UnderwayAtFirst(segment, turns, runs, Group(words, turns), settled);
    SettlesTo(segment, turns, runs, 1, Group(words, turns), settled);
  }

  lemma UnderwayAtFirst(segment: Segment, turns: seq<Turn>, runs: seq<Cut>, pieces: seq<Piece>, settled: seq<Piece>)
    requires Ascending(runs, |segment.words|) && Differ(runs) && runs != [] && turns != []
    requires NoneEmpty(pieces) && Labelled(pieces, turns) && Settles(segment, turns, pieces, settled)
    requires CutInto(segment.words, runs, pieces)
    ensures Underway(segment, turns, runs, 1, pieces, settled)
  {
    hide Ascending, NoneEmpty, Labelled, Settles, Left, CutInto, Differ;
    FirstIsLeft(segment, runs);
    assert runs == [runs[0]] + runs[1..];
    if |runs| > 1 {
      SecondDiffers(runs);
    }
  }

  /** The words before segment `m` of the output are those before its cut. */
  lemma WordsBefore(segment: Segment, turns: seq<Turn>, out: seq<Segment>, settled: seq<Piece>, cuts: seq<Cut>, m: nat)
    requires RecutOf(segment, turns, out, settled) && |out| > 1 && m <= |out|
    requires CutInto(segment.words, cuts, settled)
    ensures |out| == |settled| == |cuts| && WordsIn(out[..m]) == WordsOf(settled[..m])
    ensures |WordsIn(out[..m])| == if m < |cuts| then cuts[m].first else |segment.words|
    ensures forall i: nat | i < |out| :: out[i].words == settled[i].words
    ensures segment.words != [] && |turns| >= 2
  {
    hide Settles, JoinTexts;
    EmittedWords(segment, settled[..m], out[..m]);
    assert m < |cuts| ==> cuts[m].first < |segment.words|;
    WordsOfCuts(segment.words, cuts, settled, m);
  }

  lemma CutBeforeIff(segment: Segment, turns: seq<Turn>, out: seq<Segment>, settled: seq<Piece>, cuts: seq<Cut>, x: nat)
    requires RecutOf(segment, turns, out, settled) && segment.words != [] && |turns| >= 2
    requires CutInto(segment.words, cuts, settled)
    ensures CutBefore(out, x) <==> PartBegins(cuts, x)
  {
    assert |out| > 1 <==> |cuts| > 1;
    assert |out| > 1 ==> |out| == |cuts|;
    hide RecutOf, WordsIn, CutInto;
    forall m: nat | 0 < m < |out| ensures |WordsIn(out[..m])| == cuts[m].first {
      WordsBefore(segment, turns, out, settled, cuts, m);
    }
  }

  lemma OneTurnNeverChanges(segment: Segment, turns: seq<Turn>, x: nat)
    requires |turns| == 1
    ensures !ChangesAt(segment, turns, x)
  {
    hide Big;
  }

  /**
    A segment is cut before exactly the words at which a large run begins whose
    speaker is not that of the last run that leads.
   */
  lemma CutExactlyAtChanges(segment: Segment, turns: seq<Turn>, out: seq<Segment>, settled: seq<Piece>, x: nat)
    requires turns != [] && RecutOf(segment, turns, out, settled) && InTime(segment)
    ensures CutBefore(out, x) <==> ChangesAt(segment, turns, x)
  {
    if segment.words == [] {
    } else if |turns| == 1 {
      OneTurnNeverChanges(segment, turns, x);
    } else {
      var runs := RunsOf(segment.words, turns);
      SettledIsLeft(segment, turns, out, settled);
      var left := Left(segment, runs, |runs|);
      CutBeforeIff(segment, turns, out, settled, left, x);
      hide RecutOf, InTime, RunsOf, Left, CutInto, ChangesWith, CutBefore, Ascending;
      if PartBegins(left, x) {
        var i: nat :| 0 < i < |left| && left[i].first == x;
        var j := PartsAreRuns(segment, runs, |runs|, i);
        PartBeginsIff(segment, runs, |runs|, j);
        ChangesIff(segment, turns, j);
      }
      if ChangesAt(segment, turns, x) {
        var j := ChangeIsRun(segment, turns, x);
        PartBeginsIff(segment, runs, |runs|, j);
        ChangesIff(segment, turns, j);
      }
    }
  }

  lemma ChangeIsRun(segment: Segment, turns: seq<Turn>, x: nat) returns (k: nat)
    requires turns != [] && ChangesAt(segment, turns, x)
    ensures 0 < k < |RunsOf(segment.words, turns)| && RunsOf(segment.words, turns)[k].first == x
  {
    hide RunsOf, Big;
    var i: nat, j: nat, l: nat :| LeadsLast(segment, turns, i, j, x) && IsRun(segment.words, turns, x, l)
      && Big(segment, x, l) && TurnSpeakerOf(segment.words[i], turns) != TurnSpeakerOf(segment.words[x], turns);
    k := RunIsOne(segment.words, turns, x, l);
    RunsAscend(segment.words, turns);
  }

  /** A run that leads comes out in a part of its own speaker. */
  lemma LeadComesOutAsItsSpeaker(segment: Segment, turns: seq<Turn>, out: seq<Segment>, settled: seq<Piece>,
                                 i: nat, j: nat)
    returns (m: nat)
    requires turns != [] && RecutOf(segment, turns, out, settled) && InTime(segment) && |out| > 1
    requires Leads(segment, turns, i, j)
    ensures m < |out| == |settled| && out[m].words == settled[m].words
    ensures settled[m].speaker == TurnSpeakerOf(segment.words[i], turns)
    ensures |WordsIn(out[..m])| <= i && j <= |WordsIn(out[..m + 1])|
  {
    hide RunsOf, Left, Leads, LeadsAt, RecutOf, InTime, WordsIn, WordsOf, TurnSpeakerOf, Ascending, CutInto, IsCut,
      IsRun,
      Big;
    SplitHasWords(segment, turns, out, settled);
    var runs := RunsOf(segment.words, turns);
    SettledIsLeft(segment, turns, out, settled);
    var left := Left(segment, runs, |runs|);
    var a := LeadIsOne(segment, turns, i, j);
    RunIsRun(segment.words, turns, a);
    LeadsIff(segment, turns, a);
    m := LeadIsInPart(segment, runs, |runs|, a);
    WordsBefore(segment, turns, out, settled, left, 0);
    WordsBefore(segment, turns, out, settled, left, m);
    WordsBefore(segment, turns, out, settled, left, m + 1);
    PieceIsCut(segment.words, left, settled, m);
  }

  lemma SplitHasWords(segment: Segment, turns: seq<Turn>, out: seq<Segment>, settled: seq<Piece>)
    requires RecutOf(segment, turns, out, settled) && |out| > 1
    ensures segment.words != [] && |turns| >= 2
  {
    hide Settles;
  }

  /** Large runs of different speakers with none but small ones between are cut at the later one. */
  lemma LargeRunsAreParted(segment: Segment, turns: seq<Turn>, out: seq<Segment>, settled: seq<Piece>,
                           i: nat, j: nat, x: nat, k: nat)
    requires turns != [] && RecutOf(segment, turns, out, settled) && InTime(segment)
    requires IsRun(segment.words, turns, i, j) && Big(segment, i, j) && j <= x
    requires IsRun(segment.words, turns, x, k) && Big(segment, x, k)
    requires forall y: nat, z: nat | j <= y && z <= x && IsRun(segment.words, turns, y, z) :: !Big(segment, y, z)
    requires TurnSpeakerOf(segment.words[i], turns) != TurnSpeakerOf(segment.words[x], turns)
    ensures CutBefore(out, x)
  {
    hide RecutOf, InTime, CutBefore, Big, IsRun, TurnSpeakerOf;
    forall y: nat, z: nat | j <= y && z <= x ensures !Leads(segment, turns, y, z) {
      SmallRunsDoNotLead(segment, turns, i, j, y, z);
    }
    assert LeadsLast(segment, turns, i, j, x);
    CutExactlyAtChanges(segment, turns, out, settled, x);
  }

  lemma SmallRunsDoNotLead(segment: Segment, turns: seq<Turn>, i: nat, j: nat, y: nat, z: nat)
    requires turns != [] && InTime(segment) && IsRun(segment.words, turns, i, j) && Big(segment, i, j) && j <= y
    requires IsRun(segment.words, turns, y, z) ==> !Big(segment, y, z)
    ensures !Leads(segment, turns, y, z)
  {
    hide TurnSpeakerOf;
    if IsRun(segment.words, turns, y, z) {
      BigGrows(segment, i, j, y);
    }
  }

  /** A small run goes to the one before it, and what is small at the beginning to the one after it. */
  lemma SmallRunsAreTaken(segment: Segment, turns: seq<Turn>, out: seq<Segment>, settled: seq<Piece>, i: nat, j: nat)
    requires turns != [] && RecutOf(segment, turns, out, settled) && InTime(segment)
    requires IsRun(segment.words, turns, i, j)
    ensures !Big(segment, i, j) ==> !CutBefore(out, i)
    ensures !Big(segment, 0, j) ==> !CutBefore(out, j)
  {
    CutExactlyAtChanges(segment, turns, out, settled, i);
    CutExactlyAtChanges(segment, turns, out, settled, j);
    hide RecutOf, CutBefore, TurnSpeakerOf;
    if ChangesAt(segment, turns, i) && !Big(segment, i, j) {
      var k: nat :| IsRun(segment.words, turns, i, k) && Big(segment, i, k);
      OneEnd(segment.words, turns, i, j, k);
    }
    if ChangesAt(segment, turns, j) && !Big(segment, 0, j) {
      var y: nat, z: nat :| LeadsLast(segment, turns, y, z, j);
      if Big(segment, y, z) {
        BigGrows(segment, y, z, j);
      } else {
        BigGrows(segment, 0, z, j);
      }
    }
  }
}
