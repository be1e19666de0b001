/**
  What the diarization labels of a stretch of time say about its turns
  (transcriptions/known_speaker.py): seconds are summed over all turns of a label.
 */
module RawLabels {
  import opened Wrappers
  import opened Turns
  import opened SpeakerVotes
  import TextOrder

  // -- Seconds of turns ---------------------------------------------------------------------------

  /** The time lies in the stretch and in the turn. */
  predicate InBoth(turn: Turn, start: real, end: real, x: real) { start <= x < end && Covers(turn, x) }

  /** How long the stretch and the turn last together. */
  function Shared(turn: Turn, start: real, end: real): real {
    if Overlap(start, end, turn) > 0.0 then Overlap(start, end, turn) else 0.0
  }

  /** It is the length of the interval of the times that are in both. */
  lemma SharedIsLength(turn: Turn, start: real, end: real) returns (lo: real, hi: real)
    ensures lo <= hi && Shared(turn, start, end) == hi - lo
    ensures forall x :: InBoth(turn, start, end, x) <==> lo <= x < hi
  {
    lo := if start > turn.start then start else turn.start;
    hi := if Before(turn.end, At(end)) then turn.end.time else end;
    if hi < lo {
      hi := lo;
    }
  }

  /** The seconds of one label, over all its turns. */
  function SecondsOf(turns: seq<Turn>, name: string, start: real, end: real): real {
    if turns == [] then 0.0
    else
      var last := turns[|turns| - 1];
      SecondsOf(turns[..|turns| - 1], name, start, end) + if last.speaker == name then Shared(last, start, end) else 0.0
  }

  /** The seconds of all other labels together. */
  function OtherSeconds(turns: seq<Turn>, name: string, start: real, end: real): real {
    if turns == [] then 0.0
    else
      var last := turns[|turns| - 1];
      OtherSeconds(turns[..|turns| - 1], name, start, end) + if last.speaker == name then 0.0
        else Shared(last, start, end)
  }

  lemma {:induction false} SecondsAreNotNegative(turns: seq<Turn>, name: string, start: real, end: real)
    ensures SecondsOf(turns, name, start, end) >= 0.0
  {
    if turns != [] {
      SecondsAreNotNegative(turns[..|turns| - 1], name, start, end);
    }
  }

  // -- The table of overlaps ----------------------------------------------------------------------------

  function Entry(overlaps: Overlaps, name: string): real {
    if overlaps == [] then 0.0 else if overlaps[0].0 == name then overlaps[0].1 else Entry(overlaps[1..], name)
  }

  /** One entry per label, with more than no seconds. */
  ghost predicate Proper(overlaps: Overlaps) {
    && (forall i, j | 0 <= i < j < |overlaps| :: overlaps[i].0 != overlaps[j].0)
    && (forall entry | entry in overlaps :: entry.1 > 0.0)
  }

  lemma {:induction false} AddedNames(overlaps: Overlaps, name: string, seconds: real)
    ensures forall entry | entry in AddSeconds(overlaps, name, seconds) ::
              entry.0 == name || exists e :: e in overlaps && e.0 == entry.0
  {
    if overlaps != [] && overlaps[0].0 != name {
      AddedNames(overlaps[1..], name, seconds);
      forall entry | entry in AddSeconds(overlaps, name, seconds)
        ensures entry.0 == name || exists e :: e in overlaps && e.0 == entry.0
      {
        if entry != overlaps[0] && entry.0 != name {
          var e :| e in overlaps[1..] && e.0 == entry.0;
          assert e in overlaps;
        }
      }
    }
  }

  lemma {:induction false} AddingIsProper(overlaps: Overlaps, name: string, seconds: real)
    requires Proper(overlaps) && seconds > 0.0
    ensures Proper(AddSeconds(overlaps, name, seconds))
  {
    if overlaps == [] {
    } else if overlaps[0].0 == name {
      var more := AddSeconds(overlaps, name, seconds);
      assert forall i | 0 < i < |more| :: more[i] == overlaps[i];
      assert overlaps[0] in overlaps;
    } else {
      var rest := overlaps[1..];
      assert Proper(rest) by {
        forall i, j | 0 <= i < j < |rest| ensures rest[i].0 != rest[j].0 {
          assert overlaps[i + 1].0 != overlaps[j + 1].0;
        }
      }
      AddingIsProper(rest, name, seconds);
      AddedNames(rest, name, seconds);
      var more := AddSeconds(rest, name, seconds);
      forall j | 0 <= j < |more| ensures more[j].0 != overlaps[0].0 {
        assert more[j] in more;
        if more[j].0 != name {
          var e :| e in rest && e.0 == more[j].0;
          var k :| 0 <= k < |rest| && rest[k] == e;
          assert overlaps[0].0 != overlaps[k + 1].0;
        }
      }
    }
  }

  lemma {:induction false} AddingCounts(overlaps: Overlaps, name: string, seconds: real)
    ensures forall m ::
        Entry(AddSeconds(overlaps, name, seconds), m) == Entry(overlaps, m) + if m == name then seconds else 0.0
    ensures TotalSeconds(AddSeconds(overlaps, name, seconds)) == TotalSeconds(overlaps) + seconds
  {
    if overlaps != [] && overlaps[0].0 != name {
      AddingCounts(overlaps[1..], name, seconds);
    }
  }

  /** The table has, for each label, its seconds over all turns. */
  lemma {:induction false} TableIsSums(turns: seq<Turn>, start: real, end: real)
    ensures var table := RawTurnOverlaps(start, end, turns);
            && Proper(table)
            && (forall m :: Entry(table, m) == SecondsOf(turns, m, start, end))
            && (forall m :: TotalSeconds(table) == SecondsOf(turns, m, start, end) + OtherSeconds(turns, m, start, end))
  {
    if turns != [] {
      var n := |turns| - 1;
      TableIsSums(turns[..n], start, end);
      var earlier, seconds := RawTurnOverlaps(start, end, turns[..n]), Overlap(start, end, turns[n]);
      hide Overlap, Proper, Entry, TotalSeconds, AddSeconds;
      if seconds > 0.0 {
        AddingIsProper(earlier, turns[n].speaker, seconds);
        AddingCounts(earlier, turns[n].speaker, seconds);
      }
    }
  }

  lemma {:induction false} EntryOfMember(overlaps: Overlaps, entry: (string, real))
    requires Proper(overlaps) && entry in overlaps
    ensures Entry(overlaps, entry.0) == entry.1 > 0.0
  {
    if overlaps[0] != entry {
      var k :| 0 <= k < |overlaps| && overlaps[k] == entry;
      assert overlaps[0].0 != overlaps[k].0;
      assert Proper(overlaps[1..]) by {
        forall i, j | 0 <= i < j < |overlaps| - 1 ensures overlaps[1..][i].0 != overlaps[1..][j].0 {
          assert overlaps[i + 1].0 != overlaps[j + 1].0;
        }
      }
      assert entry in overlaps[1..];
      EntryOfMember(overlaps[1..], entry);
    }
  }

  lemma {:induction false} MemberOfEntry(overlaps: Overlaps, name: string)
    requires Entry(overlaps, name) > 0.0
    ensures (name, Entry(overlaps, name)) in overlaps
  {
    if overlaps[0].0 != name {
      MemberOfEntry(overlaps[1..], name);
    }
  }

  lemma {:induction false} LongestIsMost(overlaps: Overlaps)
    requires overlaps != []
    ensures Longest(overlaps) in overlaps
    ensures forall entry | entry in overlaps ::
              entry.1 < Longest(overlaps).1 || (entry.1 == Longest(overlaps).1 &&
                TextOrder.Leq(Longest(overlaps).0, entry.0))
  {
    var first := overlaps[0];
    TextOrder.Total(first.0, first.0);
    if |overlaps| > 1 {
      var rest := overlaps[1..];
      LongestIsMost(rest);
      var best := Longest(rest);
      TextOrder.Total(first.0, best.0);
      forall entry | entry in overlaps
        ensures entry.1 < Longest(overlaps).1 ||
                  (entry.1 == Longest(overlaps).1 && TextOrder.Leq(Longest(overlaps).0, entry.0))
      {
        assert entry == first || entry in rest;
        if Longest(overlaps) == first && entry in rest && TextOrder.Leq(first.0, best.0) &&
          TextOrder.Leq(best.0, entry.0) {
          TextOrder.Transitive(first.0, best.0, entry.0);
        }
      }
    }
  }

  // -- The single label ---------------------------------------------------------------------------------

  /** The label has more seconds than any other, or as many and comes first by name. */
  ghost predicate HasMost(turns: seq<Turn>, name: string, start: real, end: real) {
    SecondsOf(turns, name, start, end) > 0.0 &&
    forall m :: SecondsOf(turns, m, start, end) < SecondsOf(turns, name, start, end) ||
                  (SecondsOf(turns, m, start, end) == SecondsOf(turns, name, start, end) && TextOrder.Leq(name, m))
  }

  lemma LongestIffMost(turns: seq<Turn>, start: real, end: real, name: string)
    ensures var table := RawTurnOverlaps(start, end, turns);
            HasMost(turns, name, start, end) <==> table != [] && Longest(table).0 == name
    ensures var table := RawTurnOverlaps(start, end, turns);
            table != [] ==> Longest(table).1 == SecondsOf(turns, Longest(table).0, start, end)
  {
    var table := RawTurnOverlaps(start, end, turns);
    TableIsSums(turns, start, end);
    hide RawTurnOverlaps, SecondsOf, OtherSeconds, TotalSeconds;
    if table != [] {
      LongestIsMost(table);
      var best := Longest(table);
      hide Longest;
      EntryOfMember(table, best);
      forall m
        ensures Entry(table, m) < best.1 || (Entry(table, m) == best.1 && TextOrder.Leq(best.0, m))
      {
        if Entry(table, m) > 0.0 {
          MemberOfEntry(table, m);
        }
      }
      if HasMost(turns, name, start, end) {
        if name != best.0 && TextOrder.Leq(name, best.0) && TextOrder.Leq(best.0, name) {
          TextOrder.Antisymmetric(name, best.0);
        }
      }
    }
  }

  /**
    A stretch has the single label exactly when that label's turns last longest in it,
    summed up, ties by name, and those of all others together less than 0.3 seconds.
   */
  lemma SingleLabelIff(turns: seq<Turn>, start: real, end: real, name: string)
    ensures SingleLabelAt(start, end, turns) == Some(name) <==>
              HasMost(turns, name, start, end) && OtherSeconds(turns, name, start, end) < 0.3
  {
    var table := RawTurnOverlaps(start, end, turns);
    TableIsSums(turns, start, end);
    LongestIffMost(turns, start, end, name);
    hide RawTurnOverlaps, SecondsOf, OtherSeconds, TotalSeconds, HasMost, Longest;
  }

  /**
    The labels of a stretch are known exactly when it has one, and all with 0.3 seconds or
    more are in the map; where none lasts as long, the longest one is.
   */
  lemma LabelsAreKnownIff(turns: seq<Turn>, start: real, end: real, mapping: map<string, string>)
    ensures RawLabelsAreKnown(RawTurnOverlaps(start, end, turns), mapping) <==>
              && (forall m | SecondsOf(turns, m, start, end) >= 0.3 :: m in mapping)
              && ((exists m :: SecondsOf(turns, m, start, end) >= 0.3) ||
                   (exists m :: HasMost(turns, m, start, end) && m in mapping))
  {
    var table := RawTurnOverlaps(start, end, turns);
    TableIsSums(turns, start, end);
    hide RawTurnOverlaps, SecondsOf, OtherSeconds, TotalSeconds;
    if table != [] {
      LongestIffMost(turns, start, end, Longest(table).0);
    }
    forall m | HasMost(turns, m, start, end) ensures table != [] && m == Longest(table).0 {
      LongestIffMost(turns, start, end, m);
    }
    hide Longest, HasMost;
    forall entry | entry in table ensures Entry(table, entry.0) == entry.1 {
      EntryOfMember(table, entry);
    }
    forall m | Entry(table, m) > 0.0 ensures (m, Entry(table, m)) in table {
      MemberOfEntry(table, m);
    }
    hide Entry;
  }

  // -- Classified segments in terms of the turns -----------------------------------------------------------

  function Lasting(e: Evidence): real { if e.end > e.start then e.end - e.start else 0.0 }

  /** The label is the only one on the segment, and the vote tied it to the segment's top speaker. */
  ghost predicate LabelNamesTop(e: Evidence, turns: seq<Turn>, mapping: map<string, string>, name: string) {
    && HasMost(turns, name, e.start, e.end) && OtherSeconds(turns, name, e.start, e.end) < 0.3
    && name in mapping && mapping[name] == e.classification.topSpeaker
  }

  lemma CorroboratesIff(e: Evidence, turns: seq<Turn>, mapping: map<string, string>, config: Config)
    ensures Corroborates(e, turns, mapping, config) <==>
              && (exists name :: LabelNamesTop(e, turns, mapping, name))
              && 0.0 < config.turnCorroboratedMinSimilarity <= e.classification.topSimilarity < config.minTopSimilarity
              && Lasting(e) >= config.minSegmentDuration && e.classification.margin >= config.autoAcceptMargin
  {
    hide SingleLabelAt, HasMost, OtherSeconds;
    var single := SingleLabelAt(e.start, e.end, turns);
    if single.Some? {
      SingleLabelIff(turns, e.start, e.end, single.value);
      assert single.value in mapping && mapping[single.value] == e.classification.topSpeaker ==>
          LabelNamesTop(e, turns, mapping, single.value);
    }
    forall name | LabelNamesTop(e, turns, mapping, name) ensures single == Some(name) {
      SingleLabelIff(turns, e.start, e.end, name);
    }
  }

  /**
    Which segments are accepted, for whom and why. Long, similar and clear enough without a
    mixed window: the top speaker. Else similar enough for a single label that the vote ties
    to the top speaker: that speaker, unless a mixed window is held against him. Else the
    speaker of the track, if all labels are known, the embedding does not contradict and no
    mixed window is held against him. All others are uncertain.
   */
  lemma AcceptedIff(e: Evidence, segment: KnownSegment, turns: seq<Turn>, mapping: map<string, string>, config: Config)
    requires Sound(e, segment, config) && Justified(e, segment, turns, mapping, config)
    requires Thorough(e, segment, turns, mapping, config)
    ensures var c, enough := e.classification, Lasting(e) >= config.minSegmentDuration;
            var clear := enough && c.margin >= config.autoAcceptMargin;
            var named := exists name :: LabelNamesTop(e, turns, mapping, name);
            var near := 0.0 < config.turnCorroboratedMinSimilarity <= c.topSimilarity < config.minTopSimilarity;
            && (segment.speaker.Some? && segment.acceptReason.None? <==>
                 clear && c.topSimilarity >= config.minTopSimilarity && e.mixedFor(c.topSpeaker) == [])
            && (segment.acceptReason == Some(TurnCorroborated) <==>
              clear && near && named && e.mixedFor(c.topSpeaker) == [])
            && (segment.acceptReason == Some(SpeakerTrack) <==>
                 && !(clear && c.topSimilarity >= config.minTopSimilarity) && !(clear && near && named)
                 && RawLabelsAreKnown(RawTurnOverlaps(e.start, e.end, turns), mapping)
                 && e.track.Some? && (e.track.value == c.topSpeaker || !clear) && e.mixedFor(e.track.value) == [])
            && (segment.acceptReason.Some? ==> segment.speaker.Some?)
            && (segment.speaker.Some? ==>
                 segment.speaker == if segment.acceptReason == Some(SpeakerTrack) then e.track else Some(c.topSpeaker))
  {
    CorroboratesIff(e, turns, mapping, config);
    hide LabelNamesTop, SingleLabelAt, RawLabelsAreKnown;
  }

  /** The segment votes that the label is the speaker's. */
  ghost predicate CastsVote(e: Evidence, turns: seq<Turn>, config: Config, name: string, speaker: string) {
    && HasMost(turns, name, e.start, e.end) && OtherSeconds(turns, name, e.start, e.end) < 0.3
    && Lasting(e) >= config.minSegmentDuration && e.classification.margin >= config.autoAcceptMargin
    && e.classification.topSimilarity >= config.minTopSimilarity
    && e.classification.topSpeaker == speaker && e.mixedFor(speaker) == []
  }

  lemma BallotIff(e: Evidence, turns: seq<Turn>, config: Config, name: string, speaker: string)
    ensures CastsVote(e, turns, config, name, speaker) <==> BallotsOf(e, turns, config) == [Ballot(name, speaker)]
  {
    SingleLabelIff(turns, e.start, e.end, name);
    hide SingleLabelAt, HasMost, OtherSeconds;
  }

  /** The segments that vote so. */
  ghost function Casters(evidence: seq<Evidence>, turns: seq<Turn>, config: Config, name: string,
      speaker: string): set<nat> {
    set k: nat | k < |evidence| && CastsVote(evidence[k], turns, config, name, speaker)
  }

  lemma CastersOneMore(evidence: seq<Evidence>, turns: seq<Turn>, config: Config, name: string, speaker: string)
    requires evidence != []
    ensures var n := |evidence| - 1;
            |Casters(evidence, turns, config, name, speaker)| ==
              |Casters(evidence[..n], turns, config, name, speaker)| +
              if CastsVote(evidence[n], turns, config, name, speaker) then 1 else 0
  {
    hide CastsVote;
    var n := |evidence| - 1;
    var earlier := Casters(evidence[..n], turns, config, name, speaker);
    assert Casters(evidence, turns, config, name, speaker) ==
        earlier + if CastsVote(evidence[n], turns, config, name, speaker) then {n} else {};
    assert n !in earlier;
  }

  /** A label has as many votes for a speaker as segments cast one. */
  lemma {:induction false} VotesAreCast(evidence: seq<Evidence>, turns: seq<Turn>, config: Config, name: string,
      speaker: string)
    ensures VotesFor(Count(Ballots(evidence, turns, config)), name)[speaker] ==
        |Casters(evidence, turns, config, name, speaker)|
  {
    hide CastsVote, BallotsOf, Casters, Count, VotesFor;
    if evidence == [] {
      NoVotes(turns, config, name, speaker);
    } else {
      var n := |evidence| - 1;
      VotesAreCast(evidence[..n], turns, config, name, speaker);
      BallotIff(evidence[n], turns, config, name, speaker);
      AtMostOneBallot(evidence[n], turns, config);
      OneBallotMore(Ballots(evidence[..n], turns, config), BallotsOf(evidence[n], turns, config), name, speaker);
      CastersOneMore(evidence, turns, config, name, speaker);
    }
  }

  lemma NoVotes(turns: seq<Turn>, config: Config, name: string, speaker: string)
    ensures VotesFor(Count([]), name)[speaker] == 0 && Casters([], turns, config, name, speaker) == {}
  {
  }

  lemma AtMostOneBallot(e: Evidence, turns: seq<Turn>, config: Config)
    ensures |BallotsOf(e, turns, config)| <= 1
  {
  }

  lemma OneBallotMore(ballots: seq<Ballot>, more: seq<Ballot>, name: string, speaker: string)
    requires |more| <= 1
    ensures VotesFor(Count(ballots + more), name)[speaker]
         == VotesFor(Count(ballots), name)[speaker] + if more == [Ballot(name, speaker)] then 1 else 0
  {
    if more == [] {
      assert ballots + more == ballots;
    } else {
      CountOneMore(ballots, more[0]);
      assert more == [more[0]];
    }
  }

  /** A label is tied to a speaker by five votes or more, nine tenths of them for that speaker. */
  lemma TiedIff(votes: Votes, mapping: map<string, string>, name: string, speaker: string)
    requires Ties(votes, mapping)
    ensures name in mapping && mapping[name] == speaker <==>
              |VotesFor(votes, name)| >= 5 && 10 * VotesFor(votes, name)[speaker] >= 9 * |VotesFor(votes, name)|
  {
    assert (name in mapping && mapping[name] == speaker) <==> TiedTo(votes, name, speaker);
  }
}
