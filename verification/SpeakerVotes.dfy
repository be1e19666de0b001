/**
  Two-pass classification of transcript segments against known speakers, with
  the mixed-window veto and the vote that ties diarization labels to speakers
  (transcriptions/known_speaker.py). What the embedding model and the speaker
  track say about a segment is given as evidence.
 */
module SpeakerVotes {
  import opened Wrappers
  import opened Turns
  import TextOrder

  const TURN_CORROBORATION_MAX_OTHER_SECONDS := 0.3
  const TURN_CORROBORATION_MIN_VOTES := 5
  const TURN_CORROBORATION_MIN_SHARE := 0.9

  datatype Config = Config(
    minSegmentDuration: real, autoAcceptMargin: real, minTopSimilarity: real,
    turnCorroboratedMinSimilarity: real)

  datatype Classification = Classification(topSpeaker: string, topSimilarity: real, margin: real)

  datatype MixedWindow = MixedWindow(start: real, end: real, speaker: string)

  /** `mixedFor` are the sub-windows held against a speaker, `track` the speaker the track supports. */
  datatype Evidence = Evidence(
    start: real, end: real, classification: Classification,
    mixedFor: string -> seq<MixedWindow>, track: Option<string>)

  datatype AcceptReason = TurnCorroborated | SpeakerTrack

  datatype KnownSegment = KnownSegment(
    start: real, end: real, speaker: Option<string>, uncertain: bool,
    mixedWindows: seq<MixedWindow>, acceptReason: Option<AcceptReason>)

  // -- Diarization labels of a segment ---------------------------------------------

  /** Seconds by label, in the order the labels first occur. */
  type Overlaps = seq<(string, real)>

  function AddSeconds(overlaps: Overlaps, name: string, seconds: real): Overlaps {
    if overlaps == [] then [(name, seconds)]
    else if overlaps[0].0 == name then [(name, overlaps[0].1 + seconds)] + overlaps[1..]
    else [overlaps[0]] + AddSeconds(overlaps[1..], name, seconds)
  }

  function Overlap(start: real, end: real, turn: Turn): real {
    var until := if Before(turn.end, At(end)) then turn.end.time else end;
    until - (if start > turn.start then start else turn.start)
  }

  function RawTurnOverlaps(start: real, end: real, turns: seq<Turn>): Overlaps {
    if turns == [] then []
    else
      var n := |turns| - 1;
      var earlier := RawTurnOverlaps(start, end, turns[..n]);
      var seconds := Overlap(start, end, turns[n]);
      if seconds > 0.0 then AddSeconds(earlier, turns[n].speaker, seconds) else earlier
  }

  function TotalSeconds(overlaps: Overlaps): real {
    if overlaps == [] then 0.0 else overlaps[0].1 + TotalSeconds(overlaps[1..])
  }

  /** The longest overlap, ties by label. */
  function Longest(overlaps: Overlaps): (string, real)
    requires overlaps != []
  {
    if |overlaps| == 1 then overlaps[0]
    else
      var rest := Longest(overlaps[1..]);
      var first := overlaps[0];
      if first.1 > rest.1 || (first.1 == rest.1 && TextOrder.Leq(first.0, rest.0)) then first else rest
  }

  function SingleRawLabel(overlaps: Overlaps): Option<string> {
    if overlaps == [] then None
    else if TotalSeconds(overlaps) - Longest(overlaps).1 >= TURN_CORROBORATION_MAX_OTHER_SECONDS then None
    else Some(Longest(overlaps).0)
  }

  function SingleLabelAt(start: real, end: real, turns: seq<Turn>): Option<string> {
    SingleRawLabel(RawTurnOverlaps(start, end, turns))
  }

  predicate AllKnown(overlaps: Overlaps, mapping: map<string, string>) {
    forall entry | entry in overlaps && entry.1 >= TURN_CORROBORATION_MAX_OTHER_SECONDS :: entry.0 in mapping
  }

  predicate RawLabelsAreKnown(overlaps: Overlaps, mapping: map<string, string>) {
    overlaps != [] &&
    if exists entry :: entry in overlaps && entry.1 >= TURN_CORROBORATION_MAX_OTHER_SECONDS
    then AllKnown(overlaps, mapping)
    else Longest(overlaps).0 in mapping
  }

  // -- Votes -------------------------------------------------------------------------

  /** For every label the speakers voted for, with multiplicity. */
  type Votes = map<string, multiset<string>>

  datatype Ballot = Ballot(name: string, speaker: string)

  function VotesFor(votes: Votes, name: string): multiset<string> {
    if name in votes then votes[name] else multiset{}
  }

  function AddVote(votes: Votes, ballot: Ballot): Votes {
    votes[ballot.name := VotesFor(votes, ballot.name) + multiset{ballot.speaker}]
  }

  function Count(ballots: seq<Ballot>): Votes {
    if ballots == [] then map[] else AddVote(Count(ballots[..|ballots| - 1]), ballots[|ballots| - 1])
  }

  ghost predicate NoEmptyVote(votes: Votes) {
    forall name | name in votes :: votes[name] != multiset{}
  }

  lemma {:induction false} CountHasNoEmptyVote(ballots: seq<Ballot>)
    ensures NoEmptyVote(Count(ballots))
  {
    if ballots != [] {
      CountHasNoEmptyVote(ballots[..|ballots| - 1]);
      var last := ballots[|ballots| - 1];
      assert last.speaker in Count(ballots)[last.name];
    }
  }

  /** Enough votes, nearly all of them for `speaker`, tie the label to that speaker. */
  ghost predicate TiedTo(votes: Votes, name: string, speaker: string) {
    && name in votes
    && |votes[name]| >= TURN_CORROBORATION_MIN_VOTES
    && votes[name][speaker] as real >= TURN_CORROBORATION_MIN_SHARE * |votes[name]| as real
  }

  ghost predicate Ties(votes: Votes, mapping: map<string, string>) {
    forall name, speaker :: (name in mapping && mapping[name] == speaker) <==> TiedTo(votes, name, speaker)
  }

  lemma TwoSharesFit(votes: multiset<string>, a: string, b: string)
    requires a != b
    ensures votes[a] + votes[b] <= |votes|
  {
    var rest := votes[a := 0];
    assert |rest| == |votes| - votes[a];
    assert rest == rest[b := 0] + multiset{}[b := rest[b]];
    assert |rest[b := 0]| == |rest| - rest[b];
  }

  /** A label is tied to at most one speaker. */
  lemma TiedToIsUnique(votes: Votes, name: string, a: string, b: string)
    requires TiedTo(votes, name, a) && TiedTo(votes, name, b)
    ensures a == b
  {
    if a != b {
      TwoSharesFit(votes[name], a, b);
    }
  }

  /** The built-in `min` by falling count and then by name. */
  method Winner(votes: multiset<string>) returns (speaker: string)
    requires votes != multiset{}
    ensures speaker in votes
    ensures forall other | other in votes ::
              votes[other] < votes[speaker] || (votes[other] == votes[speaker] && TextOrder.Leq(speaker, other))
  {
    var names := set name | name in votes;
    ghost var some :| some in votes;
    assert some in names;
    speaker :| speaker in names;
    TextOrder.Total(speaker, speaker);
    ghost var all := names;
    names := names - {speaker};
    while names != {}
      invariant names <= all && speaker in votes
      invariant forall other | other in all - names ::
                  votes[other] < votes[speaker] || (votes[other] == votes[speaker] && TextOrder.Leq(speaker, other))
      decreases names
    {
      var next :| next in names;
      names := names - {next};
      if votes[next] > votes[speaker] || (votes[next] == votes[speaker] && TextOrder.Leq(next, speaker)) {
        TextOrder.Total(next, next);
        forall other | other in all - names && votes[other] == votes[next] ensures TextOrder.Leq(next, other) {
          if other != next {
            TextOrder.Transitive(next, speaker, other);
          }
        }
        speaker := next;
      } else {
        TextOrder.Total(speaker, next);
      }
    }
  }

  method MapRawLabelsToSpeakers(votes: Votes) returns (mapping: map<string, string>)
    requires NoEmptyVote(votes)
    ensures Ties(votes, mapping)
  {
    mapping := map[];
    var names := votes.Keys;
    while names != {}
      invariant names <= votes.Keys && names !! mapping.Keys
      invariant forall name, speaker ::
                  (name in mapping && mapping[name] == speaker) <==> name !in names && TiedTo(votes, name, speaker)
      decreases names
    {
      var name :| name in names;
      names := names - {name};
      var speaker := Winner(votes[name]);
      var total, count := |votes[name]|, votes[name][speaker];
      forall other | TiedTo(votes, name, other) ensures other == speaker {
        assert votes[name][other] <= votes[name][speaker] by {
          assert votes[name][other] > 0 ==> other in votes[name];
        }
        assert TiedTo(votes, name, speaker);
        TiedToIsUnique(votes, name, other, speaker);
      }
      if total >= TURN_CORROBORATION_MIN_VOTES && count as real >= TURN_CORROBORATION_MIN_SHARE * total as real {
        mapping := mapping[name := speaker];
      }
    }
  }

  // -- Acceptance ------------------------------------------------------------------------

  function Duration(e: Evidence): real {
    if e.end - e.start > 0.0 then e.end - e.start else 0.0
  }

  predicate IsConfident(e: Evidence, config: Config) {
    && Duration(e) >= config.minSegmentDuration
    && e.classification.topSimilarity >= config.minTopSimilarity
    && e.classification.margin >= config.autoAcceptMargin
  }

  predicate IsCorroborationCandidate(e: Evidence, config: Config) {
    && config.turnCorroboratedMinSimilarity > 0.0
    && Duration(e) >= config.minSegmentDuration
    && e.classification.margin >= config.autoAcceptMargin
    && config.turnCorroboratedMinSimilarity <= e.classification.topSimilarity < config.minTopSimilarity
  }

  /** Accepted by the whole-segment rules: confident, and no window names somebody else. */
  predicate AcceptedFirst(e: Evidence, config: Config) {
    IsConfident(e, config) && e.mixedFor(e.classification.topSpeaker) == []
  }

  predicate Contradicted(e: Evidence, config: Config) {
    && e.track != Some(e.classification.topSpeaker)
    && Duration(e) >= config.minSegmentDuration
    && e.classification.margin >= config.autoAcceptMargin
  }

  /** The vote of a segment the whole-segment rules accepted with a single label. */
  function BallotsOf(e: Evidence, turns: seq<Turn>, config: Config): seq<Ballot> {
    var single := SingleLabelAt(e.start, e.end, turns);
    if AcceptedFirst(e, config) && single.Some? then [Ballot(single.value, e.classification.topSpeaker)] else []
  }

  function Ballots(evidence: seq<Evidence>, turns: seq<Turn>, config: Config): seq<Ballot> {
    if evidence == [] then []
    else Ballots(evidence[..|evidence| - 1], turns, config) + BallotsOf(evidence[|evidence| - 1], turns, config)
  }

  /** The vote recomputed from a finished segment. */
  function RecountOf(segment: KnownSegment, turns: seq<Turn>): seq<Ballot> {
    if segment.uncertain || segment.acceptReason.Some? || segment.speaker.None? || segment.speaker.value == "" then []
    else
      var single := SingleLabelAt(segment.start, segment.end, turns);
      if single.Some? then [Ballot(single.value, segment.speaker.value)] else []
  }

  function Recount(segments: seq<KnownSegment>, turns: seq<Turn>): seq<Ballot> {
    if segments == [] then []
    else Recount(segments[..|segments| - 1], turns) + RecountOf(segments[|segments| - 1], turns)
  }

  /**
    What a finished segment may say: it has a speaker exactly when it is not
    uncertain, that speaker has no mixed window held against it, and without an
    accept reason the whole-segment rules accepted the top speaker.
   */
  ghost predicate Sound(e: Evidence, segment: KnownSegment, config: Config) {
    && segment.start == e.start && segment.end == e.end
    && (segment.speaker.Some? <==> !segment.uncertain)
    && (!segment.uncertain ==> segment.mixedWindows == [] && e.mixedFor(segment.speaker.value) == [])
    && (segment.acceptReason.Some? ==> !segment.uncertain)
    && (!segment.uncertain && segment.acceptReason.None? <==> AcceptedFirst(e, config))
    && (AcceptedFirst(e, config) ==> segment.speaker == Some(e.classification.topSpeaker))
  }

  /** Who the later rules may accept, given the label map of the vote. */
  ghost predicate Justified(e: Evidence, segment: KnownSegment, turns: seq<Turn>, mapping: map<string, string>,
      config: Config) {
    match segment.acceptReason
    case None => true
    case Some(TurnCorroborated) =>
      var single := SingleLabelAt(e.start, e.end, turns);
      && single.Some? && single.value in mapping
      && mapping[single.value] == e.classification.topSpeaker && segment.speaker == Some(e.classification.topSpeaker)
      && IsCorroborationCandidate(e, config)
    case Some(SpeakerTrack) =>
      && segment.speaker == e.track && !Contradicted(e, config)
      && RawLabelsAreKnown(RawTurnOverlaps(e.start, e.end, turns), mapping)
  }

  /** The diarization puts the segment on one label, and that label is tied to its top speaker. */
  predicate Corroborates(e: Evidence, turns: seq<Turn>, mapping: map<string, string>, config: Config) {
    var single := SingleLabelAt(e.start, e.end, turns);
    single.Some? && single.value in mapping && mapping[single.value] == e.classification.topSpeaker &&
      IsCorroborationCandidate(e, config)
  }

  /**
    What the rules may not pass over: a mixed window against the top speaker leaves the
    segment uncertain, corroboration without one accepts it, and so does the track.
   */
  ghost predicate Thorough(e: Evidence, segment: KnownSegment, turns: seq<Turn>, mapping: map<string, string>,
      config: Config) {
    var held := e.mixedFor(e.classification.topSpeaker);
    && (!AcceptedFirst(e, config) && (Corroborates(e, turns, mapping, config) || IsConfident(e, config)) && held != []
        ==> segment.uncertain && segment.mixedWindows == held)
    && (!AcceptedFirst(e, config) && Corroborates(e, turns, mapping, config) && held == []
        ==> segment.acceptReason == Some(TurnCorroborated))
    && (segment.uncertain && segment.mixedWindows == []
        && RawLabelsAreKnown(RawTurnOverlaps(e.start, e.end, turns), mapping)
        ==> e.track.None? || Contradicted(e, config))
    && (segment.acceptReason == Some(SpeakerTrack) <==>
         && !IsConfident(e, config) && !Corroborates(e, turns, mapping, config)
         && RawLabelsAreKnown(RawTurnOverlaps(e.start, e.end, turns), mapping)
         && e.track.Some? && !Contradicted(e, config) && e.mixedFor(e.track.value) == [])
  }

  /** The second pass for one segment. */
  method Decide(e: Evidence, turns: seq<Turn>, mapping: map<string, string>, config: Config)
    returns (segment: KnownSegment)
    ensures Sound(e, segment, config)
    ensures Justified(e, segment, turns, mapping, config)
    ensures Thorough(e, segment, turns, mapping, config)
  {
    var top := e.classification.topSpeaker;
    var mixed: seq<MixedWindow> := if IsConfident(e, config) then e.mixedFor(top) else [];
    var confident := AcceptedFirst(e, config);
    var single := SingleLabelAt(e.start, e.end, turns);
    var corroborated := false;
    if !confident && single.Some? && single.value in mapping && mapping[single.value] == top
       && IsCorroborationCandidate(e, config) {
      mixed := e.mixedFor(top);
      corroborated := mixed == [];
      confident := corroborated;
    }
    var speaker := top;
    var reason := if corroborated then Some(TurnCorroborated) else None;
    if !confident && mixed == [] && RawLabelsAreKnown(RawTurnOverlaps(e.start, e.end, turns), mapping) {
      if e.track.Some? && !Contradicted(e, config) {
        mixed := e.mixedFor(e.track.value);
        if mixed == [] {
          speaker := e.track.value;
          reason := Some(SpeakerTrack);
          confident := true;
        }
      }
    }
    segment := KnownSegment(e.start, e.end, if confident then Some(speaker) else None, !confident, mixed, reason);
  }

  /** The first pass: confident segments with a single label vote. */
  method TakeVotes(evidence: seq<Evidence>, turns: seq<Turn>, config: Config) returns (votes: Votes)
    ensures votes == Count(Ballots(evidence, turns, config)) && NoEmptyVote(votes)
  {
    hide SingleLabelAt, AcceptedFirst;
    votes := map[];
    ghost var ballots: seq<Ballot> := [];
    for i := 0 to |evidence|
      invariant ballots == Ballots(evidence[..i], turns, config)
      invariant votes == Count(ballots)
    {
      var e := evidence[i];
      assert evidence[..i + 1][..i] == evidence[..i];
      var single := SingleLabelAt(e.start, e.end, turns);
      if AcceptedFirst(e, config) && single.Some? {
        var ballot := Ballot(single.value, e.classification.topSpeaker);
        assert (ballots + [ballot])[..|ballots|] == ballots;
        votes := AddVote(votes, ballot);
      }
      assert BallotsOf(e, turns, config) == [] ==> ballots + [] == ballots;
      ballots := ballots + BallotsOf(e, turns, config);
    }
    assert evidence[..|evidence|] == evidence;
    CountHasNoEmptyVote(ballots);
  }

  method ClassifySegments(evidence: seq<Evidence>, turns: seq<Turn>, config: Config)
    returns (segments: seq<KnownSegment>, votes: Votes, mapping: map<string, string>)
    ensures votes == Count(Ballots(evidence, turns, config)) && Ties(votes, mapping)
    ensures |segments| == |evidence|
    ensures forall i | 0 <= i < |evidence| ::
              && Sound(evidence[i], segments[i], config) && Justified(evidence[i], segments[i], turns, mapping, config)
              && Thorough(evidence[i], segments[i], turns, mapping, config)
  {
    hide *;
    votes := TakeVotes(evidence, turns, config);
    mapping := MapRawLabelsToSpeakers(votes);
    segments := [];
    for i := 0 to |evidence|
      invariant |segments| == i
      invariant forall k | 0 <= k < i ::
                  && Sound(evidence[k], segments[k], config) &&
                    Justified(evidence[k], segments[k], turns, mapping, config)
                  && Thorough(evidence[k], segments[k], turns, mapping, config)
    {
      var segment := Decide(evidence[i], turns, mapping, config);
      segments := segments + [segment];
    }
  }

  // -- The vote recomputed from finished segments ---------------------------------------------

  ghost predicate AllSound(evidence: seq<Evidence>, segments: seq<KnownSegment>, config: Config) {
    |segments| == |evidence| && forall i | 0 <= i < |evidence| :: Sound(evidence[i], segments[i], config)
  }

  predicate Named(ballot: Ballot) {
    ballot.speaker != ""
  }

  function NamedOnly(ballots: seq<Ballot>): seq<Ballot> {
    if ballots == [] then []
    else
      var last := ballots[|ballots| - 1];
      NamedOnly(ballots[..|ballots| - 1]) + if Named(last) then [last] else []
  }

  lemma {:induction false} RecountKeepsNamedBallots(evidence: seq<Evidence>, segments: seq<KnownSegment>,
      turns: seq<Turn>, config: Config)
    requires AllSound(evidence, segments, config)
    ensures Recount(segments, turns) == NamedOnly(Ballots(evidence, turns, config))
  {
    hide SingleLabelAt, AcceptedFirst;
    if evidence != [] {
      var n := |evidence| - 1;
      var e, segment := evidence[n], segments[n];
      assert Sound(e, segment, config);
      RecountKeepsNamedBallots(evidence[..n], segments[..n], turns, config);
      var earlier := Ballots(evidence[..n], turns, config);
      var ballots := BallotsOf(e, turns, config);
      if ballots != [] {
        assert Ballots(evidence, turns, config)[..|earlier|] == earlier;
      } else {
        assert Ballots(evidence, turns, config) == earlier;
      }
    }
  }

  lemma {:induction false} AllNamedStay(ballots: seq<Ballot>)
    requires forall i | 0 <= i < |ballots| :: Named(ballots[i])
    ensures NamedOnly(ballots) == ballots
  {
    hide Named;
    if ballots != [] {
      AllNamedStay(ballots[..|ballots| - 1]);
      assert ballots == ballots[..|ballots| - 1] + [ballots[|ballots| - 1]];
    }
  }

  lemma {:induction false} BlanksAreDropped(ballots: seq<Ballot>)
    ensures |NamedOnly(ballots)| <= |ballots|
    ensures (exists i :: 0 <= i < |ballots| && !Named(ballots[i])) ==> |NamedOnly(ballots)| < |ballots|
    ensures forall i | 0 <= i < |NamedOnly(ballots)| :: Named(NamedOnly(ballots)[i])
  {
    hide Named;
    if ballots != [] {
      BlanksAreDropped(ballots[..|ballots| - 1]);
    }
  }

  lemma NamedOnlyWithoutBlanks(ballots: seq<Ballot>)
    ensures NamedOnly(ballots) == ballots <==> forall ballot | ballot in ballots :: Named(ballot)
    ensures forall ballot | ballot in NamedOnly(ballots) :: Named(ballot)
    ensures |NamedOnly(ballots)| <= |ballots|
  {
    hide Named, NamedOnly;
    BlanksAreDropped(ballots);
    if forall i | 0 <= i < |ballots| :: Named(ballots[i]) {
      AllNamedStay(ballots);
    }
  }

  lemma {:induction false} VoteIsCounted(ballots: seq<Ballot>, name: string, speaker: string)
    ensures speaker in VotesFor(Count(ballots), name) <==> Ballot(name, speaker) in ballots
  {
    if ballots != [] {
      var init, last := ballots[..|ballots| - 1], ballots[|ballots| - 1];
      VoteIsCounted(init, name, speaker);
      hide AddVote, VotesFor;
      assert ballots == init + [last];
    }
  }

  /**
    The votes recomputed from the finished segments are the votes taken during
    classification exactly when no accepted single-label segment went to a
    speaker with an empty name.
   */
  lemma RecountEqualsVotes(evidence: seq<Evidence>, segments: seq<KnownSegment>, turns: seq<Turn>, config: Config)
    requires AllSound(evidence, segments, config)
    ensures Count(Recount(segments, turns)) == Count(Ballots(evidence, turns, config)) <==>
            forall ballot | ballot in Ballots(evidence, turns, config) :: Named(ballot)
  {
    var ballots := Ballots(evidence, turns, config);
    RecountKeepsNamedBallots(evidence, segments, turns, config);
    NamedOnlyWithoutBlanks(ballots);
    forall ballot | ballot in ballots && !Named(ballot)
      ensures Count(NamedOnly(ballots)) != Count(ballots)
    {
      VoteIsCounted(ballots, ballot.name, ballot.speaker);
      VoteIsCounted(NamedOnly(ballots), ballot.name, ballot.speaker);
    }
  }

  /** Two label maps read off the same votes are the same map. */
  lemma TiesAreDetermined(votes: Votes, a: map<string, string>, b: map<string, string>)
    requires Ties(votes, a) && Ties(votes, b)
    ensures a == b
  {
    forall name | name in a ensures name in b && a[name] == b[name] {
      assert TiedTo(votes, name, a[name]);
    }
    forall name | name in b ensures name in a {
      assert TiedTo(votes, name, b[name]);
    }
  }

  lemma CountOfNothing()
    ensures Count([]) == map[] && forall turns :: Recount([], turns) == []
  {
  }

  lemma CountOneMore(ballots: seq<Ballot>, ballot: Ballot)
    ensures Count(ballots + [ballot]) == AddVote(Count(ballots), ballot)
  {
    assert (ballots + [ballot])[..|ballots|] == ballots;
  }

  lemma RecountOneMore(segments: seq<KnownSegment>, i: nat, turns: seq<Turn>)
    requires i < |segments|
    ensures Recount(segments[..i + 1], turns) == Recount(segments[..i], turns) + RecountOf(segments[i], turns)
  {
    assert segments[..i + 1][..i] == segments[..i];
  }

  /** The label map of the summary, computed from the finished segments alone. */
  method SummarizeRawLabels(segments: seq<KnownSegment>, turns: seq<Turn>) returns (mapping: map<string, string>)
    ensures Ties(Count(Recount(segments, turns)), mapping)
  {
    hide SingleLabelAt, Count, Recount, Ties;
    CountOfNothing();
    var votes: Votes := map[];
    ghost var ballots: seq<Ballot> := [];
    for i := 0 to |segments|
      invariant ballots == Recount(segments[..i], turns)
      invariant votes == Count(ballots)
    {
      var segment := segments[i];
      assert segments[..i + 1][..i] == segments[..i];
      if !(segment.uncertain || segment.acceptReason.Some? || segment.speaker.None? || segment.speaker.value == "") {
        var single := SingleLabelAt(segment.start, segment.end, turns);
        if single.Some? {
          var ballot := Ballot(single.value, segment.speaker.value);
          CountOneMore(ballots, ballot);
          votes := AddVote(votes, ballot);
        }
      }
      assert ballots + [] == ballots;
      RecountOneMore(segments, i, turns);
      ballots := ballots + RecountOf(segment, turns);
    }
    assert segments[..|segments|] == segments;
    CountHasNoEmptyVote(ballots);
    mapping := MapRawLabelsToSpeakers(votes);
  }

  /** With named speakers the summary ties every label to the speaker classification used. */
  lemma SummaryAgreesWithClassification(evidence: seq<Evidence>, segments: seq<KnownSegment>, turns: seq<Turn>,
      config: Config,
                                        used: map<string, string>, summarized: map<string, string>)
    requires AllSound(evidence, segments, config)
    requires Ties(Count(Ballots(evidence, turns, config)), used)
    requires Ties(Count(Recount(segments, turns)), summarized)
    requires forall e | e in evidence :: e.classification.topSpeaker != ""
    ensures summarized == used
  {
    NamedEvidence(evidence, turns, config);
    RecountEqualsVotes(evidence, segments, turns, config);
    TiesAreDetermined(Count(Ballots(evidence, turns, config)), used, summarized);
  }

  lemma {:induction false} NamedEvidence(evidence: seq<Evidence>, turns: seq<Turn>, config: Config)
    requires forall e | e in evidence :: e.classification.topSpeaker != ""
    ensures forall ballot | ballot in Ballots(evidence, turns, config) :: Named(ballot)
  {
    if evidence != [] {
      NamedEvidence(evidence[..|evidence| - 1], turns, config);
    }
  }
}
