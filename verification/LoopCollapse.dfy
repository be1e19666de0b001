/**
  Collapsing repeated cues (transcriptions/sanitizer.py). What makes two texts the same
  is left open: `key` maps a text to what is compared, and to nothing when the text has
  nothing to compare.
 */
module LoopCollapse {
  import opened Sequences

  type Speaker = string

  datatype Segment = Segment(id: int, start: real, end: real, text: string, speaker: Speaker, words: seq<string>)

  const MAX_REPEAT_GAP_SECONDS := 1.0

  /** The later segment repeats the earlier one closely. */
  predicate Linked(a: Segment, b: Segment, key: string -> string) {
    && key(a.text) != "" && key(b.text) == key(a.text)
    && b.start >= a.start && b.end >= a.end && b.start - a.end <= MAX_REPEAT_GAP_SECONDS
  }

  function Last<T>(s: seq<T>): T
    requires s != []
  {
    s[|s| - 1]
  }

  function Init<T>(s: seq<T>): seq<T>
    requires s != []
  {
    s[..|s| - 1]
  }

  // -- Runs -----------------------------------------------------------------------------------

  /** The segments cut wherever two neighbours are not linked. */
  function Runs(segments: seq<Segment>, key: string -> string): (runs: seq<seq<Segment>>)
    ensures segments != [] ==> runs != [] && Last(runs) != [] && Last(Last(runs)) == Last(segments)
  {
    if segments == [] then []
    else
      var init := Init(segments);
      Extended(Runs(init, key), Last(segments), init != [] && Linked(Last(init), Last(segments), key))
  }

  /** A segment joins the last run or starts a new one. */
  function Extended(runs: seq<seq<Segment>>, s: Segment, joins: bool): seq<seq<Segment>> {
    if runs != [] && joins then Init(runs) + [Last(runs) + [s]] else runs + [[s]]
  }

  function Flat(runs: seq<seq<Segment>>): seq<Segment> {
    if runs == [] then [] else Flat(Init(runs)) + Last(runs)
  }

  ghost predicate IsChain(run: seq<Segment>, key: string -> string) {
    run != [] && forall i, j | 0 <= i < j < |run| && j == i + 1 :: Linked(run[i], run[j], key)
  }

  /** The segments in order, in chains that cannot be joined. */
  ghost predicate IsMaximalPartition(runs: seq<seq<Segment>>, segments: seq<Segment>, key: string -> string) {
    && Flat(runs) == segments
    && (forall run | run in runs :: IsChain(run, key))
    && (forall i, j | 0 <= i < j < |runs| && j == i + 1 :: Apart(runs[i], runs[j], key))
  }

  /** The second run does not go on where the first one ends. */
  predicate Apart(a: seq<Segment>, b: seq<Segment>, key: string -> string) {
    a != [] && b != [] ==> !Linked(Last(a), b[0], key)
  }

  function Kept(run: seq<Segment>, threshold: int): seq<Segment> {
    if run != [] && |run| >= threshold
    then [Merged(run[0], Last(run))]
    else run
  }

  /** The first segment up to the later end of the two; words are not kept. */
  function Merged(first: Segment, last: Segment): Segment {
    first.(end := if last.end > first.end then last.end else first.end, words := [])
  }

  function KeptOf(runs: seq<seq<Segment>>, threshold: int): seq<Segment> {
    if runs == [] then [] else KeptOf(Init(runs), threshold) + Kept(Last(runs), threshold)
  }

  function Collapsed(segments: seq<Segment>, key: string -> string, threshold: int): seq<Segment> {
    if threshold < 2 then segments else KeptOf(Runs(segments, key), threshold)
  }

  // -- The loop ---------------------------------------------------------------------------------

  lemma RunsUnfold(segments: seq<Segment>, hi: nat, key: string -> string)
    requires 0 < hi <= |segments|
    ensures Runs(segments[..hi], key)
         == Extended(Runs(segments[..hi - 1], key), segments[hi - 1], hi > 1 &&
           Linked(segments[hi - 2], segments[hi - 1], key))
  {
    assert Init(segments[..hi]) == segments[..hi - 1] && Last(segments[..hi]) == segments[hi - 1];
    assert hi > 1 ==> Last(segments[..hi - 1]) == segments[hi - 2];
  }

  lemma ExtendedRun(runs: seq<seq<Segment>>, run: seq<Segment>, s: Segment)
    ensures Extended(runs + [run], s, true) == runs + [run + [s]]
    ensures Extended(runs, s, false) == runs + [[s]]
  {
    OneMore(runs, run);
  }

  lemma ShorterChain(segments: seq<Segment>, lo: nat, hi: nat, key: string -> string)
    requires lo + 1 < hi <= |segments| && IsChain(segments[lo..hi], key)
    ensures IsChain(segments[lo..hi - 1], key) && Linked(segments[hi - 2], segments[hi - 1], key)
    ensures segments[lo..hi] == segments[lo..hi - 1] + [segments[hi - 1]]
  {
    var run, shorter := segments[lo..hi], segments[lo..hi - 1];
    hide Linked;
    assert Linked(run[|run| - 2], run[|run| - 1], key);
    forall i, j | 0 <= i < j < |shorter| && j == i + 1 ensures Linked(shorter[i], shorter[j], key) {
      assert shorter[i] == run[i] && shorter[j] == run[j];
    }
  }

  lemma OneSegment(segments: seq<Segment>, lo: nat)
    requires lo < |segments|
    ensures segments[lo..lo + 1] == [segments[lo]]
  {
  }

  /** A cut between two segments that are not linked cuts the runs in two as well. */
  lemma {:induction false} RunsOfChain(segments: seq<Segment>, lo: nat, hi: nat, key: string -> string)
    requires lo < hi <= |segments| && IsChain(segments[lo..hi], key)
    requires lo == 0 || !Linked(segments[lo - 1], segments[lo], key)
    ensures Runs(segments[..hi], key) == Runs(segments[..lo], key) + [segments[lo..hi]]
    decreases hi
  {
    hide *;
    RunsUnfold(segments, hi, key);
    if hi == lo + 1 {
      OneSegment(segments, lo);
      ExtendedRun(Runs(segments[..lo], key), [], segments[lo]);
    } else {
      ShorterChain(segments, lo, hi, key);
      RunsOfChain(segments, lo, hi - 1, key);
      ExtendedRun(Runs(segments[..lo], key), segments[lo..hi - 1], segments[hi - 1]);
    }
  }

  lemma KeptSlice(segments: seq<Segment>, lo: nat, hi: nat, threshold: int)
    requires lo < hi <= |segments|
    ensures Kept(segments[lo..hi], threshold)
         == if hi - lo >= threshold then [Merged(segments[lo], segments[hi - 1])] else segments[lo..hi]
  {
  }

  lemma OneIsChain(segments: seq<Segment>, lo: nat, key: string -> string)
    requires lo < |segments|
    ensures IsChain(segments[lo..lo + 1], key)
  {
  }

  lemma ChainGrows(segments: seq<Segment>, lo: nat, hi: nat, key: string -> string)
    requires lo < hi < |segments| && IsChain(segments[lo..hi], key) && Linked(segments[hi - 1], segments[hi], key)
    ensures IsChain(segments[lo..hi + 1], key)
  {
    var longer, shorter := segments[lo..hi + 1], segments[lo..hi];
    hide Linked;
    forall i, j | 0 <= i < j < |longer| && j == i + 1 ensures Linked(longer[i], longer[j], key) {
      if j < |shorter| {
        assert longer[i] == shorter[i] && longer[j] == shorter[j];
      }
    }
  }

  lemma EmptyStart(segments: seq<Segment>, key: string -> string, threshold: int)
    ensures KeptOf(Runs(segments[..0], key), threshold) == []
  {
  }

  lemma KeptOfOneMore(runs: seq<seq<Segment>>, run: seq<Segment>, threshold: int)
    ensures KeptOf(runs + [run], threshold) == KeptOf(runs, threshold) + Kept(run, threshold)
  {
    assert Init(runs + [run]) == runs;
  }

  /** The end of the chain that starts at `index`. */
  method RunEnd(segments: seq<Segment>, index: nat, key: string -> string) returns (end: nat)
    requires index < |segments|
    ensures index < end <= |segments| && IsChain(segments[index..end], key)
    ensures end < |segments| ==> !Linked(segments[end - 1], segments[end], key)
  {
    hide IsChain;
    var k := key(segments[index].text);
    end := index + 1;
    OneIsChain(segments, index, key);
    if k != "" {
      while end < |segments| && key(segments[end].text) == k
        && segments[end].start >= segments[end - 1].start && segments[end].end >= segments[end - 1].end
        && segments[end].start - segments[end - 1].end <= MAX_REPEAT_GAP_SECONDS
        invariant index < end <= |segments|
        invariant IsChain(segments[index..end], key)
        invariant key(segments[end - 1].text) == k
      {
        ChainGrows(segments, index, end, key);
        end := end + 1;
      }
    }
  }

  lemma CollapsedIs(segments: seq<Segment>, key: string -> string, threshold: int)
    ensures Collapsed(segments, key, threshold) ==
            if threshold < 2 then segments else KeptOf(Runs(segments, key), threshold)
  {
  }

  method CollapseLoops(segments: seq<Segment>, key: string -> string, threshold: int) returns (collapsed: seq<Segment>)
    ensures collapsed == Collapsed(segments, key, threshold)
    ensures threshold < 2 ==> collapsed == segments
  {
    hide *;
    CollapsedIs(segments, key, threshold);
    if threshold < 2 || |segments| < threshold {
      if threshold >= 2 {
        TooFewToCollapse(segments, key, threshold);
      }
      return segments;
    }
    collapsed := [];
    var index := 0;
    EmptyStart(segments, key, threshold);
    assert segments[..|segments|] == segments;
    while index < |segments|
      invariant index <= |segments|
      invariant 0 < index < |segments| ==> !Linked(segments[index - 1], segments[index], key)
      invariant collapsed == KeptOf(Runs(segments[..index], key), threshold)
    {
      var end := RunEnd(segments, index, key);
      OneRunMore(segments, index, end, key, threshold);
      if end - index >= threshold {
        collapsed := collapsed + [Merged(segments[index], segments[end - 1])];
      } else {
        collapsed := collapsed + segments[index..end];
      }
      index := end;
    }
  }

  /** One run more is kept or collapsed as a whole. */
  lemma OneRunMore(segments: seq<Segment>, lo: nat, hi: nat, key: string -> string, threshold: int)
    requires lo < hi <= |segments| && IsChain(segments[lo..hi], key)
    requires lo == 0 || !Linked(segments[lo - 1], segments[lo], key)
    ensures KeptOf(Runs(segments[..hi], key), threshold)
         == KeptOf(Runs(segments[..lo], key), threshold)
            + if hi - lo >= threshold then [Merged(segments[lo], segments[hi - 1])] else segments[lo..hi]
  {
    hide *;
    RunsOfChain(segments, lo, hi, key);
    KeptOfOneMore(Runs(segments[..lo], key), segments[lo..hi], threshold);
    KeptSlice(segments, lo, hi, threshold);
  }

  // -- The partition ------------------------------------------------------------------------------

  lemma {:induction false} TooFewToCollapse(segments: seq<Segment>, key: string -> string, threshold: int)
    requires |segments| < threshold
    ensures KeptOf(Runs(segments, key), threshold) == segments
  {
    RunsArePartition(segments, key);
    NothingLong(Runs(segments, key), threshold);
  }

  lemma {:induction false} NothingLong(runs: seq<seq<Segment>>, threshold: int)
    requires |Flat(runs)| < threshold
    ensures KeptOf(runs, threshold) == Flat(runs)
  {
    if runs != [] {
      NothingLong(Init(runs), threshold);
    }
  }

  lemma LongerChain(run: seq<Segment>, s: Segment, key: string -> string)
    requires IsChain(run, key) && Linked(Last(run), s, key)
    ensures IsChain(run + [s], key)
  {
    var longer := run + [s];
    hide Linked;
    forall i, j | 0 <= i < j < |longer| && j == i + 1 ensures Linked(longer[i], longer[j], key) {
      assert j < |run| ==> longer[i] == run[i] && longer[j] == run[j];
    }
  }

  lemma FlatOfExtended(runs: seq<seq<Segment>>, s: Segment, joins: bool)
    ensures Flat(Extended(runs, s, joins)) == Flat(runs) + [s]
  {
    if runs != [] && joins {
      OneMore(Init(runs), Last(runs) + [s]);
      Assoc(Flat(Init(runs)), Last(runs), [s]);
    } else {
      OneMore(runs, [s]);
    }
  }

  lemma LastOfPartition(runs: seq<seq<Segment>>, segments: seq<Segment>, key: string -> string)
    requires IsMaximalPartition(runs, segments, key) && segments != []
    ensures runs != [] && IsChain(Last(runs), key) && Last(Last(runs)) == Last(segments)
  {
    assert runs != [];
    assert Last(runs) in runs;
  }

  lemma JoinedIsPartition(runs: seq<seq<Segment>>, segments: seq<Segment>, s: Segment, key: string -> string)
    requires IsMaximalPartition(runs, segments, key) && segments != [] && Linked(Last(segments), s, key)
    ensures IsMaximalPartition(Extended(runs, s, true), segments + [s], key)
  {
    FlatOfExtended(runs, s, true);
    LastOfPartition(runs, segments, key);
    var run, more := Last(runs), Extended(runs, s, true);
    LongerChain(run, s, key);
    assert |more| == |runs| && more[|more| - 1] == run + [s];
    assert forall i | 0 <= i < |runs| - 1 :: more[i] == runs[i];
    hide Flat, Linked, IsChain;
    forall r | r in more ensures IsChain(r, key) {
      assert r == run + [s] || r in runs;
    }
    forall i, j | 0 <= i < j < |more| && j == i + 1 ensures Apart(more[i], more[j], key) {
      assert Apart(runs[i], runs[j], key);
      assert (run + [s])[0] == run[0] by { LastOfPartition(runs, segments, key); ChainIsNotEmpty(run, key); }
      ChainIsNotEmpty(run, key);
    }
  }

  lemma ChainIsNotEmpty(run: seq<Segment>, key: string -> string)
    requires IsChain(run, key)
    ensures run != []
  {
  }

  lemma StartedIsPartition(runs: seq<seq<Segment>>, segments: seq<Segment>, s: Segment, key: string -> string)
    requires IsMaximalPartition(runs, segments, key) && (segments != [] ==> !Linked(Last(segments), s, key))
    ensures IsMaximalPartition(Extended(runs, s, false), segments + [s], key)
  {
    FlatOfExtended(runs, s, false);
    var more := Extended(runs, s, false);
    if segments != [] {
      LastOfPartition(runs, segments, key);
    } else if runs != [] {
      assert Last(runs) in runs;
      ChainIsNotEmpty(Last(runs), key);
    }
    assert |more| == |runs| + 1 && more[|runs|] == [s];
    assert forall i | 0 <= i < |runs| :: more[i] == runs[i];
    assert IsChain([s], key);
    hide Flat, Linked, IsChain;
    forall r | r in more ensures IsChain(r, key) {
      assert r == [s] || r in runs;
    }
    forall i, j | 0 <= i < j < |more| && j == i + 1 ensures Apart(more[i], more[j], key) {
      assert j < |runs| ==> Apart(runs[i], runs[j], key);
    }
  }

  lemma LastPart(segments: seq<Segment>, key: string -> string)
    requires segments != []
    ensures var init, s := Init(segments), Last(segments);
            && init + [s] == segments && |init| < |segments|
            && Runs(segments, key) == Extended(Runs(init, key), s, init != [] && Linked(Last(init), s, key))
  {
  }

  lemma {:induction false} RunsArePartition(segments: seq<Segment>, key: string -> string)
    ensures IsMaximalPartition(Runs(segments, key), segments, key)
  {
    if segments == [] {
    } else {
      LastPart(segments, key);
      var init, s := Init(segments), Last(segments);
      hide *;
      RunsArePartition(init, key);
      if init != [] && Linked(Last(init), s, key) {
        JoinedIsPartition(Runs(init, key), init, s, key);
      } else {
        StartedIsPartition(Runs(init, key), init, s, key);
      }
    }
  }

  /** The runs without their last segment. */
  function Shrunk(runs: seq<seq<Segment>>): seq<seq<Segment>>
    requires runs != [] && Last(runs) != []
  {
    if |Last(runs)| == 1 then Init(runs) else Init(runs) + [Init(Last(runs))]
  }

  lemma ShrunkFlat(runs: seq<seq<Segment>>)
    requires runs != [] && Last(runs) != []
    ensures Flat(runs) != [] && Flat(Shrunk(runs)) == Init(Flat(runs)) && Last(Flat(runs)) == Last(Last(runs))
  {
    var run := Last(runs);
    if |run| > 1 {
      assert Init(Shrunk(runs)) == Init(runs);
    } else {
      assert run == [run[0]];
    }
  }

  lemma ShrunkIsPartition(runs: seq<seq<Segment>>, segments: seq<Segment>, key: string -> string)
    requires IsMaximalPartition(runs, segments, key) && runs != [] && Last(runs) != []
    ensures segments != [] && IsMaximalPartition(Shrunk(runs), Init(segments), key)
  {
    var run, fewer := Last(runs), Shrunk(runs);
    ShrunkFlat(runs);
    assert run in runs && IsChain(run, key);
    assert forall i | 0 <= i < |runs| - 1 :: fewer[i] == runs[i];
    hide Linked;
    forall r | r in fewer ensures IsChain(r, key) {
      if r !in runs {
        assert r == Init(run) && forall i | 0 <= i < |r| :: r[i] == run[i];
      }
    }
  }

  /** There is one such partition only. */
  lemma {:induction false} PartitionIsUnique(runs: seq<seq<Segment>>, segments: seq<Segment>, key: string -> string)
    requires IsMaximalPartition(runs, segments, key)
    ensures runs == Runs(segments, key)
    decreases |segments|
  {
    if runs != [] {
      var run := Last(runs);
      assert run in runs && IsChain(run, key);
      ShrunkFlat(runs);
      ShrunkIsPartition(runs, segments, key);
      PartitionIsUnique(Shrunk(runs), Init(segments), key);
      LastSegmentJoins(runs, segments, key);
    }
  }

  lemma {:induction false} FlatIsLonger(runs: seq<seq<Segment>>)
    requires forall i | 0 <= i < |runs| :: runs[i] != []
    ensures |runs| <= |Flat(runs)|
  {
    if runs != [] {
      FlatIsLonger(Init(runs));
    }
  }

  lemma PartitionIsShorter(runs: seq<seq<Segment>>, segments: seq<Segment>, key: string -> string)
    requires IsMaximalPartition(runs, segments, key)
    ensures |runs| <= |segments|
  {
    forall i | 0 <= i < |runs| ensures runs[i] != [] {
      assert runs[i] in runs;
    }
    FlatIsLonger(runs);
  }

  lemma LastSegmentJoins(runs: seq<seq<Segment>>, segments: seq<Segment>, key: string -> string)
    requires IsMaximalPartition(runs, segments, key) && runs != [] && Last(runs) != [] && segments != []
    requires Shrunk(runs) == Runs(Init(segments), key) && Last(segments) == Last(Last(runs))
    ensures runs == Runs(segments, key)
  {
    LastPart(segments, key);
    ShrunkIsPartition(runs, segments, key);
    if |Last(runs)| > 1 {
      LongRunGoesOn(runs, Init(segments), Last(segments), key);
    } else {
      ShortRunStarts(runs, Init(segments), Last(segments), key);
    }
  }

  lemma LongRunGoesOn(runs: seq<seq<Segment>>, init: seq<Segment>, s: Segment, key: string -> string)
    requires IsMaximalPartition(runs, init + [s], key) && runs != [] && |Last(runs)| > 1 && Last(Last(runs)) == s
    requires IsMaximalPartition(Shrunk(runs), init, key)
    ensures init != [] && Linked(Last(init), s, key) && runs == Extended(Shrunk(runs), s, true)
  {
    var run := Last(runs);
    assert run in runs && run == Init(run) + [s] && runs == Init(runs) + [run];
    assert Linked(run[|run| - 2], run[|run| - 1], key);
    OneMore(Init(runs), Init(run));
    PartitionIsShorter(Shrunk(runs), init, key);
    LastOfPartition(Shrunk(runs), init, key);
    hide IsMaximalPartition, Linked;
    ExtendedRun(Init(runs), Init(run), s);
  }

  lemma ShortRunStarts(runs: seq<seq<Segment>>, init: seq<Segment>, s: Segment, key: string -> string)
    requires IsMaximalPartition(runs, init + [s], key) && runs != [] && |Last(runs)| == 1 && Last(Last(runs)) == s
    requires IsMaximalPartition(Shrunk(runs), init, key)
    ensures init != [] ==> !Linked(Last(init), s, key)
    ensures runs == Extended(Shrunk(runs), s, false)
  {
    var run := Last(runs);
    assert run == [s] && runs == Init(runs) + [run];
    if init != [] {
      LastOfPartition(Shrunk(runs), init, key);
      assert Apart(runs[|runs| - 2], runs[|runs| - 1], key);
    }
    hide IsMaximalPartition, Linked;
    ExtendedRun(Init(runs), [], s);
  }

  // -- On the columns ---------------------------------------------------------------------------

  /** The same text to compare, no step back in time, and at most one second between the two. */
  ghost predicate Repeats(a: Segment, b: Segment, key: string -> string) {
    key(a.text) == key(b.text) != "" && a.start <= b.start && a.end <= b.end && b.start <= a.end + 1.0
  }

  /** A stretch of repeats, and what comes before and after it does not go on with it. */
  ghost predicate IsRepetition(segments: seq<Segment>, lo: nat, hi: nat, key: string -> string) {
    && lo < hi <= |segments|
    && (forall i | lo < i < hi :: Repeats(segments[i - 1], segments[i], key))
    && (lo > 0 ==> !Repeats(segments[lo - 1], segments[lo], key))
    && (hi < |segments| ==> !Repeats(segments[hi - 1], segments[hi], key))
  }

  /** Long enough, it is one segment: the first one, without words, up to the later end of first and last. */
  ghost predicate ComesOutAs(run: seq<Segment>, threshold: int, kept: seq<Segment>)
    requires run != []
  {
    var first, last := run[0], run[|run| - 1];
    if |run| < threshold then kept == run
    else
      && |kept| == 1 && kept[0].id == first.id && kept[0].text == first.text && kept[0].speaker == first.speaker
      && kept[0].start == first.start && kept[0].end >= first.end && kept[0].end >= last.end
      && (kept[0].end == first.end || kept[0].end == last.end) && kept[0].words == []
  }

  lemma RepeatsIff(a: Segment, b: Segment, key: string -> string)
    ensures Repeats(a, b, key) <==> Linked(a, b, key)
  {
  }

  lemma RepetitionIsChain(segments: seq<Segment>, lo: nat, hi: nat, key: string -> string)
    requires IsRepetition(segments, lo, hi, key)
    ensures IsChain(segments[lo..hi], key) && (lo == 0 || !Linked(segments[lo - 1], segments[lo], key))
  {
    hide Linked, Repeats;
    var run := segments[lo..hi];
    forall i, j | 0 <= i < j < |run| && j == i + 1 ensures Linked(run[i], run[j], key) {
      assert Repeats(segments[(lo + j) - 1], segments[lo + j], key);
      RepeatsIff(segments[lo + i], segments[lo + j], key);
    }
    if lo > 0 {
      RepeatsIff(segments[lo - 1], segments[lo], key);
    }
  }

  lemma MergedComesOut(segments: seq<Segment>, lo: nat, hi: nat, threshold: int)
    requires lo < hi <= |segments|
    ensures ComesOutAs(segments[lo..hi], threshold,
                       if hi - lo >= threshold then [Merged(segments[lo], segments[hi - 1])] else segments[lo..hi])
  {
  }

  lemma NothingCollapsed(key: string -> string, threshold: int)
    ensures Collapsed([], key, threshold) == []
  {
  }

  /** Up to the end of a repetition, the result is that up to its beginning and what the repetition comes out as. */
  lemma RepetitionComesOutAs(segments: seq<Segment>, lo: nat, hi: nat, key: string -> string, threshold: int)
    returns (kept: seq<Segment>)
    requires threshold >= 2 && IsRepetition(segments, lo, hi, key)
    ensures Collapsed(segments[..hi], key, threshold) == Collapsed(segments[..lo], key, threshold) + kept
    ensures lo < hi <= |segments| && ComesOutAs(segments[lo..hi], threshold, kept)
    ensures Collapsed(segments[..0], key, threshold) == [] && segments[..|segments|] == segments
  {
    RepetitionIsChain(segments, lo, hi, key);
    hide Linked, Repeats, Kept, KeptOf, Runs, Collapsed, IsChain, ComesOutAs, Merged;
    OneRunMore(segments, lo, hi, key, threshold);
    CollapsedIs(segments[..lo], key, threshold);
    CollapsedIs(segments[..hi], key, threshold);
    NothingCollapsed(key, threshold);
    MergedComesOut(segments, lo, hi, threshold);
    kept := if hi - lo >= threshold then [Merged(segments[lo], segments[hi - 1])] else segments[lo..hi];
    assert segments[..0] == [];
  }
}
