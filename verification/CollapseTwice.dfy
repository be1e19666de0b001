/**
  What a second pass over collapsed cues does (transcriptions/sanitizer.py): the sanitizer
  runs on transcripts that may already have been sanitized.
 */
module CollapseTwice {
  import opened Sequences
  import opened LoopCollapse

  // -- Which runs a second pass finds ---------------------------------------------------------------

  lemma {:induction false} KeptIsNotLonger(runs: seq<seq<Segment>>, threshold: int)
    requires threshold >= 2
    ensures |KeptOf(runs, threshold)| <= |Flat(runs)|
    ensures (exists run :: run in runs && |run| >= threshold) ==> |KeptOf(runs, threshold)| < |Flat(runs)|
  {
    if runs != [] {
      KeptIsNotLonger(Init(runs), threshold);
      assert forall run | run in runs :: run in Init(runs) || run == Last(runs);
    }
  }

  lemma {:induction false} ShortAreKept(runs: seq<seq<Segment>>, threshold: int)
    requires forall i | 0 <= i < |runs| :: |runs[i]| < threshold
    ensures KeptOf(runs, threshold) == Flat(runs)
  {
    if runs != [] {
      ShortAreKept(Init(runs), threshold);
    }
  }

  /** A pass changes nothing exactly when every run is short. */
  lemma StableIffShort(segments: seq<Segment>, key: string -> string, threshold: int)
    requires threshold >= 2
    ensures Collapsed(segments, key, threshold) != segments
       <==> exists run :: run in Runs(segments, key) && |run| >= threshold
  {
    var runs := Runs(segments, key);
    RunsArePartition(segments, key);
    KeptIsNotLonger(runs, threshold);
    if forall run | run in runs :: |run| < threshold {
      ShortAreKept(runs, threshold);
    }
  }

  /** A chain goes on where the last run ends, or starts a new one. */
  function Joined(runs: seq<seq<Segment>>, chain: seq<Segment>, key: string -> string): seq<seq<Segment>> {
    if runs != [] && Last(runs) != [] && chain != [] && Linked(Last(Last(runs)), chain[0], key)
    then Init(runs) + [Last(runs) + chain]
    else runs + [chain]
  }

  function Regrouped(chains: seq<seq<Segment>>, key: string -> string): seq<seq<Segment>> {
    if chains == [] then [] else Joined(Regrouped(Init(chains), key), Last(chains), key)
  }

  lemma ChainsJoin(a: seq<Segment>, b: seq<Segment>, key: string -> string)
    requires IsChain(a, key) && IsChain(b, key) && Linked(Last(a), b[0], key)
    ensures IsChain(a + b, key)
  {
    hide Linked;
    var both := a + b;
    forall i, j | 0 <= i < j < |both| && j == i + 1 ensures Linked(both[i], both[j], key) {
      if j < |a| {
        assert Linked(a[i], a[j], key);
      } else if i >= |a| {
        assert Linked(b[i - |a|], b[j - |a|], key);
      }
    }
  }

  lemma JoinedIsPartition(runs: seq<seq<Segment>>, segments: seq<Segment>, chain: seq<Segment>, key: string -> string)
    requires IsMaximalPartition(runs, segments, key) && IsChain(chain, key)
    ensures IsMaximalPartition(Joined(runs, chain, key), segments + chain, key)
  {
    forall run | run in runs ensures run != [] && IsChain(run, key) { }
    if runs != [] {
      assert Last(runs) in runs;
    }
    hide IsMaximalPartition, IsChain;
    if runs != [] && Linked(Last(Last(runs)), chain[0], key) {
      LongerRun(runs, segments, chain, key);
    } else {
      NewRun(runs, segments, chain, key);
    }
  }

  lemma LongerRun(runs: seq<seq<Segment>>, segments: seq<Segment>, chain: seq<Segment>, key: string -> string)
    requires IsMaximalPartition(runs, segments, key) && IsChain(chain, key)
    requires runs != [] && IsChain(Last(runs), key) && Linked(Last(Last(runs)), chain[0], key)
    ensures IsMaximalPartition(Init(runs) + [Last(runs) + chain], segments + chain, key)
  {
    var more := Init(runs) + [Last(runs) + chain];
    ChainsJoin(Last(runs), chain, key);
    FlatOfOneMore(Init(runs), Last(runs) + chain);
    Assoc(Flat(Init(runs)), Last(runs), chain);
    hide Linked, Flat;
    assert Flat(runs) == Flat(Init(runs)) + Last(runs) by {
      assert runs == Init(runs) + [Last(runs)]; FlatOfOneMore(Init(runs), Last(runs));
    }
    forall i, j | 0 <= i < j < |more| && j == i + 1 ensures Apart(more[i], more[j], key) {
      assert Apart(runs[i], runs[j], key) && more[i] == runs[i];
      assert more[j] == runs[j] || (more[j] == runs[j] + chain && runs[j] != []);
    }
    hide IsChain, Apart;
    forall run | run in more ensures IsChain(run, key) {
      assert run in runs || run == Last(runs) + chain;
    }
  }

  lemma NewRun(runs: seq<seq<Segment>>, segments: seq<Segment>, chain: seq<Segment>, key: string -> string)
    requires IsMaximalPartition(runs, segments, key) && IsChain(chain, key)
    requires runs != [] ==> IsChain(Last(runs), key) && !Linked(Last(Last(runs)), chain[0], key)
    ensures IsMaximalPartition(runs + [chain], segments + chain, key)
  {
    var more := runs + [chain];
    FlatOfOneMore(runs, chain);
    hide Linked, Flat;
    forall i, j | 0 <= i < j < |more| && j == i + 1 ensures Apart(more[i], more[j], key) {
      assert more[i] == runs[i];
      assert j < |runs| ==> Apart(runs[i], runs[j], key);
    }
    hide IsChain, Apart;
    forall run | run in more ensures IsChain(run, key) {
      assert run in runs || run == chain;
    }
  }

  lemma FlatOfOneMore(runs: seq<seq<Segment>>, run: seq<Segment>)
    ensures Flat(runs + [run]) == Flat(runs) + run
  {
    assert Init(runs + [run]) == runs;
  }

  /** Chains in a row have the runs one gets by joining them. */
  lemma {:induction false} RunsOfChains(chains: seq<seq<Segment>>, key: string -> string)
    requires forall chain | chain in chains :: IsChain(chain, key)
    ensures IsMaximalPartition(Regrouped(chains, key), Flat(chains), key)
  {
    if chains != [] {
      assert forall chain | chain in Init(chains) :: chain in chains;
      RunsOfChains(Init(chains), key);
      assert Last(chains) in chains;
      hide IsMaximalPartition, IsChain;
      JoinedIsPartition(Regrouped(Init(chains), key), Flat(Init(chains)), Last(chains), key);
    }
  }

  // -- Stretches of chains that a second pass joins ---------------------------------------------------

  predicate Meet(a: seq<Segment>, b: seq<Segment>, key: string -> string) {
    a != [] && b != [] && Linked(Last(a), b[0], key)
  }

  ghost predicate Stretch(chains: seq<seq<Segment>>, i: nat, j: nat, key: string -> string) {
    i < j <= |chains| && forall k, n | i <= k < n < j && n == k + 1 :: Meet(chains[k], chains[n], key)
  }

  lemma StretchOfInit(chains: seq<seq<Segment>>, i: nat, j: nat, key: string -> string)
    requires j < |chains|
    ensures Stretch(Init(chains), i, j, key) <==> Stretch(chains, i, j, key)
    ensures i <= j ==> Init(chains)[i..j] == chains[i..j]
  {
    hide Meet;
  }

  lemma StretchIsInBounds(chains: seq<seq<Segment>>, i: nat, j: nat, key: string -> string)
    requires Stretch(chains, i, j, key)
    ensures i < j <= |chains|
  {
  }

  /** The last run ends in a chain and goes back over the chains it meets. */
  lemma {:induction false} RegroupedEnd(chains: seq<seq<Segment>>, key: string -> string)
    requires chains != [] && forall chain | chain in chains :: chain != []
    ensures Regrouped(chains, key) != [] && Last(Regrouped(chains, key)) != []
    ensures Last(Last(Regrouped(chains, key))) == Last(Last(chains))
  {
    assert Last(chains) in chains;
    if Init(chains) != [] {
      assert forall chain | chain in Init(chains) :: chain in chains;
      RegroupedEnd(Init(chains), key);
    }
  }

  lemma LastJoins(chains: seq<seq<Segment>>, key: string -> string)
    requires |chains| >= 2 && forall chain | chain in chains :: chain != []
    ensures var n, before := |chains| - 1, Regrouped(Init(chains), key);
            before != [] && Regrouped(chains, key) ==
              if Meet(chains[n - 1], chains[n], key) then Init(before) + [Last(before) + chains[n]]
                else before + [chains[n]]
  {
    assert forall chain | chain in Init(chains) :: chain in chains;
    RegroupedEnd(Init(chains), key);
    assert chains[|chains| - 2] in chains && chains[|chains| - 1] in chains;
  }

  /** Where the last run of the joined chains starts. */
  function LastStart(chains: seq<seq<Segment>>, key: string -> string): (i: nat)
    requires chains != []
    ensures i < |chains|
  {
    var n := |chains| - 1;
    if n > 0 && Meet(chains[n - 1], chains[n], key) then LastStart(Init(chains), key) else n
  }

  lemma LastStretchOfOne(chains: seq<seq<Segment>>, key: string -> string)
    requires |chains| == 1
    ensures LastStart(chains, key) == 0 && Stretch(chains, 0, 1, key)
    ensures Regrouped(chains, key) == chains && Last(chains) == Flat(chains[0..])
  {
    assert chains == [] + [chains[0]] && Init(chains) == [] && chains[0..] == chains;
    FlatOfOneMore([], chains[0]);
  }

  lemma {:induction false} LastStretch(chains: seq<seq<Segment>>, key: string -> string)
    requires chains != [] && forall chain | chain in chains :: chain != []
    ensures Stretch(chains, LastStart(chains, key), |chains|, key)
    ensures Regrouped(chains, key) != [] && Last(Regrouped(chains, key)) == Flat(chains[LastStart(chains, key)..])
    decreases |chains|
  {
    hide *;
    var n, i := |chains| - 1, LastStart(chains, key);
    if n == 0 {
      LastStretchOfOne(chains, key);
    } else {
      LastOfJoined(chains, key);
      LastPart(chains, i);
      if Meet(chains[n - 1], chains[n], key) {
        AllInInit(chains);
        LastStretch(Init(chains), key);
        StretchGrows(chains, i, key);
      } else {
        OneIsStretch(chains, n, key);
      }
    }
  }

  lemma AllInInit(chains: seq<seq<Segment>>)
    requires |chains| >= 2
    ensures Init(chains) != [] && |Init(chains)| == |chains| - 1 && forall chain | chain in Init(chains) ::
        chain in chains
  {
  }

  lemma LastOfJoined(chains: seq<seq<Segment>>, key: string -> string)
    requires |chains| >= 2 && forall chain | chain in chains :: chain != []
    ensures var n := |chains| - 1;
            if Meet(chains[n - 1], chains[n], key)
            then LastStart(chains, key) == LastStart(Init(chains), key) && Regrouped(Init(chains), key) != []
                 && Last(Regrouped(chains, key)) == Last(Regrouped(Init(chains), key)) + chains[n]
            else LastStart(chains, key) == n && Last(Regrouped(chains, key)) == chains[n]
    ensures Regrouped(chains, key) != []
  {
    LastJoins(chains, key);
    hide Regrouped, Meet;
  }

  lemma LastPart(chains: seq<seq<Segment>>, i: nat)
    requires |chains| >= 2 && i < |chains|
    ensures if i == |chains| - 1 then Flat(chains[i..]) == chains[i]
            else Flat(chains[i..]) == Flat(Init(chains)[i..]) + chains[|chains| - 1]
  {
    var n := |chains| - 1;
    if i == n {
      assert chains[i..] == [] + [chains[n]];
      FlatOfOneMore([], chains[n]);
    } else {
      assert chains[i..] == Init(chains)[i..] + [chains[n]];
      FlatOfOneMore(Init(chains)[i..], chains[n]);
    }
  }

  lemma OneIsStretch(chains: seq<seq<Segment>>, i: nat, key: string -> string)
    requires i < |chains|
    ensures Stretch(chains, i, i + 1, key)
  {
  }

  lemma StretchGrows(chains: seq<seq<Segment>>, i: nat, key: string -> string)
    requires |chains| >= 2 && Stretch(Init(chains), i, |chains| - 1, key)
    requires Meet(chains[|chains| - 2], chains[|chains| - 1], key)
    ensures Stretch(chains, i, |chains|, key)
  {
    hide Meet;
    StretchOfInit(chains, i, |chains| - 1, key);
  }

  lemma {:induction false} LastStretchIsLongest(chains: seq<seq<Segment>>, i: nat, key: string -> string)
    requires chains != [] && Stretch(chains, i, |chains|, key)
    ensures LastStart(chains, key) <= i
  {
    var n := |chains| - 1;
    if i < n {
      assert Meet(chains[n - 1], chains[n], key);
      assert Stretch(Init(chains), i, n, key);
      LastStretchIsLongest(Init(chains), i, key);
    }
  }

  /** Every run of the joined chains is a stretch of them. */
  lemma {:induction false} RunIsStretch(chains: seq<seq<Segment>>, run: seq<Segment>, key: string -> string)
    requires (forall chain | chain in chains :: chain != []) && run in Regrouped(chains, key)
    ensures exists i: nat, j: nat :: Stretch(chains, i, j, key) && run == Flat(chains[i..j])
  {
    var n := |chains| - 1;
    LastStretch(chains, key);
    if run == Last(Regrouped(chains, key)) {
      assert chains[LastStart(chains, key)..] == chains[LastStart(chains, key)..|chains|];
    } else {
      assert run in Regrouped(Init(chains), key);
      assert forall chain | chain in Init(chains) :: chain in chains;
      RunIsStretch(Init(chains), run, key);
      var i: nat, j: nat :| Stretch(Init(chains), i, j, key) && run == Flat(Init(chains)[i..j]);
      StretchOfInit(chains, i, j, key);
    }
  }

  lemma {:induction false} FlatOfBoth(a: seq<seq<Segment>>, b: seq<seq<Segment>>)
    ensures Flat(a + b) == Flat(a) + Flat(b)
  {
    if b == [] {
      assert a + b == a;
    } else {
      FlatOfBoth(a, Init(b));
      assert Init(a + b) == a + Init(b);
      Assoc(Flat(a), Flat(Init(b)), Last(b));
    }
  }

  /** Every stretch lies in one run of the joined chains. */
  lemma {:induction false} StretchIsInRun(chains: seq<seq<Segment>>, i: nat, j: nat, key: string -> string)
    requires (forall chain | chain in chains :: chain != []) && Stretch(chains, i, j, key)
    ensures exists run :: run in Regrouped(chains, key) && |run| >= |Flat(chains[i..j])|
    decreases |chains|
  {
    hide *;
    if j == |chains| {
      LastRunIsLong(chains, i, key);
    } else {
      StretchIsInBounds(chains, i, j, key);
      AllInInit(chains);
      StretchOfInit(chains, i, j, key);
      StretchIsInRun(Init(chains), i, j, key);
      var run :| run in Regrouped(Init(chains), key) && |run| >= |Flat(chains[i..j])|;
      LastJoins(chains, key);
      RunStays(Regrouped(Init(chains), key), run, chains[|chains| - 1], Regrouped(chains, key));
    }
  }

  lemma LastRunIsLong(chains: seq<seq<Segment>>, i: nat, key: string -> string)
    requires (forall chain | chain in chains :: chain != []) && Stretch(chains, i, |chains|, key)
    ensures exists run :: run in Regrouped(chains, key) && |run| >= |Flat(chains[i..|chains|])|
  {
    var first := LastStart(chains, key);
    LastStretch(chains, key);
    LastStretchIsLongest(chains, i, key);
    StretchIsInBounds(chains, i, |chains|, key);
    ShorterEnd(chains, first, i);
    hide Regrouped, Stretch, Flat;
    assert Last(Regrouped(chains, key)) in Regrouped(chains, key);
  }

  lemma ShorterEnd(chains: seq<seq<Segment>>, i: nat, k: nat)
    requires i <= k <= |chains|
    ensures |Flat(chains[k..|chains|])| <= |Flat(chains[i..])|
  {
    assert chains[i..] == chains[i..k] + chains[k..|chains|];
    FlatOfBoth(chains[i..k], chains[k..|chains|]);
  }

  lemma RunStays(before: seq<seq<Segment>>, run: seq<Segment>, chain: seq<Segment>, after: seq<seq<Segment>>)
    requires before != [] && run in before
    requires after == before + [chain] || after == Init(before) + [Last(before) + chain]
    ensures exists longer :: longer in after && |longer| >= |run|
  {
    if run in after {
    } else {
      assert run == Last(before) && after[|after| - 1] == Last(before) + chain;
    }
  }

  // -- When a second pass changes something -------------------------------------------------------------

  function EachKept(runs: seq<seq<Segment>>, threshold: int): (kept: seq<seq<Segment>>)
    ensures |kept| == |runs| && forall i | 0 <= i < |runs| :: kept[i] == Kept(runs[i], threshold)
  {
    if runs == [] then [] else EachKept(Init(runs), threshold) + [Kept(Last(runs), threshold)]
  }

  lemma {:induction false} FlatOfKept(runs: seq<seq<Segment>>, threshold: int)
    ensures Flat(EachKept(runs, threshold)) == KeptOf(runs, threshold)
  {
    if runs != [] {
      FlatOfKept(Init(runs), threshold);
      assert Init(EachKept(runs, threshold)) == EachKept(Init(runs), threshold);
    }
  }

  lemma {:induction false} ChainEnds(run: seq<Segment>, key: string -> string)
    requires IsChain(run, key)
    ensures key(run[0].text) == key(Last(run).text) && run[0].start <= Last(run).start && run[0].end <= Last(run).end
  {
    if |run| > 1 {
      var init := Init(run);
      assert IsChain(init, key) by {
        forall i, j | 0 <= i < j < |init| && j == i + 1 ensures Linked(init[i], init[j], key) {
          assert Linked(run[i], run[j], key);
        }
      }
      ChainEnds(init, key);
      assert Linked(run[|run| - 2], run[|run| - 1], key);
    }
  }

  lemma KeptIsChain(run: seq<Segment>, key: string -> string, threshold: int)
    requires IsChain(run, key) && threshold >= 2
    ensures IsChain(Kept(run, threshold), key) && |Kept(run, threshold)| < threshold
  {
  }

  /**
    What a pass keeps of the second run repeats what it keeps of the first. When the first
    one is collapsed its first start counts, and when the second one is, its last end.
   */
  predicate Heals(a: seq<Segment>, b: seq<Segment>, key: string -> string, threshold: int) {
    && a != [] && b != []
    && key(a[0].text) != "" && key(b[0].text) == key(a[0].text)
    && (if |a| >= threshold then a[0] else Last(a)).start <= b[0].start
    && Last(a).end <= (if |b| >= threshold then Last(b) else b[0]).end
    && b[0].start - Last(a).end <= MAX_REPEAT_GAP_SECONDS
  }

  lemma HealsIffKeptMeet(a: seq<Segment>, b: seq<Segment>, key: string -> string, threshold: int)
    requires IsChain(a, key) && IsChain(b, key) && threshold >= 2
    ensures Heals(a, b, key, threshold) <==> Meet(Kept(a, threshold), Kept(b, threshold), key)
  {
    ChainEnds(a, key);
    ChainEnds(b, key);
    hide IsChain;
  }

  /** Runs i to j of the transcript, each healed to the next one. */
  ghost predicate HealedStretch(runs: seq<seq<Segment>>, i: nat, j: nat, key: string -> string, threshold: int) {
    i < j <= |runs| && forall k, n | i <= k < n < j && n == k + 1 :: Heals(runs[k], runs[n], key, threshold)
  }

  /** A pass over it keeps enough of a healed stretch to collapse it. */
  ghost predicate LongHealedStretch(runs: seq<seq<Segment>>, i: nat, j: nat, key: string -> string, threshold: int) {
    HealedStretch(runs, i, j, key, threshold) && |KeptOf(runs[i..j], threshold)| >= threshold
  }

  lemma HealedIffStretch(runs: seq<seq<Segment>>, i: nat, j: nat, key: string -> string, threshold: int)
    requires threshold >= 2 && forall run | run in runs :: IsChain(run, key)
    ensures HealedStretch(runs, i, j, key, threshold) <==> Stretch(EachKept(runs, threshold), i, j, key)
    ensures i <= j <= |runs| ==> Flat(EachKept(runs, threshold)[i..j]) == KeptOf(runs[i..j], threshold)
  {
    hide Heals, Meet, IsChain, Kept, Flat, KeptOf;
    var kept := EachKept(runs, threshold);
    forall k, n | 0 <= k < n < |runs| ensures Heals(runs[k], runs[n], key, threshold) <==> Meet(kept[k], kept[n], key) {
      assert runs[k] in runs && runs[n] in runs;
      HealsIffKeptMeet(runs[k], runs[n], key, threshold);
    }
    if i <= j <= |runs| {
      assert EachKept(runs[i..j], threshold) == kept[i..j];
      FlatOfKept(runs[i..j], threshold);
    }
  }

  lemma KeptAreChains(segments: seq<Segment>, key: string -> string, threshold: int)
    requires threshold >= 2
    ensures var kept := EachKept(Runs(segments, key), threshold);
            && (forall run | run in Runs(segments, key) :: IsChain(run, key))
            && (forall chain | chain in kept :: IsChain(chain, key) && chain != [] && |chain| < threshold)
            && Flat(kept) == Collapsed(segments, key, threshold)
  {
    var runs := Runs(segments, key);
    var kept := EachKept(runs, threshold);
    RunsArePartition(segments, key);
    FlatOfKept(runs, threshold);
    hide Runs, Flat, Linked, Kept;
    forall i | 0 <= i < |runs| ensures IsChain(kept[i], key) && kept[i] != [] && |kept[i]| < threshold {
      assert runs[i] in runs;
      KeptIsChain(runs[i], key, threshold);
    }
  }

  /** The runs a second pass finds are the joined kept ones. */
  lemma SecondRuns(segments: seq<Segment>, key: string -> string, threshold: int)
    requires threshold >= 2
    ensures Runs(Collapsed(segments, key, threshold), key) == Regrouped(EachKept(Runs(segments, key), threshold), key)
  {
    var kept := EachKept(Runs(segments, key), threshold);
    KeptAreChains(segments, key, threshold);
    hide *;
    RunsOfChains(kept, key);
    PartitionIsUnique(Regrouped(kept, key), Collapsed(segments, key, threshold), key);
  }

  /**
    A second pass changes something if and only if a stretch of healed runs holds, after
    the first pass, as many segments as the threshold.
   */
  lemma SecondPassChangesIff(segments: seq<Segment>, key: string -> string, threshold: int)
    ensures Collapsed(Collapsed(segments, key, threshold), key, threshold) != Collapsed(segments, key, threshold)
       <==> threshold >= 2 && exists i: nat, j: nat :: LongHealedStretch(Runs(segments, key), i, j, key, threshold)
  {
    if threshold >= 2 {
      var once, runs := Collapsed(segments, key, threshold), Runs(segments, key);
      var kept := EachKept(runs, threshold);
      KeptAreChains(segments, key, threshold);
      SecondRuns(segments, key, threshold);
      StableIffShort(once, key, threshold);
      hide Collapsed, Runs, Flat, KeptOf, IsChain, Stretch, HealedStretch, EachKept;
      if run :| run in Runs(once, key) && |run| >= threshold {
        RunIsStretch(kept, run, key);
        var i: nat, j: nat :| Stretch(kept, i, j, key) && run == Flat(kept[i..j]);
        HealedIffStretch(runs, i, j, key, threshold);
        StretchIsInBounds(kept, i, j, key);
        assert LongHealedStretch(runs, i, j, key, threshold);
      }
      if i: nat, j: nat :| LongHealedStretch(runs, i, j, key, threshold) {
        HealedIffStretch(runs, i, j, key, threshold);
        StretchIsInBounds(kept, i, j, key);
        StretchIsInRun(kept, i, j, key);
      }
    }
  }

  // -- Transcripts that move forward ------------------------------------------------------------------------

  /** Starts and ends never move backward. */
  ghost predicate MovesForward(segments: seq<Segment>) {
    forall i, j | 0 <= i < j < |segments| ::
      segments[i].start <= segments[j].start && segments[i].end <= segments[j].end
  }

  /** Neighbouring runs meet in the flat list. */
  lemma {:induction false} NeighboursMeet(runs: seq<seq<Segment>>, i: nat) returns (at: nat)
    requires i + 1 < |runs| && forall k | 0 <= k < |runs| :: runs[k] != []
    ensures at + 1 < |Flat(runs)| && Flat(runs)[at] == Last(runs[i]) && Flat(runs)[at + 1] == runs[i + 1][0]
  {
    if i + 2 == |runs| {
      at := |Flat(Init(runs))| - 1;
      assert Last(Init(runs)) == runs[i];
    } else {
      at := NeighboursMeet(Init(runs), i);
    }
  }

  /** Where times move forward a cut between two runs does not heal. */
  lemma ForwardRunsDoNotHeal(segments: seq<Segment>, i: nat, key: string -> string, threshold: int)
    requires threshold >= 2 && MovesForward(segments) && i + 1 < |Runs(segments, key)|
    ensures !Heals(Runs(segments, key)[i], Runs(segments, key)[i + 1], key, threshold)
  {
    var runs := Runs(segments, key);
    RunsArePartition(segments, key);
    hide Runs, Flat;
    assert Apart(runs[i], runs[i + 1], key);
    forall k | 0 <= k < |runs| ensures IsChain(runs[k], key) && runs[k] != [] { assert runs[k] in runs; }
    var at := NeighboursMeet(runs, i);
    assert segments[at].start <= segments[at + 1].start && segments[at].end <= segments[at + 1].end;
    ChainEnds(runs[i], key);
    ChainEnds(runs[i + 1], key);
  }

  /** On transcripts that move forward, collapsing again changes nothing. */
  lemma CollapsingTwice(segments: seq<Segment>, key: string -> string, threshold: int)
    requires MovesForward(segments)
    ensures Collapsed(Collapsed(segments, key, threshold), key, threshold) == Collapsed(segments, key, threshold)
  {
    hide *;
    SecondPassChangesIff(segments, key, threshold);
    if i: nat, j: nat :| threshold >= 2 && LongHealedStretch(Runs(segments, key), i, j, key, threshold) {
      ForwardStretchesAreShort(segments, i, j, key, threshold);
    }
  }

  lemma ForwardStretchesAreShort(segments: seq<Segment>, i: nat, j: nat, key: string -> string, threshold: int)
    requires threshold >= 2 && MovesForward(segments)
    ensures !LongHealedStretch(Runs(segments, key), i, j, key, threshold)
  {
    hide *;
    var runs := Runs(segments, key);
    if LongHealedStretch(runs, i, j, key, threshold) {
      LongStretchHeals(runs, i, j, key, threshold);
      if i + 1 < j {
        ForwardRunsDoNotHeal(segments, i, key, threshold);
      } else {
        KeptAreChains(segments, key, threshold);
        KeptAt(runs, i, threshold);
      }
    }
  }

  lemma LongStretchHeals(runs: seq<seq<Segment>>, i: nat, j: nat, key: string -> string, threshold: int)
    requires LongHealedStretch(runs, i, j, key, threshold)
    ensures i < j <= |runs| && (i + 1 < j ==> Heals(runs[i], runs[i + 1], key, threshold))
    ensures i + 1 == j ==> |Kept(runs[i], threshold)| >= threshold
  {
    hide Heals, Kept;
    if i + 1 == j {
      assert runs[i..j] == [runs[i]] && Init([runs[i]]) == [];
      assert KeptOf(runs[i..j], threshold) == [] + Kept(runs[i], threshold);
    }
  }

  lemma KeptAt(runs: seq<seq<Segment>>, i: nat, threshold: int)
    requires i < |runs|
    ensures Kept(runs[i], threshold) in EachKept(runs, threshold)
  {
    assert EachKept(runs, threshold)[i] == Kept(runs[i], threshold);
  }

  // -- A transcript that a second pass changes ------------------------------------------------------------------

  function SameText(text: string): string { text }

  const LONG := Segment(0, 0.0, 10.0, "k", "", [])
  const SHORT := Segment(1, 1.0, 2.0, "k", "", [])
  const LATE := Segment(2, 2.0, 11.0, "k", "", [])
  const MERGED := SHORT.(end := 11.0)

  lemma RunsOfTwo(a: Segment, b: Segment, key: string -> string)
    ensures Runs([a], key) == [[a]]
    ensures Runs([a, b], key) == if Linked(a, b, key) then [[a, b]] else [[a], [b]]
  {
    var two := [a, b];
    RunsUnfold(two, 1, key);
    RunsUnfold(two, 2, key);
    assert two[..0] == [] && two[..1] == [a] && two[..2] == two;
    assert Runs([], key) == [];
    hide Runs, Linked;
    ExtendedRun([], [a], b);
    assert [] + [[a]] == [[a]] && [a] + [b] == [a, b];
  }

  lemma RunsOfThree(a: Segment, b: Segment, c: Segment, key: string -> string)
    requires !Linked(a, b, key) && Linked(b, c, key)
    ensures Runs([a, b, c], key) == [[a], [b, c]]
  {
    var three := [a, b, c];
    RunsUnfold(three, 3, key);
    assert three[..2] == [a, b] && three[..3] == three;
    hide Runs, Linked;
    RunsOfTwo(a, b, key);
    ExtendedRun([[a]], [b], c);
    assert [[a]] + [[b]] == [[a], [b]] && [b] + [c] == [b, c];
  }

  lemma KeptOfTwo(x: seq<Segment>, y: seq<Segment>, threshold: int)
    ensures KeptOf([x], threshold) == Kept(x, threshold) &&
        KeptOf([x, y], threshold) == Kept(x, threshold) + Kept(y, threshold)
  {
    assert Init([x]) == [] && Init([x, y]) == [x];
  }

  /** An end that moves backward can make the second pass collapse more. */
  lemma EndsThatMoveBack()
    ensures var once := Collapsed([LONG, SHORT, LATE], SameText, 2);
            once == [LONG, MERGED] && Collapsed(once, SameText, 2) == [LONG.(end := 11.0)]
  {
    assert !Linked(LONG, SHORT, SameText) && Linked(SHORT, LATE, SameText) && Linked(LONG, MERGED, SameText);
    RunsOfThree(LONG, SHORT, LATE, SameText);
    RunsOfTwo(LONG, MERGED, SameText);
    KeptOfTwo([LONG], [SHORT, LATE], 2);
    KeptOfTwo([LONG, MERGED], [], 2);
  }
}
