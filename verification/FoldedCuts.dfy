/**
  Where a segment is cut (transcriptions/known_speaker.py), in terms of its words alone.
  A run is a maximal stretch of words that fall into turns of one speaker. A run that is
  large enough keeps its own speaker, a small one goes to the run before it, and only what
  is small at the very beginning goes to the run after it.
 */
module FoldedCuts {
  import opened Turns
  import opened SegmentRecut

  /** Words in time order within the segment. */
  ghost predicate InTime(segment: Segment) {
    && (forall i, j | 0 <= i < j < |segment.words| ::
         segment.words[i].start <= segment.words[j].start && segment.words[i].end <= segment.words[j].end)
    && (segment.words != [] ==>
         segment.start <= segment.words[0].start && segment.words[|segment.words| - 1].start <= segment.end)
  }

  /** The words from `i` up to `j` are two, and 0.3 seconds both as words and as a segment. */
  predicate Big(segment: Segment, i: nat, j: nat)
    requires i < j <= |segment.words|
  {
    && j - i >= 2
    && segment.words[j - 1].end - segment.words[i].start >= 0.3
    && (if j == |segment.words| then segment.end else segment.words[j].start) -
       (if i == 0 then segment.start else segment.words[i].start) >= 0.3
  }

  lemma BigGrows(segment: Segment, i: nat, j: nat, k: nat)
    requires InTime(segment) && i < j <= k <= |segment.words| && Big(segment, i, j)
    ensures Big(segment, i, k) && Big(segment, 0, k)
  {
    var words := segment.words;
    assert words[0].start <= words[i].start && words[j - 1].end <= words[k - 1].end;
    if j < |words| {
      assert words[j].start <= words[|words| - 1].start;
    }
  }

  // -- Cuts -----------------------------------------------------------------------------------------

  /** A piece by its first word: it goes on to the first word of the next. */
  datatype Cut = Cut(first: nat, speaker: string)

  function NextOf(cuts: seq<Cut>, i: nat, n: nat): nat
    requires i < |cuts|
  {
    if i + 1 < |cuts| then cuts[i + 1].first else n
  }

  ghost predicate Ascending(cuts: seq<Cut>, n: nat) {
    && (cuts == [] <==> n == 0)
    && (cuts != [] ==> cuts[0].first == 0)
    && (forall i | 0 <= i < |cuts| :: cuts[i].first < n)
    && (forall i, j | 0 <= i < j < |cuts| :: cuts[i].first < cuts[j].first)
  }

  ghost predicate Differ(cuts: seq<Cut>) {
    forall i, j | 0 <= i < j < |cuts| && j == i + 1 :: cuts[i].speaker != cuts[j].speaker
  }

  /** The pieces that `cuts` makes of `words`. */
  ghost predicate CutInto(words: seq<Word>, cuts: seq<Cut>, pieces: seq<Piece>) {
    && Ascending(cuts, |words|)
    && |pieces| == |cuts|
    && forall i: nat | i < |cuts| :: IsCut(words, cuts, i, pieces[i])
  }

  ghost predicate IsCut(words: seq<Word>, cuts: seq<Cut>, i: nat, piece: Piece)
    requires i < |cuts|
  {
    var first, next := cuts[i].first, NextOf(cuts, i, |words|);
    first < next <= |words| && piece == Piece(cuts[i].speaker, words[first..next])
  }

  lemma {:induction false} WordsOfCuts(words: seq<Word>, cuts: seq<Cut>, pieces: seq<Piece>, m: nat)
    requires CutInto(words, cuts, pieces) && m <= |cuts|
    ensures WordsOf(pieces[..m]) == words[..if m < |cuts| then cuts[m].first else |words|]
  {
    if m > 0 {
      WordsOfCuts(words, cuts, pieces, m - 1);
      WordsOfOneMore(pieces[..m - 1], pieces[m - 1]);
      hide WordsOf;
      assert pieces[..m - 1] + [pieces[m - 1]] == pieces[..m];
      assert IsCut(words, cuts, m - 1, pieces[m - 1]);
    }
  }

  lemma SmallIff(segment: Segment, cuts: seq<Cut>, pieces: seq<Piece>, i: nat)
    requires CutInto(segment.words, cuts, pieces) && NoneEmpty(pieces) && i < |cuts|
    ensures cuts[i].first < NextOf(cuts, i, |segment.words|) <= |segment.words|
    ensures TooSmall(segment, pieces, i) <==> !Big(segment, cuts[i].first, NextOf(cuts, i, |segment.words|))
  {
    assert IsCut(segment.words, cuts, i, pieces[i]);
    assert i + 1 < |cuts| ==> IsCut(segment.words, cuts, i + 1, pieces[i + 1]);
  }

  // -- Runs as cuts ---------------------------------------------------------------------------------

  function RunsOf(words: seq<Word>, turns: seq<Turn>): seq<Cut>
    requires turns != []
  {
    if words == [] then []
    else
      var n := |words| - 1;
      var runs, speaker := RunsOf(words[..n], turns), TurnSpeakerOf(words[n], turns);
      if runs != [] && runs[|runs| - 1].speaker == speaker then runs else runs + [Cut(n, speaker)]
  }

  lemma OneWordMore(words: seq<Word>, turns: seq<Turn>) returns (last: Cut, piece: Piece)
    requires turns != [] && words != []
    ensures last.first == |words| - 1 && piece == Piece(last.speaker, words[last.first..])
    ensures last.speaker == TurnSpeakerOf(words[last.first], turns)
    ensures var runs := RunsOf(words[..last.first], turns);
            RunsOf(words, turns) ==
            if runs != [] && runs[|runs| - 1].speaker == last.speaker then runs else runs + [last]
    ensures Group(words, turns) == Join(Group(words[..last.first], turns), piece)
  {
    hide TurnSpeakerOf, Join;
    var n := |words| - 1;
    last := Cut(n, TurnSpeakerOf(words[n], turns));
    piece := Piece(last.speaker, [words[n]]);
  }

  lemma {:induction false} RunsDiffer(words: seq<Word>, turns: seq<Turn>)
    requires turns != []
    ensures Differ(RunsOf(words, turns))
  {
    hide RunsOf, TurnSpeakerOf, Group, Join;
    if words == [] {
      NoWordsNoRuns(turns);
    } else {
      var last, _ := OneWordMore(words, turns);
      RunsDiffer(words[..last.first], turns);
    }
  }

  lemma NoWordsNoRuns(turns: seq<Turn>)
    requires turns != []
    ensures CutInto([], RunsOf([], turns), Group([], turns)) && RunsOf([], turns) == []
  {
  }

  lemma {:induction false} GroupIsCut(words: seq<Word>, turns: seq<Turn>)
    requires turns != []
    ensures CutInto(words, RunsOf(words, turns), Group(words, turns))
  {
    hide *;
    if words == [] {
      NoWordsNoRuns(turns);
    } else {
      var last, piece := OneWordMore(words, turns);
      GroupIsCut(words[..last.first], turns);
      JoinIsCut(words, RunsOf(words[..last.first], turns), Group(words[..last.first], turns), last, piece);
    }
  }

  /** Folding drops the cut before the small piece; the first piece takes the name of the second. */
  function Dropped(cuts: seq<Cut>, small: nat): seq<Cut>
    requires small < |cuts| && |cuts| > 1
  {
    if small == 0 then [Cut(0, cuts[1].speaker)] + cuts[2..] else cuts[..small] + cuts[small + 1..]
  }

  lemma DroppedAscends(cuts: seq<Cut>, n: nat, small: nat)
    requires Ascending(cuts, n) && small < |cuts| && |cuts| > 1
    ensures Ascending(Dropped(cuts, small), n)
  {
    var dropped := Dropped(cuts, small);
    var at := if small == 0 then 0 else small - 1;
    assert forall i | 0 <= i < |dropped| :: dropped[i].first == cuts[if i <= at then i else i + 1].first;
  }

  lemma FoldIsDrop(words: seq<Word>, cuts: seq<Cut>, pieces: seq<Piece>, small: nat)
    requires CutInto(words, cuts, pieces) && small < |cuts| && |cuts| > 1
    ensures CutInto(words, Dropped(cuts, small), FoldInto(pieces, small))
  {
    hide Ascending;
    DroppedAscends(cuts, |words|, small);
    var dropped, folded := Dropped(cuts, small), FoldInto(pieces, small);
    forall i: nat | i < |dropped| ensures IsCut(words, dropped, i, folded[i]) {
      FoldedPieceIsCut(words, cuts, pieces, small, i);
    }
  }

  lemma DroppedAt(cuts: seq<Cut>, small: nat, i: nat, n: nat)
    requires small < |cuts| && i < |cuts| - 1 && cuts[0].first == 0
    ensures var at := if small == 0 then 0 else small - 1;
            && |Dropped(cuts, small)| == |cuts| - 1
            && Dropped(cuts, small)[i].first == cuts[if i <= at then i else i + 1].first
            && Dropped(cuts, small)[i].speaker == cuts[if i < at || (i == at && small > 0) then i else i + 1].speaker
            && NextOf(Dropped(cuts, small), i, n) == NextOf(cuts, if i < at then i else i + 1, n)
  {
  }

  lemma FoldedPieceAt(cuts: seq<Cut>, pieces: seq<Piece>, small: nat, i: nat)
    requires |cuts| == |pieces| && small < |cuts| && i < |cuts| - 1
    ensures |FoldInto(pieces, small)| == |pieces| - 1
    ensures var at, folded := if small == 0 then 0 else small - 1, FoldInto(pieces, small)[i];
            var kept := if small == 0 then 1 else at;
            folded == if i < at then pieces[i] else if i > at then pieces[i + 1]
                      else Piece(pieces[kept].speaker, pieces[at].words + pieces[at + 1].words)
  {
  }

  lemma SameCut(words: seq<Word>, a: seq<Cut>, i: nat, b: seq<Cut>, j: nat, piece: Piece)
    requires i < |a| && j < |b| && a[i] == b[j] && NextOf(a, i, |words|) == NextOf(b, j, |words|)
    requires IsCut(words, a, i, piece)
    ensures IsCut(words, b, j, piece)
  {
  }

  lemma TwoCutsAreOne(words: seq<Word>, a: seq<Cut>, i: nat, b: seq<Cut>, j: nat, first: Piece, second: Piece)
    requires i + 1 < |a| && j < |b| && IsCut(words, a, i, first) && IsCut(words, a, i + 1, second)
    requires a[i].first == b[j].first && NextOf(a, i + 1, |words|) == NextOf(b, j, |words|)
    ensures IsCut(words, b, j, Piece(b[j].speaker, first.words + second.words))
  {
    assert first.words + second.words == words[a[i].first..NextOf(a, i + 1, |words|)];
  }

  lemma FoldedPieceIsCut(words: seq<Word>, cuts: seq<Cut>, pieces: seq<Piece>, small: nat, i: nat)
    requires CutInto(words, cuts, pieces) && small < |cuts| && i < |cuts| - 1
    ensures i < |FoldInto(pieces, small)| && i < |Dropped(cuts, small)|
    ensures IsCut(words, Dropped(cuts, small), i, FoldInto(pieces, small)[i])
  {
    hide *;
    PieceIsCut(words, cuts, pieces, i);
    PieceIsCut(words, cuts, pieces, i + 1);
    FoldedPieceAt(cuts, pieces, small, i);
    DroppedAt(cuts, small, i, |words|);
    var at, dropped := if small == 0 then 0 else small - 1, Dropped(cuts, small);
    if i < at {
      SameCut(words, cuts, i, dropped, i, pieces[i]);
    } else if i > at {
      SameCut(words, cuts, i + 1, dropped, i, pieces[i + 1]);
    } else {
      TwoCutsAreOne(words, cuts, i, dropped, i, pieces[i], pieces[i + 1]);
    }
  }

  lemma PieceIsCut(words: seq<Word>, cuts: seq<Cut>, pieces: seq<Piece>, i: nat)
    requires CutInto(words, cuts, pieces) && i < |cuts|
    ensures |pieces| == |cuts| && IsCut(words, cuts, i, pieces[i]) && pieces[i].speaker == cuts[i].speaker
    ensures cuts[0].first == 0
  {
    assert IsCut(words, cuts, i, pieces[i]);
  }

  function Joined(cuts: seq<Cut>): seq<Cut> {
    if cuts == [] then []
    else
      var joined, last := Joined(cuts[..|cuts| - 1]), cuts[|cuts| - 1];
      if joined != [] && joined[|joined| - 1].speaker == last.speaker then joined else joined + [last]
  }

  lemma {:induction false} JoiningCuts(words: seq<Word>, cuts: seq<Cut>, pieces: seq<Piece>)
    requires CutInto(words, cuts, pieces)
    ensures CutInto(words, Joined(cuts), JoinNeighbours(pieces))
  {
    hide Ascending, CutInto, IsCut, Join;
    CutIntoParts(words, cuts, pieces);
    if cuts != [] {
      var n, last := |cuts| - 1, cuts[|cuts| - 1];
      JoiningCuts(words[..last.first], cuts[..n], pieces[..n]);
      JoinIsCut(words, Joined(cuts[..n]), JoinNeighbours(pieces[..n]), last, pieces[n]);
    }
  }

  /** The pieces before the last are cut from the words before it. */
  lemma CutIntoParts(words: seq<Word>, cuts: seq<Cut>, pieces: seq<Piece>)
    requires CutInto(words, cuts, pieces)
    ensures |pieces| == |cuts| && (cuts == [] ==> words == [])
    ensures cuts != [] ==>
              var n, last := |cuts| - 1, cuts[|cuts| - 1];
              && last.first < |words| && CutInto(words[..last.first], cuts[..n], pieces[..n])
              && pieces[n] == Piece(last.speaker, words[last.first..])
  {
    if cuts != [] {
      var n, last := |cuts| - 1, cuts[|cuts| - 1];
      var before := words[..last.first];
      assert IsCut(words, cuts, n, pieces[n]);
      assert Ascending(cuts[..n], |before|);
      hide Ascending;
      forall i: nat | i < n ensures IsCut(before, cuts[..n], i, pieces[..n][i]) {
        assert IsCut(words, cuts, i, pieces[i]);
      }
    }
  }

  lemma JoinIsCut(words: seq<Word>, cuts: seq<Cut>, pieces: seq<Piece>, last: Cut, piece: Piece)
    requires last.first < |words| && CutInto(words[..last.first], cuts, pieces)
    requires piece == Piece(last.speaker, words[last.first..])
    ensures CutInto(words,
                    if cuts != [] && cuts[|cuts| - 1].speaker == last.speaker then cuts else cuts + [last],
                    Join(pieces, piece))
  {
    var before, m := words[..last.first], |cuts|;
    if m > 0 {
      assert IsCut(before, cuts, m - 1, pieces[m - 1]);
    }
    if m > 0 && cuts[m - 1].speaker == last.speaker {
      assert Ascending(cuts, |words|);
      hide Ascending;
      forall i: nat | i < m ensures IsCut(words, cuts, i, Join(pieces, piece)[i]) {
        assert IsCut(before, cuts, i, pieces[i]);
        CutGoesOn(words, last.first, cuts, i, pieces[i]);
      }
    } else {
      AppendIsCut(words, cuts, pieces, last, piece);
    }
  }

  /** With more words after it, the last piece takes them and the others stay. */
  lemma CutGoesOn(words: seq<Word>, n: nat, cuts: seq<Cut>, i: nat, piece: Piece)
    requires n <= |words| && i < |cuts| && IsCut(words[..n], cuts, i, piece)
    ensures i + 1 < |cuts| ==> IsCut(words, cuts, i, piece)
    ensures i + 1 == |cuts| ==> IsCut(words, cuts, i, Piece(piece.speaker, piece.words + words[n..]))
  {
    assert words[..n][cuts[i].first..] + words[n..] == words[cuts[i].first..];
  }

  lemma AppendIsCut(words: seq<Word>, cuts: seq<Cut>, pieces: seq<Piece>, last: Cut, piece: Piece)
    requires last.first < |words| && CutInto(words[..last.first], cuts, pieces)
    requires piece == Piece(last.speaker, words[last.first..])
    ensures CutInto(words, cuts + [last], pieces + [piece])
  {
    assert Ascending(cuts + [last], |words|);
    hide Ascending;
    forall i: nat | i < |cuts| + 1 ensures IsCut(words, cuts + [last], i, (pieces + [piece])[i]) {
      if i < |cuts| {
        assert IsCut(words[..last.first], cuts, i, pieces[i]);
        CutEndsAtNext(words, cuts, last, i, pieces[i]);
      }
    }
  }

  lemma CutEndsAtNext(words: seq<Word>, cuts: seq<Cut>, last: Cut, i: nat, piece: Piece)
    requires last.first <= |words| && i < |cuts| && IsCut(words[..last.first], cuts, i, piece)
    ensures IsCut(words, cuts + [last], i, piece)
  {
    assert NextOf(cuts + [last], i, |words|) == NextOf(cuts, i, last.first);
  }

  /** Only the first of neighbours with one speaker stays; where they differ nothing changes. */
  lemma {:induction false} JoinedAppend(a: seq<Cut>, b: seq<Cut>)
    requires Joined(a) != [] && Differ(b)
    requires b != [] ==> Joined(a)[|Joined(a)| - 1].speaker != b[0].speaker
    ensures Joined(a + b) == Joined(a) + b
  {
    if b == [] {
      assert a + b == a;
    } else {
      var n := |b| - 1;
      JoinedAppend(a, b[..n]);
      assert (a + b)[..|a + b| - 1] == a + b[..n];
    }
  }

  lemma JoinedStays(cuts: seq<Cut>)
    requires cuts != [] && Differ(cuts)
    ensures Joined(cuts) == cuts
  {
    assert cuts == cuts[..1] + cuts[1..];
    assert cuts[..1][..0] == [];
    JoinedAppend(cuts[..1], cuts[1..]);
  }

  lemma JoinedSkips(a: seq<Cut>, same: Cut, b: seq<Cut>)
    requires a != [] && Differ(a) && Differ(b)
    requires a[|a| - 1].speaker == same.speaker && (b != [] ==> b[0].speaker != same.speaker)
    ensures Joined(a + [same] + b) == a + b
  {
    JoinedStays(a);
    hide Differ;
    assert (a + [same])[..|a|] == a;
    JoinedAppend(a + [same], b);
  }

  // -- The fold from left to right ------------------------------------------------------------------

  /** Piece `i` of `cuts`, the last of which goes on to `n`, is big. */
  ghost predicate BigCut(segment: Segment, cuts: seq<Cut>, i: nat, n: nat)
    requires Ascending(cuts, n) && n <= |segment.words| && i < |cuts|
  {
    Big(segment, cuts[i].first, NextOf(cuts, i, n))
  }

  /** The cuts that are left when the first `k` runs are dealt with. */
  ghost function Left(segment: Segment, runs: seq<Cut>, k: nat): seq<Cut>
    requires Ascending(runs, |segment.words|) && 0 < k <= |runs|
  {
    if k == 1 then [runs[0]]
    else
      var left, run := Left(segment, runs, k - 1), runs[k - 1];
      if |left| == 1 && !Big(segment, 0, run.first) then [Cut(0, run.speaker)]
      else if !BigCut(segment, runs, k - 1, |segment.words|) || left == [] || left[|left| - 1].speaker == run.speaker
      then left
      else left + [run]
  }

  lemma AscendingMore(cuts: seq<Cut>, run: Cut, n: nat)
    requires Ascending(cuts, run.first) && cuts != [] && run.first < n
    ensures Ascending(cuts, n) && Ascending(cuts + [run], n) && Ascending([Cut(0, run.speaker)], n)
    ensures Differ(cuts) && cuts[|cuts| - 1].speaker != run.speaker ==> Differ(cuts + [run])
  {
  }

  lemma {:induction false} LeftAscends(segment: Segment, runs: seq<Cut>, k: nat)
    requires Ascending(runs, |segment.words|) && 0 < k <= |runs|
    ensures Left(segment, runs, k) != [] && Differ(Left(segment, runs, k))
    ensures Ascending(Left(segment, runs, k), NextOf(runs, k - 1, |segment.words|))
  {
    if k > 1 {
      LeftAscends(segment, runs, k - 1);
      var before, run, next := Left(segment, runs, k - 1), runs[k - 1], NextOf(runs, k - 1, |segment.words|);
      assert run.first < next;
      AscendingMore(before, run, next);
      hide Ascending, Big, BigCut;
    }
  }

  lemma LeftAndRest(segment: Segment, runs: seq<Cut>, k: nat)
    requires Ascending(runs, |segment.words|) && 0 < k <= |runs|
    ensures Ascending(Left(segment, runs, k) + runs[k..], |segment.words|)
  {
    LeftAscends(segment, runs, k);
    AscendingAppend(Left(segment, runs, k), runs, k, |segment.words|);
  }

  lemma AscendingAppend(left: seq<Cut>, runs: seq<Cut>, k: nat, n: nat)
    requires Ascending(runs, n) && 0 < k <= |runs| && left != [] && Ascending(left, NextOf(runs, k - 1, n))
    ensures Ascending(left + runs[k..], n)
  {
    var cuts, m := left + runs[k..], |left|;
    forall i, j | 0 <= i < j < |cuts| ensures cuts[i].first < cuts[j].first {
      if i < m <= j {
        assert left[i].first < NextOf(runs, k - 1, n) <= runs[k + (j - m)].first;
      } else if m <= i {
        assert runs[k + (i - m)].first < runs[k + (j - m)].first;
      }
    }
    forall i | 0 <= i < |cuts| ensures cuts[i].first < n {
      if i < m {
        assert left[i].first < NextOf(runs, k - 1, n) <= n;
      }
    }
  }

  ghost predicate AllBig(segment: Segment, cuts: seq<Cut>, n: nat)
    requires Ascending(cuts, n) && n <= |segment.words|
  {
    forall i: nat | i < |cuts| :: BigCut(segment, cuts, i, n)
  }

  lemma {:induction false} LeftIsBig(segment: Segment, runs: seq<Cut>, k: nat)
    requires Ascending(runs, |segment.words|) && 0 < k <= |runs| && InTime(segment)
    requires |Left(segment, runs, k)| > 1
    ensures Ascending(Left(segment, runs, k), NextOf(runs, k - 1, |segment.words|))
    ensures AllBig(segment, Left(segment, runs, k), NextOf(runs, k - 1, |segment.words|))
  {
    LeftAscends(segment, runs, k);
    LeftAscends(segment, runs, k - 1);
    var before, run, next := Left(segment, runs, k - 1), runs[k - 1], NextOf(runs, k - 1, |segment.words|);
    assert run.first < next;
    AscendingMore(before, run, next);
    if |before| > 1 {
      LeftIsBig(segment, runs, k - 1);
    }
    BigAppends(segment, before, run, next);
  }

  lemma BigAppends(segment: Segment, cuts: seq<Cut>, run: Cut, n: nat)
    requires InTime(segment) && cuts != [] && run.first < n <= |segment.words|
    requires Ascending(cuts, run.first) && Ascending(cuts, n) && Ascending(cuts + [run], n)
    requires (|cuts| == 1 && Big(segment, 0, run.first)) || AllBig(segment, cuts, run.first)
    ensures AllBig(segment, cuts, n)
    ensures Big(segment, run.first, n) ==> AllBig(segment, cuts + [run], n)
  {
    var m := |cuts| - 1;
    assert BigCut(segment, cuts, m, run.first);
    BigGrows(segment, cuts[m].first, run.first, n);
    forall i: nat | i < |cuts| ensures BigCut(segment, cuts, i, n) && BigCut(segment, cuts + [run], i, n) {
      assert BigCut(segment, cuts, i, run.first);
    }
  }

  // -- The fold loop is the fold from left to right -----------------------------------------------

  ghost predicate FirstSmallCut(segment: Segment, cuts: seq<Cut>, small: nat)
    requires Ascending(cuts, |segment.words|)
  {
    && small < |cuts| && !BigCut(segment, cuts, small, |segment.words|)
    && forall i: nat | i < small :: BigCut(segment, cuts, i, |segment.words|)
  }

  /** One round of the loop, on the cuts. */
  lemma SettlesStep(segment: Segment, turns: seq<Turn>, cuts: seq<Cut>, pieces: seq<Piece>, small: nat,
                    settled: seq<Piece>)
    returns (next: seq<Piece>)
    requires turns != [] && NoneEmpty(pieces) && Labelled(pieces, turns) && Settles(segment, turns, pieces, settled)
    requires CutInto(segment.words, cuts, pieces) && |cuts| > 1 && FirstSmallCut(segment, cuts, small)
    ensures NoneEmpty(next) && Labelled(next, turns) && Settles(segment, turns, next, settled)
    ensures CutInto(segment.words, Joined(Dropped(cuts, small)), next) && |next| < |pieces|
  {
    hide TooSmall, Big, Labelled, NoneEmpty, FoldInto, JoinNeighbours, Ascending, IsCut, Joined, Dropped;
    forall i: nat | i < |cuts| ensures TooSmall(segment, pieces, i) <==> !BigCut(segment, cuts, i, |segment.words|) {
      SmallIff(segment, cuts, pieces, i);
    }
    assert TooSmall(segment, pieces, small);
    var first: nat :| FirstSmall(segment, pieces, first) && (
                        FoldKeeps(pieces, first, turns);
                        JoinNeighboursKeeps(FoldInto(pieces, first), turns);
                        Settles(segment, turns, JoinNeighbours(FoldInto(pieces, first)), settled));
    assert first == small;
    next := JoinNeighbours(FoldInto(pieces, small));
    FoldKeeps(pieces, small, turns);
    JoinNeighboursKeeps(FoldInto(pieces, small), turns);
    FoldIsDrop(segment.words, cuts, pieces, small);
    JoiningCuts(segment.words, Dropped(cuts, small), FoldInto(pieces, small));
  }

  lemma DifferInRest(runs: seq<Cut>, k: nat)
    requires Differ(runs) && k <= |runs|
    ensures Differ(runs[k..])
  {
    forall i, j | 0 <= i < j < |runs[k..]| && j == i + 1 ensures runs[k..][i].speaker != runs[k..][j].speaker {
      assert runs[k + i].speaker != runs[k + j].speaker;
    }
  }

  lemma DifferAppend(a: seq<Cut>, b: seq<Cut>)
    requires Differ(a) && Differ(b) && a != [] && (b != [] ==> a[|a| - 1].speaker != b[0].speaker)
    ensures Differ(a + b)
  {
  }

  /** Small from the beginning on: the next run takes what there is. */
  lemma LeadingIsTaken(segment: Segment, runs: seq<Cut>, k: nat)
    requires Ascending(runs, |segment.words|) && Differ(runs) && 0 < k < |runs|
    requires |Left(segment, runs, k)| == 1 && !Big(segment, 0, runs[k].first)
    ensures var cuts := Left(segment, runs, k) + runs[k..];
            && Ascending(cuts, |segment.words|) && FirstSmallCut(segment, cuts, 0)
            && Left(segment, runs, k + 1) == [Cut(0, runs[k].speaker)]
            && Joined(Dropped(cuts, 0)) == Left(segment, runs, k + 1) + runs[k + 1..]
  {
    LeftAscends(segment, runs, k);
    LeftAndRest(segment, runs, k);
    DifferInRest(runs, k);
    DifferInRest(runs, k + 1);
    var next := [Cut(0, runs[k].speaker)] + runs[k + 1..];
    assert k + 1 < |runs| ==> runs[k].speaker != runs[k + 1].speaker;
    DifferAppend([Cut(0, runs[k].speaker)], runs[k + 1..]);
    JoinedStays(next);
    assert Dropped(Left(segment, runs, k) + runs[k..], 0) == next;
  }

  lemma LeftAllBig(segment: Segment, runs: seq<Cut>, k: nat)
    requires Ascending(runs, |segment.words|) && InTime(segment) && 0 < k < |runs|
    requires |Left(segment, runs, k)| > 1 || Big(segment, 0, runs[k].first)
    ensures var left, cuts := Left(segment, runs, k), Left(segment, runs, k) + runs[k..];
            && left != [] && Ascending(cuts, |segment.words|)
            && forall i: nat | i < |left| :: BigCut(segment, cuts, i, |segment.words|)
  {
    LeftAscends(segment, runs, k);
    LeftAndRest(segment, runs, k);
    var left, n := Left(segment, runs, k), runs[k].first;
    if |left| > 1 {
      LeftIsBig(segment, runs, k);
    } else {
      assert BigCut(segment, left, 0, n);
    }
    hide Left, Big;
    forall i: nat | i < |left| ensures BigCut(segment, left + runs[k..], i, |segment.words|) {
      assert BigCut(segment, left, i, n);
    }
  }

  /** A small run after what is big goes to the part before it, and so does its neighbour of that speaker. */
  lemma SmallIsTaken(segment: Segment, runs: seq<Cut>, k: nat) returns (next: nat)
    requires Ascending(runs, |segment.words|) && Differ(runs) && InTime(segment) && 0 < k < |runs|
    requires |Left(segment, runs, k)| > 1 || Big(segment, 0, runs[k].first)
    requires !BigCut(segment, runs, k, |segment.words|)
    ensures var left, cuts := Left(segment, runs, k), Left(segment, runs, k) + runs[k..];
            && Ascending(cuts, |segment.words|) && FirstSmallCut(segment, cuts, |left|)
            && k < next <= |runs| && Left(segment, runs, next) == left != []
            && Joined(Dropped(cuts, |left|)) == left + runs[next..]
            && (next < |runs| ==> left[|left| - 1].speaker != runs[next].speaker)
  {
    LeftAscends(segment, runs, k);
    LeftAllBig(segment, runs, k);
    var left := Left(segment, runs, k);
    var cuts := left + runs[k..];
    assert cuts[|left|] == runs[k] && NextOf(cuts, |left|, |segment.words|) == NextOf(runs, k, |segment.words|);
    assert Left(segment, runs, k + 1) == left;
    assert Dropped(cuts, |left|) == left + runs[k + 1..];
    DifferInRest(runs, k + 1);
    if k + 1 < |runs| && left[|left| - 1].speaker == runs[k + 1].speaker {
      next := k + 2;
      BigCutGrows(segment, left, runs, k);
      assert Left(segment, runs, k + 2) == left;
      DifferInRest(runs, k + 2);
      assert left + runs[k + 1..] == left + [runs[k + 1]] + runs[k + 2..];
      assert k + 2 < |runs| ==> runs[k + 1].speaker != runs[k + 2].speaker;
      JoinedSkips(left, runs[k + 1], runs[k + 2..]);
    } else {
      next := k + 1;
      DifferAppend(left, runs[k + 1..]);
      JoinedStays(left + runs[k + 1..]);
    }
  }

  lemma BigCutGrows(segment: Segment, left: seq<Cut>, runs: seq<Cut>, k: nat)
    requires Ascending(runs, |segment.words|) && InTime(segment) && 0 < k < |runs| - 1
    requires |left| > 1 || Big(segment, 0, runs[k].first)
    ensures |left| > 1 || Big(segment, 0, runs[k + 1].first)
  {
    if |left| <= 1 {
      BigGrows(segment, 0, runs[k].first, runs[k + 1].first);
    }
  }

  lemma BigIsKept(segment: Segment, runs: seq<Cut>, k: nat)
    requires Ascending(runs, |segment.words|) && 0 < k < |runs| && Left(segment, runs, k) != []
    requires |Left(segment, runs, k)| > 1 || Big(segment, 0, runs[k].first)
    requires BigCut(segment, runs, k, |segment.words|)
    requires Left(segment, runs, k)[|Left(segment, runs, k)| - 1].speaker != runs[k].speaker
    ensures Left(segment, runs, k + 1) == Left(segment, runs, k) + [runs[k]]
    ensures Left(segment, runs, k + 1) + runs[k + 1..] == Left(segment, runs, k) + runs[k..]
  {
  }

  /** The loop goes from `pieces` to `settled`, and has dealt with the first `k` runs. */
  ghost predicate Underway(segment: Segment, turns: seq<Turn>, runs: seq<Cut>, k: nat, pieces: seq<Piece>,
                           settled: seq<Piece>)
    requires Ascending(runs, |segment.words|)
  {
    && 0 < k <= |runs| && turns != [] && NoneEmpty(pieces) && Labelled(pieces, turns)
    && Settles(segment, turns, pieces, settled)
    && CutInto(segment.words, Left(segment, runs, k) + runs[k..], pieces)
    && Left(segment, runs, k) != []
    && (k < |runs| ==> Left(segment, runs, k)[|Left(segment, runs, k)| - 1].speaker != runs[k].speaker)
  }

  lemma LeadingRound(segment: Segment, turns: seq<Turn>, runs: seq<Cut>, k: nat, pieces: seq<Piece>,
                     settled: seq<Piece>)
    returns (next: seq<Piece>)
    requires Ascending(runs, |segment.words|) && Differ(runs) && 0 < k < |runs|
    requires Underway(segment, turns, runs, k, pieces, settled)
    requires |Left(segment, runs, k)| == 1 && !Big(segment, 0, runs[k].first)
    ensures Underway(segment, turns, runs, k + 1, next, settled) && |next| < |pieces|
  {
    LeadingIsTaken(segment, runs, k);
    assert k + 1 < |runs| ==> runs[k].speaker != runs[k + 1].speaker;
    hide Left, Big, Settles, Labelled, NoneEmpty, CutInto, Ascending, Differ, FirstSmallCut;
    next := SettlesStep(segment, turns, Left(segment, runs, k) + runs[k..], pieces, 0, settled);
  }

  lemma BigRound(segment: Segment, turns: seq<Turn>, runs: seq<Cut>, k: nat, pieces: seq<Piece>, settled: seq<Piece>)
    requires Ascending(runs, |segment.words|) && Differ(runs) && 0 < k < |runs|
    requires Underway(segment, turns, runs, k, pieces, settled)
    requires |Left(segment, runs, k)| > 1 || Big(segment, 0, runs[k].first)
    requires BigCut(segment, runs, k, |segment.words|)
    ensures Underway(segment, turns, runs, k + 1, pieces, settled)
  {
    BigIsKept(segment, runs, k);
    assert k + 1 < |runs| ==> runs[k].speaker != runs[k + 1].speaker;
    hide Left, Big, Settles, Labelled, NoneEmpty, CutInto, Ascending, Differ;
  }

  lemma SmallRound(segment: Segment, turns: seq<Turn>, runs: seq<Cut>, k: nat, pieces: seq<Piece>,
                   settled: seq<Piece>)
    returns (after: nat, next: seq<Piece>)
    requires Ascending(runs, |segment.words|) && Differ(runs) && InTime(segment) && 0 < k < |runs|
    requires Underway(segment, turns, runs, k, pieces, settled)
    requires |Left(segment, runs, k)| > 1 || Big(segment, 0, runs[k].first)
    requires !BigCut(segment, runs, k, |segment.words|)
    ensures Underway(segment, turns, runs, after, next, settled) && |next| < |pieces|
  {
    hide Left, Big, BigCut, Settles, Labelled, NoneEmpty, CutInto, Ascending, Differ, FirstSmallCut, InTime;
    after := SmallIsTaken(segment, runs, k);
    next := SettlesStep(segment, turns, Left(segment, runs, k) + runs[k..], pieces, |Left(segment, runs, k)|, settled);
  }

  /** Where the loop stops: the cuts that are left after all runs. */
  lemma {:induction false} SettlesTo(segment: Segment, turns: seq<Turn>, runs: seq<Cut>, k: nat, pieces: seq<Piece>,
                                     settled: seq<Piece>)
    requires Ascending(runs, |segment.words|) && Differ(runs) && InTime(segment) && 0 < k <= |runs|
    requires Underway(segment, turns, runs, k, pieces, settled)
    ensures CutInto(segment.words, Left(segment, runs, |runs|), settled)
    decreases |pieces|, |runs| - k
  {
    if k == |runs| {
      AllLeft(segment, turns, runs, pieces, settled);
    } else {
      assert 0 < runs[k].first < |segment.words|;
      assert Left(segment, runs, k) != [];
      hide *;
      if |Left(segment, runs, k)| == 1 && !Big(segment, 0, runs[k].first) {
        var next := LeadingRound(segment, turns, runs, k, pieces, settled);
        SettlesTo(segment, turns, runs, k + 1, next, settled);
      } else if BigCut(segment, runs, k, |segment.words|) {
        BigRound(segment, turns, runs, k, pieces, settled);
        SettlesTo(segment, turns, runs, k + 1, pieces, settled);
      } else {
        var after, next := SmallRound(segment, turns, runs, k, pieces, settled);
        SettlesTo(segment, turns, runs, after, next, settled);
      }
    }
  }

  lemma AllLeft(segment: Segment, turns: seq<Turn>, runs: seq<Cut>, pieces: seq<Piece>, settled: seq<Piece>)
    requires Ascending(runs, |segment.words|) && runs != [] && InTime(segment)
    requires turns != [] && NoneEmpty(pieces) && Labelled(pieces, turns) && Settles(segment, turns, pieces, settled)
    requires CutInto(segment.words, Left(segment, runs, |runs|) + runs[|runs|..], pieces)
    ensures CutInto(segment.words, Left(segment, runs, |runs|), settled)
  {
    var left := Left(segment, runs, |runs|);
    assert left + runs[|runs|..] == left;
    if |left| > 1 {
      LeftIsBig(segment, runs, |runs|);
      hide Left, Big, IsCut, TooSmall;
      forall i: nat | i < |pieces| ensures !TooSmall(segment, pieces, i) {
        assert BigCut(segment, left, i, |segment.words|);
        SmallIff(segment, left, pieces, i);
      }
    }
  }
}
