/**
  Resolving overlapping diarization turns by a sweep over their boundaries
  (transcriptions/known_speaker.py). The result is the canonical form of one
  pointwise meaning: at every time the turn that started last holds.
 */
module TurnSweep {
  import opened Turns
  import StableSort
  import TextOrder

  // -- Pointwise meaning -------------------------------------------------------

  /** The order in which an active turn takes precedence: by start, then by label. */
  predicate YieldsTo(a: Turn, b: Turn) {
    a.start < b.start || (a.start == b.start && TextOrder.Leq(a.speaker, b.speaker))
  }

  /** At `x` the last-started turn covering it, ties broken by label, is `speaker`'s. */
  ghost predicate Holds(turns: seq<Turn>, x: real, speaker: string) {
    exists turn :: turn in turns && Covers(turn, x) && turn.speaker == speaker &&
      forall other | other in turns && Covers(other, x) ::
        other.start < turn.start || (other.start == turn.start && TextOrder.Leq(other.speaker, speaker))
  }

  /** `pieces` say at every time exactly who holds it among the overlapping `turns`. */
  ghost predicate SameMeaning(pieces: seq<Turn>, turns: seq<Turn>) {
    forall x, speaker :: Speaks(pieces, x, speaker) <==> Holds(turns, x, speaker)
  }

  /** In time order, disjoint, of positive length, no touching pieces of one speaker. */
  ghost predicate Canonical(pieces: seq<Turn>) {
    && Ordered(pieces)
    && forall i, j | 0 <= i < j < |pieces| && j == i + 1 ::
         pieces[i].end == At(pieces[j].start) ==> pieces[i].speaker != pieces[j].speaker
  }

  ghost predicate ResolutionOf(pieces: seq<Turn>, turns: seq<Turn>) {
    Canonical(pieces) && SameMeaning(pieces, turns)
  }

  // -- Sorted boundaries -------------------------------------------------------

  predicate TurnLeq(a: Turn, b: Turn) {
    a.start < b.start || (a.start == b.start &&
      (Before(a.end, b.end) || (a.end == b.end && TextOrder.Leq(a.speaker, b.speaker))))
  }

  lemma TurnLeqIsTotalPreorder()
    ensures StableSort.TotalPreorder(TurnLeq)
  {
    forall a, b ensures TurnLeq(a, b) || TurnLeq(b, a) {
      TextOrder.Total(a.speaker, b.speaker);
    }
    forall a, b, c | TurnLeq(a, b) && TurnLeq(b, c) ensures TurnLeq(a, c) {
      if TextOrder.Leq(a.speaker, b.speaker) && TextOrder.Leq(b.speaker, c.speaker) {
        TextOrder.Transitive(a.speaker, b.speaker, c.speaker);
      }
    }
  }

  ghost predicate Ascending(bounds: seq<Bound>) {
    forall i, j | 0 <= i < j < |bounds| :: Before(bounds[i], bounds[j])
  }

  function InsertBound(b: Bound, s: seq<Bound>): seq<Bound> {
    if s == [] then [b]
    else if b == s[0] then s
    else if Before(b, s[0]) then [b] + s
    else [s[0]] + InsertBound(b, s[1..])
  }

  /** The distinct starts and ends of the turns, ascending. */
  function TurnBounds(turns: seq<Turn>): seq<Bound> {
    if turns == [] then []
    else InsertBound(At(turns[0].start), InsertBound(turns[0].end, TurnBounds(turns[1..])))
  }

  lemma {:induction false} InsertBoundAscending(b: Bound, s: seq<Bound>)
    requires Ascending(s)
    ensures Ascending(InsertBound(b, s))
    ensures forall c :: c in InsertBound(b, s) <==> c == b || c in s
  {
    if s != [] && b != s[0] && !Before(b, s[0]) {
      assert s == [s[0]] + s[1..];
      InsertBoundAscending(b, s[1..]);
      var r := InsertBound(b, s[1..]);
      forall c | c in r ensures Before(s[0], c) {
        if c != b {
          var j :| 0 <= j < |s[1..]| && s[1..][j] == c;
          assert s[j + 1] == c;
        }
      }
    }
  }

  lemma {:induction false} TurnBoundsAscending(turns: seq<Turn>)
    ensures Ascending(TurnBounds(turns))
    ensures forall turn | turn in turns :: At(turn.start) in TurnBounds(turns) && turn.end in TurnBounds(turns)
  {
    if turns != [] {
      var rest := TurnBounds(turns[1..]);
      TurnBoundsAscending(turns[1..]);
      InsertBoundAscending(turns[0].end, rest);
      InsertBoundAscending(At(turns[0].start), InsertBound(turns[0].end, rest));
      assert turns == [turns[0]] + turns[1..];
    }
  }

  /** No boundary lies between two neighbouring ones. */
  lemma BoundSides(bounds: seq<Bound>, k: nat, b: Bound)
    requires Ascending(bounds) && k + 1 < |bounds| && b in bounds
    ensures b == bounds[k] || b == bounds[k + 1] || Before(b, bounds[k]) || Before(bounds[k + 1], b)
  {
    assert forall p | k + 1 < p < |bounds| :: Before(bounds[k + 1], bounds[p]);
    assert forall p | 0 <= p < k :: Before(bounds[p], bounds[k]);
    var p :| 0 <= p < |bounds| && bounds[p] == b;
  }

  /** All boundaries lie between the first and the last. */
  lemma BoundEnds(bounds: seq<Bound>, b: Bound)
    requires Ascending(bounds) && b in bounds
    ensures bounds != [] && !Before(b, bounds[0]) && !Before(bounds[|bounds| - 1], b)
  {
    assert forall p | 0 < p < |bounds| :: Before(bounds[0], bounds[p]);
    assert forall p | 0 <= p < |bounds| - 1 :: Before(bounds[p], bounds[|bounds| - 1]);
    var p :| 0 <= p < |bounds| && bounds[p] == b;
  }

  /** Between two neighbouring boundaries the set of covering turns does not change. */
  lemma ElementaryInterval(turns: seq<Turn>, bounds: seq<Bound>, k: nat, turn: Turn, x: real)
    requires bounds == TurnBounds(turns) && k + 1 < |bounds| && turn in turns
    requires bounds[k].At? && bounds[k].time <= x && Before(At(x), bounds[k + 1])
    ensures Covers(turn, x) <==> turn.start <= bounds[k].time && Before(bounds[k], turn.end)
  {
    TurnBoundsAscending(turns);
    hide TurnBounds, Ascending;
    BoundSides(bounds, k, At(turn.start));
    BoundSides(bounds, k, turn.end);
  }

  /** Outside all boundaries no turn covers the time. */
  lemma OutsideBounds(turns: seq<Turn>, bounds: seq<Bound>, turn: Turn, x: real)
    requires bounds == TurnBounds(turns) && turn in turns && Covers(turn, x)
    ensures bounds != [] && !Before(At(x), bounds[0]) && Before(At(x), bounds[|bounds| - 1])
  {
    TurnBoundsAscending(turns);
    hide TurnBounds, Ascending;
    BoundEnds(bounds, At(turn.start));
    BoundEnds(bounds, turn.end);
  }

  // -- The sweep ---------------------------------------------------------------

  /** The built-in `max` by start and label: the first greatest element. */
  function LastStarted(active: seq<Turn>): (best: Turn)
    requires active != []
    ensures best in active
  {
    if |active| == 1 then active[0]
    else
      var best := LastStarted(active[..|active| - 1]);
      var next := active[|active| - 1];
      if YieldsTo(next, best) then best else next
  }

  lemma YieldsToIsTransitive(a: Turn, b: Turn, c: Turn)
    requires YieldsTo(a, b) && YieldsTo(b, c)
    ensures YieldsTo(a, c)
  {
    if a.start == c.start {
      TextOrder.Transitive(a.speaker, b.speaker, c.speaker);
    }
  }

  lemma {:induction false} LastStartedIsGreatest(active: seq<Turn>)
    requires active != []
    ensures forall turn | turn in active :: YieldsTo(turn, LastStarted(active))
  {
    var last := active[|active| - 1];
    TextOrder.Total(last.speaker, last.speaker);
    if |active| > 1 {
      var init := active[..|active| - 1];
      assert active == init + [last];
      LastStartedIsGreatest(init);
      var best := LastStarted(init);
      TextOrder.Total(last.speaker, best.speaker);
      forall turn | turn in active ensures YieldsTo(turn, LastStarted(active)) {
        if turn in init && !YieldsTo(last, best) {
          YieldsToIsTransitive(turn, best, last);
        }
      }
    }
  }

  /** The turns still running past `left`. */
  function Running(active: seq<Turn>, left: Bound): seq<Turn> {
    StableSort.Filter(active, (turn: Turn) => Before(left, turn.end))
  }

  /** Adds the piece from `left` to `right`, joined with a touching piece of its speaker. */
  function AddPiece(resolved: seq<Turn>, left: real, right: Bound, speaker: string): seq<Turn> {
    var n := |resolved|;
    if n > 0 && resolved[n - 1].speaker == speaker && resolved[n - 1].end == At(left) then
      resolved[..n - 1] + [Turn(resolved[n - 1].start, right, speaker)]
    else
      resolved + [Turn(left, right, speaker)]
  }

  lemma AppendPiece(resolved: seq<Turn>, piece: Turn)
    requires Canonical(resolved) && Positive(piece)
    requires forall other | other in resolved :: !Before(At(piece.start), other.end)
    requires resolved != [] ==>
        (resolved[|resolved| - 1].end == At(piece.start) ==> resolved[|resolved| - 1].speaker != piece.speaker)
    ensures Canonical(resolved + [piece])
    ensures forall x, s :: Speaks(resolved + [piece], x, s) <==>
        Speaks(resolved, x, s) || (Covers(piece, x) && s == piece.speaker)
  {
    assert piece in resolved + [piece];
    forall i | 0 <= i < |resolved| ensures !Before(At(piece.start), resolved[i].end) {
      assert resolved[i] in resolved;
    }
  }

  lemma AddPieceExtends(resolved: seq<Turn>, left: real, right: Bound, speaker: string)
    requires Canonical(resolved) && Before(At(left), right)
    requires forall piece | piece in resolved :: !Before(At(left), piece.end)
    ensures Canonical(AddPiece(resolved, left, right, speaker))
    ensures forall piece | piece in AddPiece(resolved, left, right, speaker) :: !Before(right, piece.end)
    ensures forall x, s :: Speaks(AddPiece(resolved, left, right, speaker), x, s) <==>
                           Speaks(resolved, x, s) || (left <= x && Before(At(x), right) && s == speaker)
  {
    var n := |resolved|;
    if n > 0 && resolved[n - 1].speaker == speaker && resolved[n - 1].end == At(left) {
      var last := resolved[n - 1];
      assert last in resolved && Positive(last);
      if n > 1 {
        assert resolved[n - 2].end == At(resolved[n - 1].start) ==> resolved[n - 2].speaker != resolved[n - 1].speaker;
      }
      AppendPiece(resolved[..n - 1], Turn(last.start, right, speaker));
    } else {
      AppendPiece(resolved, Turn(left, right, speaker));
    }
  }

  /** What the sweep knows when it has resolved all times before `bounds[k]`. */
  ghost predicate SweptTo(turns: seq<Turn>, resolved: seq<Turn>, at: Bound) {
    && Canonical(resolved)
    && (forall piece | piece in resolved :: !Before(at, piece.end))
    && forall x, s | Before(At(x), at) :: Speaks(resolved, x, s) <==> Holds(turns, x, s)
  }

  lemma SweepStep(turns: seq<Turn>, bounds: seq<Bound>, k: nat, active: seq<Turn>, resolved: seq<Turn>)
    requires bounds == TurnBounds(turns) && k + 1 < |bounds| && bounds[k].At?
    requires SweptTo(turns, resolved, bounds[k])
    requires forall turn :: turn in active <==>
               turn in turns && turn.start <= bounds[k].time && Before(bounds[k], turn.end)
    ensures SweptTo(turns,
              if active == [] then resolved
              else AddPiece(resolved, bounds[k].time, bounds[k + 1], LastStarted(active).speaker),
              bounds[k + 1])
  {
    var left, right := bounds[k].time, bounds[k + 1];
    TurnBoundsAscending(turns);
    var r := if active == [] then resolved else AddPiece(resolved, left, right, LastStarted(active).speaker);
    if active != [] {
      AddPieceExtends(resolved, left, right, LastStarted(active).speaker);
    }
    forall x, s | Before(At(x), right)
      ensures Speaks(r, x, s) <==> Holds(turns, x, s)
    {
      if left <= x {
        forall turn | turn in turns ensures Covers(turn, x) <==> turn in active {
          ElementaryInterval(turns, bounds, k, turn, x);
        }
        HolderOfCoveringSet(turns, active, x, s);
        assert !Speaks(resolved, x, s);
      }
    }
  }

  lemma HolderOfCoveringSet(turns: seq<Turn>, active: seq<Turn>, x: real, s: string)
    requires forall turn :: turn in active ==> turn in turns
    requires forall turn | turn in turns :: Covers(turn, x) <==> turn in active
    ensures Holds(turns, x, s) <==> active != [] && LastStarted(active).speaker == s
  {
    if active != [] {
      LastStartedIsGreatest(active);
      var best := LastStarted(active);
      if Holds(turns, x, s) {
        var turn :| turn in turns && Covers(turn, x) && turn.speaker == s &&
          forall other | other in turns && Covers(other, x) :: YieldsTo(other, turn);
        assert YieldsTo(best, turn) && YieldsTo(turn, best);
        TextOrder.Antisymmetric(turn.speaker, best.speaker);
      }
    }
  }

  lemma SweepStart(turns: seq<Turn>)
    ensures TurnBounds(turns) != [] ==>
              SweptTo(turns, [], TurnBounds(turns)[0]) &&
              ActiveUpTo(turns, StableSort.Sort(turns, TurnLeq), 0, [], TurnBounds(turns)[0])
  {
    forall turn, x | turn in turns && Covers(turn, x) ensures !Before(At(x), TurnBounds(turns)[0]) {
      OutsideBounds(turns, TurnBounds(turns), turn, x);
    }
  }

  lemma SweepEnd(turns: seq<Turn>, bounds: seq<Bound>, resolved: seq<Turn>)
    requires bounds == TurnBounds(turns)
    requires if bounds == [] then resolved == [] else SweptTo(turns, resolved, bounds[|bounds| - 1])
    ensures ResolutionOf(resolved, turns)
  {
    forall turn, x | turn in turns && Covers(turn, x)
      ensures bounds != [] && Before(At(x), bounds[|bounds| - 1])
    {
      OutsideBounds(turns, bounds, turn, x);
    }
    forall x, s ensures Speaks(resolved, x, s) <==> Holds(turns, x, s) {
      if bounds != [] && !Before(At(x), bounds[|bounds| - 1]) {
        assert !Holds(turns, x, s);
        assert !Speaks(resolved, x, s);
      }
    }
  }

  /**
    `active` holds every turn among the first `position` that still runs past
    `left`, and only turns that started by then.
   */
  ghost predicate ActiveUpTo(turns: seq<Turn>, ordered: seq<Turn>, position: nat, active: seq<Turn>, left: Bound) {
    && position <= |ordered|
    && (forall turn | turn in active :: turn in turns && !Before(left, At(turn.start)))
    && (forall i | 0 <= i < position :: !Before(left, At(ordered[i].start)))
    && (forall i | 0 <= i < position :: ordered[i] in active || !Before(left, ordered[i].end))
  }

  lemma ActiveLater(turns: seq<Turn>, ordered: seq<Turn>, position: nat, active: seq<Turn>, left: Bound, right: Bound)
    requires ActiveUpTo(turns, ordered, position, active, left) && Before(left, right)
    ensures ActiveUpTo(turns, ordered, position, active, right)
  {
  }

  lemma ActiveAdmit(turns: seq<Turn>, ordered: seq<Turn>, position: nat, active: seq<Turn>, left: Bound)
    requires ActiveUpTo(turns, ordered, position, active, left) && position < |ordered|
    requires ordered == StableSort.Sort(turns, TurnLeq) && left.At? && ordered[position].start <= left.time
    ensures ActiveUpTo(turns, ordered, position + 1, active + [ordered[position]], left)
  {
    StableSort.SortMembers(turns, TurnLeq);
    assert ordered[position] in ordered;
  }

  lemma ActiveIsRunning(turns: seq<Turn>, ordered: seq<Turn>, position: nat, active: seq<Turn>, left: Bound)
    requires ActiveUpTo(turns, ordered, position, active, left)
    requires ordered == StableSort.Sort(turns, TurnLeq) && left.At?
    requires position < |ordered| ==> left.time < ordered[position].start
    ensures forall turn :: turn in Running(active, left) <==>
              turn in turns && turn.start <= left.time && Before(left, turn.end)
    ensures ActiveUpTo(turns, ordered, position, Running(active, left), left)
  {
    TurnLeqIsTotalPreorder();
    StableSort.SortSorted(turns, TurnLeq);
    StableSort.SortMembers(turns, TurnLeq);
    StableSort.FilterMembers(active, (turn: Turn) => Before(left, turn.end));
    forall turn | turn in turns && turn.start <= left.time && Before(left, turn.end)
      ensures turn in active
    {
      assert forall i | position < i < |ordered| :: TurnLeq(ordered[position], ordered[i]);
      var i :| 0 <= i < |ordered| && ordered[i] == turn;
    }
  }

  /** One elementary interval: `active` as left by admitting the turns that started. */
  lemma SweepInterval(turns: seq<Turn>, k: nat, position: nat, active: seq<Turn>, resolved: seq<Turn>)
    requires k + 1 < |TurnBounds(turns)|
    requires var ordered, left := StableSort.Sort(turns, TurnLeq), TurnBounds(turns)[k];
             ActiveUpTo(turns, ordered, position, active, left) && left.At? &&
             (position < |ordered| ==> left.time < ordered[position].start)
    requires SweptTo(turns, resolved, TurnBounds(turns)[k])
    ensures var bounds := TurnBounds(turns);
            var running := Running(active, bounds[k]);
            && ActiveUpTo(turns, StableSort.Sort(turns, TurnLeq), position, running, bounds[k + 1])
            && SweptTo(turns,
                 if running == [] then resolved
                 else AddPiece(resolved, bounds[k].time, bounds[k + 1], LastStarted(running).speaker),
                 bounds[k + 1])
  {
    var ordered, bounds := StableSort.Sort(turns, TurnLeq), TurnBounds(turns);
    TurnBoundsAscending(turns);
    ActiveIsRunning(turns, ordered, position, active, bounds[k]);
    SweepStep(turns, bounds, k, Running(active, bounds[k]), resolved);
    ActiveLater(turns, ordered, position, Running(active, bounds[k]), bounds[k], bounds[k + 1]);
  }

  lemma BoundsButTheLastAreTimes(turns: seq<Turn>, k: nat)
    requires k + 1 < |TurnBounds(turns)|
    ensures TurnBounds(turns)[k].At?
  {
    TurnBoundsAscending(turns);
    assert Before(TurnBounds(turns)[k], TurnBounds(turns)[k + 1]);
  }

  method ResolveOverlappingTurns(turns: seq<Turn>) returns (resolved: seq<Turn>)
    ensures ResolutionOf(resolved, turns)
  {
    hide *;
    var ordered := StableSort.Sort(turns, TurnLeq);
    var bounds := TurnBounds(turns);
    SweepStart(turns);
    resolved := [];
    var active: seq<Turn> := [];
    var position := 0;
    var k := 0;
    while k + 1 < |bounds|
      invariant k < |bounds| || k == 0 == |bounds|
      invariant if bounds == [] then resolved == [] else SweptTo(turns, resolved, bounds[k])
      invariant bounds != [] ==> ActiveUpTo(turns, ordered, position, active, bounds[k])
    {
      BoundsButTheLastAreTimes(turns, k);
      var left, right := bounds[k], bounds[k + 1];
      while position < |ordered| && ordered[position].start <= left.time
        invariant ActiveUpTo(turns, ordered, position, active, left)
      {
        ActiveAdmit(turns, ordered, position, active, left);
        active := active + [ordered[position]];
        position := position + 1;
      }
      SweepInterval(turns, k, position, active, resolved);
      active := Running(active, left);
      if active != [] {
        resolved := AddPiece(resolved, left.time, right, LastStarted(active).speaker);
      }
      k := k + 1;
    }
    SweepEnd(turns, bounds, resolved);
  }

  // -- Canonical forms are unique -----------------------------------------------

  lemma CanonicalTail(pieces: seq<Turn>)
    requires Canonical(pieces) && pieces != []
    ensures Canonical(pieces[1..])
    ensures forall x, s :: Speaks(pieces[1..], x, s) <==> Speaks(pieces, x, s) && !Before(At(x), pieces[0].end)
  {
    var tail := pieces[1..];
    assert pieces == [pieces[0]] + tail;
    forall i, j | 0 <= i < j < |tail| ensures !Before(At(tail[j].start), tail[i].end) {
      assert !Before(At(pieces[j + 1].start), pieces[i + 1].end);
    }
    forall i | 0 <= i < |tail| ensures Positive(tail[i]) {
      assert Positive(pieces[i + 1]);
    }
    forall i, j | 0 <= i < j < |tail| && j == i + 1
      ensures tail[i].end == At(tail[j].start) ==> tail[i].speaker != tail[j].speaker
    {
      assert pieces[i + 1].end == At(pieces[j + 1].start) ==> pieces[i + 1].speaker != pieces[j + 1].speaker;
    }
    forall piece | piece in tail ensures !Before(At(piece.start), pieces[0].end) {
      var j :| 0 <= j < |tail| && tail[j] == piece;
      assert pieces[j + 1] == piece;
    }
  }

  /** A canonical list says its first speaker exactly up to its first end. */
  lemma FirstEnd(pieces: seq<Turn>, x: real)
    requires Canonical(pieces) && pieces != [] && pieces[0].start <= x
    ensures Before(At(x), pieces[0].end) ==> forall s :: Speaks(pieces, x, s) <==> s == pieces[0].speaker
    ensures At(x) == pieces[0].end ==> !Speaks(pieces, x, pieces[0].speaker)
  {
    var first := pieces[0];
    assert first in pieces;
    forall s ensures Before(At(x), first.end) ==> (Speaks(pieces, x, s) <==> s == first.speaker) {
      if Before(At(x), first.end) && Speaks(pieces, x, s) {
        var piece :| piece in pieces && Covers(piece, x) && piece.speaker == s;
      }
    }
    if At(x) == first.end {
      assert |pieces| > 1 ==> Positive(pieces[1]) && !Before(At(pieces[1].start), first.end);
      assert |pieces| > 1 && first.end == At(pieces[1].start) ==> first.speaker != pieces[1].speaker;
      assert forall j | 1 < j < |pieces| :: !Before(At(pieces[j].start), pieces[1].end);
      forall piece | piece in pieces && Covers(piece, x) ensures piece.speaker != first.speaker {
        var j :| 0 <= j < |pieces| && pieces[j] == piece;
      }
    }
  }

  lemma SameFirstPiece(a: seq<Turn>, b: seq<Turn>)
    requires Canonical(a) && Canonical(b) && a != [] && b != []
    requires forall x, s :: Speaks(a, x, s) <==> Speaks(b, x, s)
    ensures a[0] == b[0]
  {
    assert a[0] in a && b[0] in b && Positive(a[0]) && Positive(b[0]);
    assert Speaks(a, a[0].start, a[0].speaker) && Speaks(b, b[0].start, b[0].speaker);
    FirstEnd(b, a[0].start);
    if Before(a[0].end, b[0].end) {
      FirstEnd(a, a[0].end.time);
    }
    if Before(b[0].end, a[0].end) {
      FirstEnd(b, b[0].end.time);
    }
  }

  /** Two canonical lists with the same pointwise meaning are the same list. */
  lemma {:induction false} CanonicalIsUnique(a: seq<Turn>, b: seq<Turn>)
    requires Canonical(a) && Canonical(b)
    requires forall x, s :: Speaks(a, x, s) <==> Speaks(b, x, s)
    ensures a == b
  {
    if a != [] && b != [] {
      SameFirstPiece(a, b);
      CanonicalTail(a);
      CanonicalTail(b);
      CanonicalIsUnique(a[1..], b[1..]);
      assert a == [a[0]] + a[1..] && b == [b[0]] + b[1..];
    } else if a != [] {
      SomeoneSpeaks(a);
    } else if b != [] {
      SomeoneSpeaks(b);
    }
  }

  lemma SomeoneSpeaks(pieces: seq<Turn>)
    requires Canonical(pieces) && pieces != []
    ensures Speaks(pieces, pieces[0].start, pieces[0].speaker)
  {
    assert pieces[0] in pieces && Positive(pieces[0]);
  }

  /** The sweep does not depend on the order in which the turns are given. */
  lemma SweepIgnoresOrder(turns: seq<Turn>, permuted: seq<Turn>, r: seq<Turn>, p: seq<Turn>)
    requires multiset(turns) == multiset(permuted)
    requires ResolutionOf(r, turns) && ResolutionOf(p, permuted)
    ensures r == p
  {
    StableSort.SameMembers(turns, permuted);
    forall x, s ensures Holds(turns, x, s) <==> Holds(permuted, x, s) {
    }
    CanonicalIsUnique(r, p);
  }

  /** Sweeping a swept list again changes nothing. */
  lemma SweepIsIdempotent(turns: seq<Turn>, once: seq<Turn>, twice: seq<Turn>)
    requires ResolutionOf(once, turns) && ResolutionOf(twice, once)
    ensures twice == once
  {
    forall x, s ensures Speaks(once, x, s) <==> Holds(once, x, s) {
      if Speaks(once, x, s) {
        var piece :| piece in once && Covers(piece, x) && piece.speaker == s;
        forall other | other in once && Covers(other, x) ensures YieldsTo(other, piece) {
          TextOrder.Total(piece.speaker, piece.speaker);
        }
      }
    }
    CanonicalIsUnique(once, twice);
  }
}
