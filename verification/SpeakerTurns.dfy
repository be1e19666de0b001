/**
  Diarization turns brought into normal form (transcriptions/diarization.py): sorted,
  clamped to the file, unusable ones dropped, and speakers numbered as they appear.
 */
module SpeakerTurns {
  import opened Turns
  import Decimal
  import PlainText
  import StableSort
  import TextOrder

  datatype RawTurn = RawTurn(start: real, end: real, speaker: string)

  predicate Earlier(a: RawTurn, b: RawTurn) {
    || a.start < b.start
    || (a.start == b.start && (a.end < b.end || (a.end == b.end && TextOrder.Leq(a.speaker, b.speaker))))
  }

  function Label(turn: RawTurn): string { PlainText.Strip(turn.speaker) }

  function Clamp(x: real): real { if x < 0.0 then 0.0 else x }

  /** The turn has a label and some length within the file. */
  predicate Usable(turn: RawTurn) { Label(turn) != "" && Clamp(turn.start) < Clamp(turn.end) }

  function Name(n: nat): string { "Speaker " + Decimal.Print(n) }

  // -- Specification --------------------------------------------------------------------------

  function UsableTurns(raw: seq<RawTurn>): seq<RawTurn> { StableSort.Filter(StableSort.Sort(raw, Earlier), Usable) }

  function Labels(turns: seq<RawTurn>): (labels: seq<string>)
    ensures |labels| == |turns|
  {
    if turns == [] then [] else Labels(turns[..|turns| - 1]) + [Label(turns[|turns| - 1])]
  }

  /** The elements in the order in which they first appear. */
  function FirstSeen<T(==)>(xs: seq<T>): (firsts: seq<T>)
    ensures forall x | x in xs :: x in firsts
  {
    if xs == [] then []
    else
      var before, last := FirstSeen(xs[..|xs| - 1]), xs[|xs| - 1];
      if last in before then before else before + [last]
  }

  function Position<T(==)>(xs: seq<T>, x: T): (i: nat)
    requires x in xs
    ensures i < |xs| && xs[i] == x
  {
    if xs[0] == x then 0 else 1 + Position(xs[1..], x)
  }

  function Numbered(turn: RawTurn, n: nat): Turn { Turn(Clamp(turn.start), At(Clamp(turn.end)), Name(n)) }

  /** The number of the last turn's label. */
  function LastNumber<T(==)>(labels: seq<T>): nat
    requires labels != []
  {
    assert labels[|labels| - 1] in labels;
    Position(FirstSeen(labels), labels[|labels| - 1]) + 1
  }

  function NormalTurns(usable: seq<RawTurn>): (turns: seq<Turn>)
    ensures |turns| == |usable|
  {
    if usable == [] then []
    else NormalTurns(usable[..|usable| - 1]) + [Numbered(usable[|usable| - 1], LastNumber(Labels(usable)))]
  }

  /** The number of a label by its first appearance. */
  function Number(usable: seq<RawTurn>, tag: string): nat
    requires tag in FirstSeen(Labels(usable))
  {
    Position(FirstSeen(Labels(usable)), tag) + 1
  }

  // -- The loop ----------------------------------------------------------------------------------

  /** The dictionary of labels is the list of first appearances. */
  ghost predicate Names<T(!new)>(names: map<T, string>, labels: seq<T>) {
    && |names| == |labels|
    && (forall x :: x in names <==> x in labels)
    && (forall x | x in labels :: names[x] == Name(Position(labels, x) + 1))
  }

  lemma {:induction false} PositionStays<T>(labels: seq<T>, more: T, x: T)
    requires x in labels
    ensures Position(labels + [more], x) == Position(labels, x)
  {
    if labels[0] != x {
      PositionStays(labels[1..], more, x);
      assert (labels + [more])[1..] == labels[1..] + [more];
    }
  }

  lemma {:induction false} PositionOfNew<T>(labels: seq<T>, x: T)
    requires x !in labels
    ensures Position(labels + [x], x) == |labels|
  {
    if labels != [] {
      PositionOfNew(labels[1..], x);
      assert (labels + [x])[1..] == labels[1..] + [x];
    }
  }

  lemma NewName<T(!new)>(names: map<T, string>, labels: seq<T>, x: T)
    requires Names(names, labels) && x !in labels
    ensures Names(names[x := Name(|names| + 1)], labels + [x])
  {
    PositionOfNew(labels, x);
    forall l | l in labels ensures Position(labels + [x], l) == Position(labels, l) {
      PositionStays(labels, x, l);
    }
    assert (names[x := Name(|names| + 1)]).Keys == names.Keys + {x};
  }

  lemma FilterOneMore(turns: seq<RawTurn>, turn: RawTurn)
    ensures StableSort.Filter(turns + [turn], Usable) == StableSort.Filter(turns, Usable) + if Usable(turn)
        then [turn] else []
  {
    StableSort.FilterAppend(turns, [turn], Usable);
  }

  /** What the loop has made of the first `i` turns. */
  ghost predicate NormalUpTo(sorted: seq<RawTurn>, i: nat, names: map<string, string>, turns: seq<Turn>)
    requires i <= |sorted|
  {
    Names(names, FirstSeen(Labels(UsableUpTo(sorted, i)))) && turns == NormalTurns(UsableUpTo(sorted, i))
  }

  function UsableUpTo(sorted: seq<RawTurn>, i: nat): seq<RawTurn>
    requires i <= |sorted|
  {
    StableSort.Filter(sorted[..i], Usable)
  }

  method NormalizeSpeakerTurns(raw: seq<RawTurn>) returns (turns: seq<Turn>)
    ensures turns == NormalTurns(UsableTurns(raw))
  {
    var names: map<string, string> := map[];
    turns := [];
    var sorted := StableSort.Sort(raw, Earlier);
    AllOrNothing(raw, sorted);
    hide *;
    for i := 0 to |sorted|
      invariant NormalUpTo(sorted, i, names, turns)
    {
      var turn := sorted[i];
      NextTurn(sorted, i, names, turns);
      var tag := PlainText.Strip(turn.speaker);
      if tag == "" {
        continue;
      }
      var start, end := Clamp(turn.start), Clamp(turn.end);
      if end <= start {
        continue;
      }
      names := Remember(names, FirstSeen(Labels(UsableUpTo(sorted, i))), tag);
      TurnTaken(sorted, i, names, turns);
      turns := turns + [Turn(start, At(end), names[tag])];
    }
  }

  lemma AllOrNothing(raw: seq<RawTurn>, sorted: seq<RawTurn>)
    requires sorted == StableSort.Sort(raw, Earlier)
    ensures NormalUpTo(sorted, 0, map[], [])
    ensures forall names, turns :: NormalUpTo(sorted, |sorted|, names, turns) ==> turns == NormalTurns(UsableTurns(raw))
  {
    assert sorted[..|sorted|] == sorted;
  }

  lemma OneUsableMore(sorted: seq<RawTurn>, i: nat)
    requires i < |sorted|
    ensures UsableUpTo(sorted, i + 1) == if Usable(sorted[i]) then UsableUpTo(sorted, i) + [sorted[i]]
        else UsableUpTo(sorted, i)
  {
    assert sorted[..i + 1] == sorted[..i] + [sorted[i]];
    FilterOneMore(sorted[..i], sorted[i]);
    hide StableSort.Filter;
  }

  /** A turn that is not usable changes nothing; one that is needs its name. */
  lemma NextTurn(sorted: seq<RawTurn>, i: nat, names: map<string, string>, turns: seq<Turn>)
    requires i < |sorted| && NormalUpTo(sorted, i, names, turns)
    ensures !Usable(sorted[i]) ==> NormalUpTo(sorted, i + 1, names, turns)
    ensures Names(names, FirstSeen(Labels(UsableUpTo(sorted, i))))
  {
    OneUsableMore(sorted, i);
    hide UsableUpTo, Names, NormalTurns, FirstSeen, Labels, Usable;
  }

  lemma TurnTaken(sorted: seq<RawTurn>, i: nat, names: map<string, string>, turns: seq<Turn>)
    requires i < |sorted| && Usable(sorted[i]) && turns == NormalTurns(UsableUpTo(sorted, i))
    requires var labels, tag := FirstSeen(Labels(UsableUpTo(sorted, i))), Label(sorted[i]);
             Names(names, if tag in labels then labels else labels + [tag]) && tag in names
    ensures NormalUpTo(sorted, i + 1, names,
        turns + [Turn(Clamp(sorted[i].start), At(Clamp(sorted[i].end)), names[Label(sorted[i])])])
  {
    OneUsableMore(sorted, i);
    hide UsableUpTo, NormalTurns, FirstSeen, Labels, Usable, Label, Position, Name;
  }

  /** A label that is new gets the next number. */
  method Remember(names: map<string, string>, ghost labels: seq<string>, tag: string) returns (more: map<string,
      string>)
    requires Names(names, labels)
    ensures Names(more, if tag in labels then labels else labels + [tag])
    ensures tag in more && more[tag] == Name(Position(if tag in labels then labels else labels + [tag], tag) + 1)
  {
    more := names;
    if tag !in names {
      NewName(names, labels, tag);
      more := names[tag := Name(|names| + 1)];
    }
  }

  // -- What the normal form gives --------------------------------------------------------------------

  lemma {:induction false} PositionInPrefix<T>(prefix: seq<T>, xs: seq<T>, x: T)
    requires prefix <= xs && x in prefix
    ensures Position(prefix, x) == Position(xs, x)
  {
    if prefix[0] != x {
      PositionInPrefix(prefix[1..], xs[1..], x);
    }
  }

  lemma NumberStays(usable: seq<RawTurn>, turn: RawTurn, tag: string)
    requires tag in FirstSeen(Labels(usable))
    ensures tag in FirstSeen(Labels(usable + [turn])) && Number(usable + [turn], tag) == Number(usable, tag)
  {
    PositionInPrefix(FirstSeen(Labels(usable)), FirstSeen(Labels(usable + [turn])), tag);
    hide FirstSeen, Labels, Position;
  }

  /** Turn by turn: clamped times, and the number of the label in the whole list. */
  lemma {:induction false} NormalTurnAt(usable: seq<RawTurn>, i: nat)
    requires i < |usable|
    ensures Label(usable[i]) in FirstSeen(Labels(usable))
    ensures NormalTurns(usable)[i] == Numbered(usable[i], Number(usable, Label(usable[i])))
  {
    var init, last := usable[..|usable| - 1], usable[|usable| - 1];
    assert usable == init + [last];
    hide *;
    if i < |init| {
      NormalTurnAt(init, i);
      NumberStays(init, last, Label(usable[i]));
    }
  }

  lemma NamesAreDistinct(a: nat, b: nat)
    requires Name(a) == Name(b)
    ensures a == b
  {
    Decimal.ReadOfPrint(a);
    Decimal.ReadOfPrint(b);
    assert Name(a)[8..] == Decimal.Print(a) && Name(b)[8..] == Decimal.Print(b);
  }

  lemma SameNumber(usable: seq<RawTurn>, x: string, y: string)
    requires x in FirstSeen(Labels(usable)) && y in FirstSeen(Labels(usable))
    ensures Number(usable, x) == Number(usable, y) <==> x == y
  {
    hide FirstSeen, Labels;
  }

  /** Turns carry the same name exactly when they had the same label. */
  lemma SameNameIffSameLabel(usable: seq<RawTurn>, i: nat, j: nat)
    requires i < |usable| && j < |usable|
    ensures NormalTurns(usable)[i].speaker == NormalTurns(usable)[j].speaker <==> Label(usable[i]) == Label(usable[j])
  {
    hide *;
    NormalTurnAt(usable, i);
    NormalTurnAt(usable, j);
    SameNumber(usable, Label(usable[i]), Label(usable[j]));
    NumberedDiffers(usable[i], usable[j], Number(usable, Label(usable[i])), Number(usable, Label(usable[j])));
  }

  lemma NumberedDiffers(a: RawTurn, b: RawTurn, m: nat, n: nat)
    ensures Numbered(a, m).speaker == Numbered(b, n).speaker <==> m == n
  {
    if Name(m) == Name(n) {
      NamesAreDistinct(m, n);
    }
  }

  lemma EarlierIsTotalPreorder()
    ensures StableSort.TotalPreorder(Earlier)
  {
    forall a: RawTurn, b: RawTurn ensures Earlier(a, b) || Earlier(b, a) {
      TextOrder.Total(a.speaker, b.speaker);
    }
    forall a: RawTurn, b: RawTurn, c: RawTurn | Earlier(a, b) && Earlier(b, c) ensures Earlier(a, c) {
      if TextOrder.Leq(a.speaker, b.speaker) && TextOrder.Leq(b.speaker, c.speaker) {
        TextOrder.Transitive(a.speaker, b.speaker, c.speaker);
      }
    }
  }

  lemma UsableAreSorted(raw: seq<RawTurn>)
    ensures forall i, j | 0 <= i < j < |UsableTurns(raw)| :: UsableTurns(raw)[i].start <= UsableTurns(raw)[j].start
    ensures forall turn | turn in UsableTurns(raw) :: Usable(turn) && turn in raw
    ensures forall turn | turn in raw && Usable(turn) :: turn in UsableTurns(raw)
  {
    EarlierIsTotalPreorder();
    var sorted, usable := StableSort.Sort(raw, Earlier), UsableTurns(raw);
    StableSort.FilterSort(raw, Earlier, Usable);
    StableSort.SortSorted(StableSort.Filter(raw, Usable), Earlier);
    StableSort.FilterMembers(sorted, Usable);
    StableSort.SortMembers(raw, Earlier);
    hide StableSort.Sort, StableSort.Filter, Usable;
    assert StableSort.Sorted(usable, Earlier);
    forall i, j | 0 <= i < j < |usable| ensures usable[i].start <= usable[j].start {
      assert Earlier(usable[i], usable[j]);
    }
  }

  /** Normal turns start at 0 or later, have some length and stand in the order of their starts. */
  lemma NormalTurnsAreUsable(raw: seq<RawTurn>)
    ensures var turns := NormalTurns(UsableTurns(raw));
            && (forall i | 0 <= i < |turns| :: turns[i].start >= 0.0 && Positive(turns[i]))
            && forall i, j | 0 <= i < j < |turns| :: turns[i].start <= turns[j].start
  {
    var usable := UsableTurns(raw);
    var turns := NormalTurns(usable);
    UsableAreSorted(raw);
    hide UsableTurns, NormalTurns;
    forall i | 0 <= i < |turns|
      ensures turns[i].start == Clamp(usable[i].start) && turns[i].start >= 0.0 && Positive(turns[i])
    {
      assert usable[i] in usable;
      NormalTurnAt(usable, i);
    }
  }

  // -- On the columns ---------------------------------------------------------------------------

  lemma {:induction false} FilterCounts(turns: seq<RawTurn>, turn: RawTurn)
    ensures multiset(StableSort.Filter(turns, Usable))[turn] == if Usable(turn) then multiset(turns)[turn] else 0
  {
    if turns != [] {
      hide Usable;
      FilterCounts(turns[1..], turn);
      assert turns == [turns[0]] + turns[1..];
    }
  }

  lemma UsableCounts(raw: seq<RawTurn>, turn: RawTurn)
    ensures multiset(UsableTurns(raw))[turn] == if Usable(turn) then multiset(raw)[turn] else 0
  {
    EarlierIsTotalPreorder();
    StableSort.FilterSort(raw, Earlier, Usable);
    StableSort.SortPermutes(StableSort.Filter(raw, Usable), Earlier);
    FilterCounts(raw, turn);
  }

  lemma UsableAreInOrder(raw: seq<RawTurn>)
    ensures StableSort.Sorted(UsableTurns(raw), Earlier)
  {
    EarlierIsTotalPreorder();
    StableSort.FilterSort(raw, Earlier, Usable);
    StableSort.SortSorted(StableSort.Filter(raw, Usable), Earlier);
  }

  /**
    The turns with a label that end after 0 and after their start are there, each as often, by
    start, end and label.
   */
  lemma {:induction false} UsableOnColumns(raw: seq<RawTurn>)
    ensures forall turn: RawTurn :: multiset(UsableTurns(raw))[turn] ==
              if PlainText.Strip(turn.speaker) != "" && turn.end > 0.0 &&
                turn.end > turn.start then multiset(raw)[turn] else 0
    ensures forall i, j | 0 <= i < j < |UsableTurns(raw)| ::
              var a, b := UsableTurns(raw)[i], UsableTurns(raw)[j];
              a.start < b.start || (a.start == b.start &&
                (a.end < b.end || (a.end == b.end && TextOrder.Leq(a.speaker, b.speaker))))
  {
    forall turn: RawTurn ensures multiset(UsableTurns(raw))[turn] == if Usable(turn) then multiset(raw)[turn] else 0 {
      UsableCounts(raw, turn);
    }
    hide StableSort.Sort, StableSort.Filter, PlainText.Strip, TextOrder.Leq, UsableTurns;
    UsableAreInOrder(raw);
  }

  /** The times of a normal turn are those of the usable one, from 0. */
  lemma {:induction false} TimesOnColumns(usable: seq<RawTurn>, i: nat)
    requires i < |usable| && usable[i].end > 0.0
    ensures NormalTurns(usable)[i].start == (if usable[i].start > 0.0 then usable[i].start else 0.0)
    ensures NormalTurns(usable)[i].end == At(usable[i].end)
  {
    NormalTurnAt(usable, i);
    hide NormalTurns, FirstSeen, Labels, Label;
  }

  lemma {:induction false} LabelsAt(usable: seq<RawTurn>, i: nat)
    requires i < |usable|
    ensures Labels(usable)[i] == PlainText.Strip(usable[i].speaker) && Labels(usable[..i]) == Labels(usable)[..i]
  {
    var n := |usable| - 1;
    if i < n {
      LabelsAt(usable[..n], i);
      assert usable[..n][..i] == usable[..i];
    }
  }

  lemma {:induction false} FirstsAreApart(xs: seq<string>)
    ensures |FirstSeen(xs)| == |set x | x in xs|
    ensures (set x | x in FirstSeen(xs)) == (set x | x in xs)
    ensures forall x :: x in FirstSeen(xs) <==> x in xs
  {
    if xs != [] {
      var init, last := xs[..|xs| - 1], xs[|xs| - 1];
      FirstsAreApart(init);
      assert xs == init + [last];
      assert (set x | x in xs) == (set x | x in init) + {last};
      assert last in FirstSeen(init) <==> last in (set x | x in FirstSeen(init));
    }
  }

  lemma {:induction false} FirstsGrow(xs: seq<string>, k: nat)
    requires k <= |xs|
    ensures FirstSeen(xs[..k]) <= FirstSeen(xs)
  {
    if k == |xs| {
      assert xs[..k] == xs;
    } else {
      FirstsGrow(xs[..|xs| - 1], k);
      assert xs[..|xs| - 1][..k] == xs[..k];
    }
  }

  /** A label that is new has as many before it as there are other ones. */
  lemma {:induction false} NewLabelIsNext(labels: seq<string>, first: nat)
    requires first < |labels| && labels[first] !in labels[..first]
    ensures labels[first] in FirstSeen(labels)
    ensures Position(FirstSeen(labels), labels[first]) == |set x | x in labels[..first]|
  {
    var tag, before := labels[first], FirstSeen(labels[..first]);
    assert labels[..first + 1][..first] == labels[..first];
    assert FirstSeen(labels[..first + 1]) == before + [tag] by {
      FirstsAreApart(labels[..first]);
    }
    FirstsAreApart(labels[..first]);
    FirstsGrow(labels, first + 1);
    hide FirstSeen, Position;
    PositionOfNew(before, tag);
    PositionInPrefix(before + [tag], FirstSeen(labels), tag);
  }

  lemma {:induction false} LabelsBefore(usable: seq<RawTurn>, i: nat, first: nat)
    requires first <= i < |usable|
    ensures forall j | 0 <= j <= first :: Labels(usable)[j] == PlainText.Strip(usable[j].speaker)
    ensures (set x | x in Labels(usable)[..first]) == set j | 0 <= j < first :: PlainText.Strip(usable[j].speaker)
  {
    var labels := Labels(usable);
    forall j | 0 <= j <= first ensures labels[j] == PlainText.Strip(usable[j].speaker) {
      LabelsAt(usable, j);
    }
    hide Labels, PlainText.Strip;
    forall x | x in labels[..first] ensures x in set j | 0 <= j < first :: PlainText.Strip(usable[j].speaker) {
      var j :| 0 <= j < first && labels[j] == x;
    }
    forall j | 0 <= j < first ensures PlainText.Strip(usable[j].speaker) in labels[..first] {
      assert labels[..first][j] == labels[j];
    }
  }

  /** A label is numbered by how many other ones come before it: its name says one more than those. */
  lemma {:induction false} NumberedByAppearance(usable: seq<RawTurn>, i: nat, first: nat)
    requires first <= i < |usable| && PlainText.Strip(usable[first].speaker) == PlainText.Strip(usable[i].speaker)
    requires forall j | 0 <= j < first :: PlainText.Strip(usable[j].speaker) != PlainText.Strip(usable[i].speaker)
    ensures NormalTurns(usable)[i].speaker ==
            "Speaker " + Decimal.Print(1 + |set j | 0 <= j < first :: PlainText.Strip(usable[j].speaker)|)
  {
    hide NormalTurns, FirstSeen, Position, Labels, PlainText.Strip, Decimal.Print;
    LabelsBefore(usable, i, first);
    assert forall j | 0 <= j < first :: Labels(usable)[..first][j] == Labels(usable)[j];
    NewLabelIsNext(Labels(usable), first);
    NormalTurnAt(usable, i);
  }
}
