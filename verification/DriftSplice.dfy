/**
  Replacing drifted stretches of a transcript by retried ones (transcriptions/drift.py):
  words are gathered by grid window, flagged windows are retried, and the retried words
  are spliced in. The word counts and the speech model are left open; of the model's
  words those in the window are kept (transcriptions/windows.py).
 */
module DriftSplice {
  import opened Wrappers
  import opened StableSort

  datatype Word = Word(text: string, start: real, end: real, confidence: Option<real>)

  /** One entry of a dictionary from window index to words; the entries are in insertion order. */
  datatype Window = Window(index: int, words: seq<Word>)

  const WINDOW_SECONDS := 30.0
  const MIN_ENGLISH := 4
  const ACCEPT_PROBABILITY := 0.9

  function WindowIndex(start: real): int { (start / WINDOW_SECONDS).Floor }

  function WindowStart(index: int): real { index as real * WINDOW_SECONDS }

  predicate InWindow(w: Word, index: int) { WindowIndex(w.start) == index }

  /** The words of the list that start in the window, in order. */
  function WordsIn(words: seq<Word>, index: int): seq<Word> { Filter(words, (w: Word) => InWindow(w, index)) }

  predicate ByStart(a: Word, b: Word) { a.start <= b.start }

  function SortByStart(words: seq<Word>): seq<Word> { Sort(words, ByStart) }

  // -- Grid ----------------------------------------------------------------------------------

  /** A word joins its window's entry, or opens it. */
  function Gather(grid: seq<Window>, w: Word): seq<Window> {
    if grid == [] then [Window(WindowIndex(w.start), [w])]
    else if grid[0].index == WindowIndex(w.start) then [Window(grid[0].index, grid[0].words + [w])] + grid[1..]
    else [grid[0]] + Gather(grid[1..], w)
  }

  function Grid(words: seq<Word>): seq<Window> {
    if words == [] then [] else Gather(Grid(words[..|words| - 1]), words[|words| - 1])
  }

  method GridWindows(words: seq<Word>) returns (grid: seq<Window>)
    ensures grid == Grid(words)
  {
    grid := [];
    for i := 0 to |words|
      invariant grid == Grid(words[..i])
    {
      assert words[..i + 1][..i] == words[..i];
      grid := AppendWord(grid, words[i]);
    }
    assert words[..|words|] == words;
  }

  /** Appends the word under its index, which it looks up or adds. */
  method AppendWord(grid: seq<Window>, w: Word) returns (more: seq<Window>)
    ensures more == Gather(grid, w)
  {
    hide Gather;
    var index := WindowIndex(w.start);
    var at := 0;
    assert grid[..0] == [] && grid[0..] == grid;
    while at < |grid| && grid[at].index != index
      invariant at <= |grid|
      invariant Gather(grid, w) == grid[..at] + Gather(grid[at..], w)
    {
      GatherSkips(grid, at, w);
      at := at + 1;
    }
    GatherEnds(grid, at, w);
    more := if at < |grid| then grid[at := Window(index, grid[at].words + [w])] else grid + [Window(index, [w])];
  }

  lemma GatherEnds(grid: seq<Window>, at: nat, w: Word)
    requires at <= |grid| && (at < |grid| ==> grid[at].index == WindowIndex(w.start))
    ensures grid[..at] + Gather(grid[at..], w)
         == if at < |grid| then grid[at := Window(grid[at].index, grid[at].words + [w])]
           else grid + [Window(WindowIndex(w.start), [w])]
  {
    if at < |grid| {
      var rest := grid[at..];
      assert rest[0] == grid[at] && rest[1..] == grid[at + 1..];
    }
  }

  lemma GatherSkips(grid: seq<Window>, at: nat, w: Word)
    requires at < |grid| && grid[at].index != WindowIndex(w.start)
    ensures grid[..at] + Gather(grid[at..], w) == grid[..at + 1] + Gather(grid[at + 1..], w)
  {
    assert grid[at..][1..] == grid[at + 1..];
    assert grid[..at] + [grid[at]] == grid[..at + 1];
  }

  // -- Looking entries up -----------------------------------------------------------------------

  predicate Has(grid: seq<Window>, index: int) { grid != [] && (grid[0].index == index || Has(grid[1..], index)) }

  /** The words under an index; none when there is no entry. */
  function Entry(grid: seq<Window>, index: int): seq<Word> {
    if grid == [] then [] else if grid[0].index == index then grid[0].words else Entry(grid[1..], index)
  }

  ghost predicate Distinct(grid: seq<Window>) { forall i, j | 0 <= i < j < |grid| :: grid[i].index != grid[j].index }

  lemma {:induction false} HasIffListed(grid: seq<Window>, index: int)
    ensures Has(grid, index) <==> exists g :: g in grid && g.index == index
  {
    if grid != [] {
      HasIffListed(grid[1..], index);
      if Has(grid, index) && grid[0].index != index {
        var g :| g in grid[1..] && g.index == index;
        assert g in grid;
      } else if grid[0].index == index {
        assert grid[0] in grid;
      }
    }
  }

  lemma {:induction false} EntryIsListed(grid: seq<Window>, g: Window)
    requires Distinct(grid) && g in grid
    ensures Has(grid, g.index) && Entry(grid, g.index) == g.words
  {
    if grid[0] != g {
      assert g in grid[1..];
      EntryIsListed(grid[1..], g);
      var k :| 0 <= k < |grid| && grid[k] == g;
      assert k > 0;
    }
  }

  lemma {:induction false} Gathered(grid: seq<Window>, w: Word, index: int)
    ensures Entry(Gather(grid, w), index) == Entry(grid, index) + if InWindow(w, index) then [w] else []
    ensures Has(Gather(grid, w), index) <==> Has(grid, index) || InWindow(w, index)
  {
    if grid != [] && grid[0].index != WindowIndex(w.start) {
      Gathered(grid[1..], w, index);
    }
  }

  lemma {:induction false} GatherKeepsDistinct(grid: seq<Window>, w: Word)
    requires Distinct(grid)
    ensures Distinct(Gather(grid, w))
  {
    if grid != [] && grid[0].index != WindowIndex(w.start) {
      var tail := Gather(grid[1..], w);
      assert Distinct(grid[1..]);
      GatherKeepsDistinct(grid[1..], w);
      Gathered(grid[1..], w, grid[0].index);
      HasIffListed(tail, grid[0].index);
      HasIffListed(grid[1..], grid[0].index);
      assert forall k | 0 <= k < |tail| :: tail[k] in tail;
    }
  }

  /** The grid has every window with words once, with exactly its words. */
  lemma {:induction false} GridIsExact(words: seq<Word>)
    ensures Distinct(Grid(words))
    ensures forall index :: Entry(Grid(words), index) == WordsIn(words, index)
    ensures forall index :: Has(Grid(words), index) <==> WordsIn(words, index) != []
  {
    if words != [] {
      var init, w := words[..|words| - 1], words[|words| - 1];
      GridIsExact(init);
      GatherKeepsDistinct(Grid(init), w);
      forall index
        ensures Entry(Grid(words), index) == WordsIn(words, index)
        ensures Has(Grid(words), index) <==> WordsIn(words, index) != []
      {
        Gathered(Grid(init), w, index);
        FilterAppend(init, [w], (x: Word) => InWindow(x, index));
        assert words == init + [w];
        assert WordsIn([w], index) == if InWindow(w, index) then [w] else [];
      }
    }
  }

  // -- Splicing -------------------------------------------------------------------------------------

  predicate ByIndex(a: Window, b: Window) { a.index <= b.index }

  function Added(windows: seq<Window>): seq<Word> {
    if windows == [] then [] else windows[0].words + Added(windows[1..])
  }

  function Kept(words: seq<Word>, replacements: seq<Window>): seq<Word> {
    Filter(words, (w: Word) => !Has(replacements, WindowIndex(w.start)))
  }

  /** The words of replaced windows go, the new ones come, and all is sorted by start, equal starts in this order. */
  function Spliced(words: seq<Word>, replacements: seq<Window>): seq<Word> {
    SortByStart(Kept(words, replacements) + Added(Sort(replacements, ByIndex)))
  }

  /** Every entry's words start in its window. */
  ghost predicate InPlace(replacements: seq<Window>) {
    forall r, w | r in replacements && w in r.words :: InWindow(w, r.index)
  }

  lemma {:induction false} AddedIn(windows: seq<Window>, index: int)
    requires Distinct(windows) && InPlace(windows)
    ensures WordsIn(Added(windows), index) == Entry(windows, index)
  {
    var p := (w: Word) => InWindow(w, index);
    if windows != [] {
      var first := windows[0];
      assert first in windows;
      assert InPlace(windows[1..]);
      AddedIn(windows[1..], index);
      FilterAppend(first.words, Added(windows[1..]), p);
      if first.index == index {
        FilterAll(first.words, p);
        HasIffListed(windows[1..], index);
        EntryWhenMissing(windows[1..], index);
      } else {
        FilterNone(first.words, p);
      }
    }
  }

  lemma {:induction false} EntryWhenMissing(windows: seq<Window>, index: int)
    requires !Has(windows, index)
    ensures Entry(windows, index) == []
  {
    if windows != [] {
      EntryWhenMissing(windows[1..], index);
    }
  }

  lemma {:induction false} FilterAll(words: seq<Word>, p: Word -> bool)
    requires forall w | w in words :: p(w)
    ensures Filter(words, p) == words
  {
    if words != [] {
      FilterAll(words[1..], p);
      assert words == [words[0]] + words[1..];
    }
  }

  lemma {:induction false} FilterNone(words: seq<Word>, p: Word -> bool)
    requires forall w | w in words :: !p(w)
    ensures Filter(words, p) == []
  {
    if words != [] {
      FilterNone(words[1..], p);
    }
  }

  lemma {:induction false} KeptIn(words: seq<Word>, replacements: seq<Window>, index: int)
    ensures WordsIn(Kept(words, replacements), index) == if Has(replacements, index) then [] else WordsIn(words, index)
  {
    if words != [] {
      KeptIn(words[1..], replacements, index);
      var w := words[0];
      FilterAppend(if Has(replacements, WindowIndex(w.start)) then []
        else [w], Kept(words[1..], replacements), (x: Word) => InWindow(x, index));
    }
  }

  /** Sorting a dictionary's entries changes none of them. */
  lemma SortedEntries(windows: seq<Window>)
    requires Distinct(windows) && InPlace(windows)
    ensures var sorted := Sort(windows, ByIndex);
            && Distinct(sorted) && InPlace(sorted)
            && forall index ::
              Entry(sorted, index) == Entry(windows, index) && Has(sorted, index) == Has(windows, index)
  {
    var sorted := Sort(windows, ByIndex);
    SortMembers(windows, ByIndex);
    SortPairwise(windows, ByIndex, (a: Window, b: Window) => a.index != b.index);
    hide Sort;
    assert Distinct(sorted);
    forall index ensures Entry(sorted, index) == Entry(windows, index) && Has(sorted, index) == Has(windows, index) {
      HasIffListed(windows, index);
      HasIffListed(sorted, index);
      if Has(windows, index) {
        var g :| g in windows && g.index == index;
        EntryIsListed(windows, g);
        EntryIsListed(sorted, g);
      } else {
        EntryWhenMissing(windows, index);
        EntryWhenMissing(sorted, index);
      }
    }
  }

  /** After splicing, a replaced window holds exactly its new words and any other exactly its old ones, by start. */
  lemma SplicedWindow(words: seq<Word>, replacements: seq<Window>, index: int)
    requires Distinct(replacements) && InPlace(replacements)
    ensures WordsIn(Spliced(words, replacements), index)
         == SortByStart(if Has(replacements, index) then Entry(replacements, index) else WordsIn(words, index))
  {
    var p := (w: Word) => InWindow(w, index);
    var kept, added := Kept(words, replacements), Added(Sort(replacements, ByIndex));
    FilterSort(kept + added, ByStart, p);
    FilterAppend(kept, added, p);
    SortedEntries(replacements);
    KeptIn(words, replacements, index);
    AddedIn(Sort(replacements, ByIndex), index);
    if !Has(replacements, index) {
      EntryWhenMissing(replacements, index);
    }
    hide Sort, Kept, Added, Entry, Has;
    assert [] + Entry(replacements, index) == Entry(replacements, index);
    assert WordsIn(words, index) + [] == WordsIn(words, index);
  }

  lemma SplicedIsSorted(words: seq<Word>, replacements: seq<Window>)
    ensures Sorted(Spliced(words, replacements), ByStart)
  {
    SortSorted(Kept(words, replacements) + Added(Sort(replacements, ByIndex)), ByStart);
  }

  /** Splicing the same replacements again changes nothing. */
  lemma SplicingTwice(words: seq<Word>, replacements: seq<Window>)
    requires Distinct(replacements) && InPlace(replacements)
    ensures Spliced(Spliced(words, replacements), replacements) == Spliced(words, replacements)
  {
    var p := (w: Word) => !Has(replacements, WindowIndex(w.start));
    var kept, added := Kept(words, replacements), Added(Sort(replacements, ByIndex));
    FilterSort(kept + added, ByStart, p);
    FilterAppend(kept, added, p);
    KeptAgain(words, replacements);
    AddedIsReplaced(replacements);
    hide Sort, Added, Has, Filter;
    assert kept + [] == kept;
    SortAfterSort(kept, added, ByStart);
  }

  lemma {:induction false} KeptAgain(words: seq<Word>, replacements: seq<Window>)
    ensures Kept(Kept(words, replacements), replacements) == Kept(words, replacements)
  {
    FilterMembers(words, (w: Word) => !Has(replacements, WindowIndex(w.start)));
    FilterAll(Kept(words, replacements), (w: Word) => !Has(replacements, WindowIndex(w.start)));
  }

  lemma AddedIsReplaced(replacements: seq<Window>)
    requires Distinct(replacements) && InPlace(replacements)
    ensures Kept(Added(Sort(replacements, ByIndex)), replacements) == []
  {
    var sorted := Sort(replacements, ByIndex);
    SortMembers(replacements, ByIndex);
    forall w | w in Added(sorted) ensures Has(replacements, WindowIndex(w.start)) {
      var r := AddedFrom(sorted, w);
      HasIffListed(replacements, r.index);
    }
    FilterNone(Added(sorted), (w: Word) => !Has(replacements, WindowIndex(w.start)));
  }

  lemma {:induction false} AddedFrom(windows: seq<Window>, w: Word) returns (r: Window)
    requires w in Added(windows)
    ensures r in windows && w in r.words
  {
    if w in windows[0].words {
      r := windows[0];
    } else {
      r := AddedFrom(windows[1..], w);
    }
  }

  // -- The check ---------------------------------------------------------------------------------------

  /** What the speech model returns for a window: all its words, a language and how sure it is. */
  datatype Retry = Retry(language: string, probability: real, words: seq<Word>)

  /** What a record says about the retry of a flagged window. */
  datatype Attempt = Attempt(language: string, probability: real, accepted: bool, words: nat)

  datatype Record = Record(t: real, english: nat, german: nat, before: nat, after: nat, attempt: Option<Attempt>) {
    predicate Flagged() { attempt.Some? }

    predicate Accepted() { attempt.Some? && attempt.value.accepted }

    predicate Rejected() { attempt.Some? && !attempt.value.accepted }
  }

  datatype Summary = Summary(windows: nat, flagged: nat, accepted: nat, rejected: nat)

  /** The words that start in the thirty seconds from the window's start, without confidences. */
  function WindowWords(words: seq<Word>, index: int): seq<Word> {
    if words == [] then []
    else
      var w := words[0];
      (if WindowStart(index) <= w.start < WindowStart(index) + WINDOW_SECONDS then [w.(confidence := None)] else [])
        + WindowWords(words[1..], index)
  }

  /** At least four English function words, and a tenth of all function words. */
  predicate Flags(english: nat, german: nat) {
    english >= MIN_ENGLISH && english as real / (if english + german < 1 then 1 else english + german) as real >= 0.1
  }

  function TextsOf(words: seq<Word>): seq<string> { if words == [] then [] else [words[0].text] + TextsOf(words[1..]) }

  predicate Accepts(r: Retry, language: string) { r.language == language && r.probability >= ACCEPT_PROBABILITY }

  function Judged(g: Window, language: string, retry: int -> Retry, count: seq<string> -> (nat, nat)): Record {
    var (english, german) := count(TextsOf(g.words));
    if Flags(english, german) then
      var r := retry(g.index);
      var n := |WindowWords(r.words, g.index)|;
      Record(WindowStart(g.index), english, german, |g.words|, if Accepts(r, language) then n else |g.words|,
             Some(Attempt(r.language, r.probability, Accepts(r, language), n)))
    else Record(WindowStart(g.index), english, german, |g.words|, |g.words|, None)
  }

  function Records(windows: seq<Window>, language: string, retry: int -> Retry,
      count: seq<string> -> (nat, nat)): (records: seq<Record>)
    ensures |records| == |windows| && forall k | 0 <= k < |windows| ::
        records[k] == Judged(windows[k], language, retry, count)
  {
    if windows == [] then []
    else
      Records(windows[..|windows| - 1], language, retry, count) +
        [Judged(windows[|windows| - 1], language, retry, count)]
  }

  /** The window with its retried words. */
  function Retried(g: Window, retry: int -> Retry): Window {
    Window(g.index, WindowWords(retry(g.index).words, g.index))
  }

  function Replacements(windows: seq<Window>, language: string, retry: int -> Retry,
      count: seq<string> -> (nat, nat)): seq<Window> {
    if windows == [] then []
    else
      var g := windows[|windows| - 1];
      Replacements(windows[..|windows| - 1], language, retry, count)
        + if Judged(g, language, retry, count).Accepted() then [Retried(g, retry)] else []
  }

  function SortedGrid(words: seq<Word>): seq<Window> { Sort(Grid(words), ByIndex) }

  method RunDriftCheck(words: seq<Word>, language: string, languages: set<string>, retry: int -> Retry,
      count: seq<string> -> (nat, nat))
    returns (result: seq<Word>, records: seq<Record>, summary: Summary)
    ensures language !in languages ==> result == words && records == [] && summary == Summary(0, 0, 0, 0)
    ensures language in languages ==> records == Records(SortedGrid(words), language, retry, count)
    ensures language in languages ==> result == Spliced(words, Replacements(SortedGrid(words), language, retry, count))
    ensures summary == SummaryOf(records)
  {
    hide SummaryOf, Judged, Retried, Spliced;
    EmptySummary();
    records, summary := [], Summary(0, 0, 0, 0);
    if language !in languages {
      return words, records, summary;
    }
    var grid := GridWindows(words);
    var windows := Sort(grid, ByIndex);
    var replacements: seq<Window> := [];
    for i := 0 to |windows|
      invariant records == Records(windows[..i], language, retry, count)
      invariant replacements == Replacements(windows[..i], language, retry, count)
      invariant summary == SummaryOf(records).(windows := 0) && SummaryOf(records).windows == |records|
    {
      assert windows[..i + 1][..i] == windows[..i];
      var record, retried := JudgeWindow(windows[i], language, retry, count);
      if retried.Some? {
        replacements := replacements + [retried.value];
      }
      if record.Flagged() {
        summary := summary.(flagged := summary.flagged + 1);
        summary := if record.Accepted() then summary.(accepted := summary.accepted + 1)
                   else summary.(rejected := summary.rejected + 1);
      }
      OneRecordMore(records, record);
      records := records + [record];
    }
    assert windows[..|windows|] == windows;
    return Spliced(words, replacements), records, summary.(windows := |records|);
  }

  /** Counts the window's function words, retries a flagged window and keeps an accepted retry. */
  method JudgeWindow(g: Window, language: string, retry: int -> Retry, count: seq<string> -> (nat, nat))
    returns (record: Record, retried: Option<Window>)
    ensures record == Judged(g, language, retry, count)
    ensures retried == if record.Accepted() then Some(Retried(g, retry)) else None
  {
    var (english, german) := count(TextsOf(g.words));
    record, retried := Record(WindowStart(g.index), english, german, |g.words|, |g.words|, None), None;
    if Flags(english, german) {
      var answer := retry(g.index);
      var kept := WindowWords(answer.words, g.index);
      var accepted := Accepts(answer, language);
      record := record.(attempt := Some(Attempt(answer.language, answer.probability, accepted, |kept|)));
      if accepted {
        retried := Some(Window(g.index, kept));
        record := record.(after := |kept|);
      }
    }
  }

  /** How many records there are of each kind. */
  function SummaryOf(records: seq<Record>): Summary {
    Summary(|records|, |Filter(records, (r: Record) => r.Flagged())|, |Filter(records, (r: Record) => r.Accepted())|,
            |Filter(records, (r: Record) => r.Rejected())|)
  }

  lemma OneRecordMore(records: seq<Record>, r: Record)
    ensures SummaryOf(records + [r])
         == Summary(|records| + 1, SummaryOf(records).flagged + if r.Flagged() then 1 else 0,
                    SummaryOf(records).accepted + if r.Accepted() then 1 else 0,
                    SummaryOf(records).rejected + if r.Rejected() then 1 else 0)
  {
    FilterAppend(records, [r], (x: Record) => x.Flagged());
    FilterAppend(records, [r], (x: Record) => x.Accepted());
    FilterAppend(records, [r], (x: Record) => x.Rejected());
  }

  /** Flagged windows are accepted or rejected, and the accepted ones are those replaced. */
  lemma {:induction false} SummaryAddsUp(windows: seq<Window>, language: string, retry: int -> Retry,
      count: seq<string> -> (nat, nat))
    ensures var summary := SummaryOf(Records(windows, language, retry, count));
            && summary.windows == |windows| && summary.flagged == summary.accepted + summary.rejected
            && summary.accepted == |Replacements(windows, language, retry, count)|
  {
    hide Judged, Retried, SummaryOf;
    if windows == [] {
      assert SummaryOf([]) == Summary(0, 0, 0, 0) by { EmptySummary(); }
    } else {
      var init, g := windows[..|windows| - 1], windows[|windows| - 1];
      SummaryAddsUp(init, language, retry, count);
      OneRecordMore(Records(init, language, retry, count), Judged(g, language, retry, count));
    }
  }

  lemma EmptySummary()
    ensures SummaryOf([]) == Summary(0, 0, 0, 0)
  {
  }

  // -- What the records say -----------------------------------------------------------------------------

  /** The filter of the retried words and the grid agree about windows. */
  lemma {:induction false} WindowWordsAreInPlace(words: seq<Word>, index: int)
    ensures forall w | w in WindowWords(words, index) :: InWindow(w, index) && w.confidence == None
  {
    if words != [] {
      WindowWordsAreInPlace(words[1..], index);
    }
  }

  /** Of the retried words all that start in the window are kept, in order and with their text and times. */
  lemma {:induction false} WindowWordsAreAll(words: seq<Word>, index: int)
    ensures |WindowWords(words, index)| == |WordsIn(words, index)|
    ensures forall k | 0 <= k < |WordsIn(words, index)| ::
              var w, kept := WordsIn(words, index)[k], WindowWords(words, index)[k];
              kept.text == w.text && kept.start == w.start && kept.end == w.end && kept.confidence == None
  {
    if words != [] {
      WindowWordsAreAll(words[1..], index);
      FilterAppend([words[0]], words[1..], (w: Word) => InWindow(w, index));
      assert words == [words[0]] + words[1..];
      assert [words[0]][1..] == [];
    }
  }

  lemma {:induction false} ReplacementsAreRetried(windows: seq<Window>, language: string, retry: int -> Retry,
      count: seq<string> -> (nat, nat))
    ensures forall x :: x in Replacements(windows, language, retry, count) <==>
              exists g :: g in windows && Judged(g, language, retry, count).Accepted() && x == Retried(g, retry)
  {
    hide Judged, Retried;
    if windows != [] {
      var init, g := windows[..|windows| - 1], windows[|windows| - 1];
      ReplacementsAreRetried(init, language, retry, count);
      assert windows == init + [g];
    }
  }

  lemma {:induction false} ReplacementsAreDistinct(windows: seq<Window>, language: string, retry: int -> Retry,
      count: seq<string> -> (nat, nat))
    requires Distinct(windows)
    ensures Distinct(Replacements(windows, language, retry, count))
  {
    if windows != [] {
      var init, g := windows[..|windows| - 1], windows[|windows| - 1];
      ReplacementsAreDistinct(init, language, retry, count);
      ReplacementsAreRetried(init, language, retry, count);
      var before := Replacements(init, language, retry, count);
      assert forall o | o in init :: o.index != g.index;
      hide Judged;
      forall k | 0 <= k < |before| ensures before[k].index != g.index {
        assert before[k] in before;
      }
    }
  }

  lemma ReplacementsFit(windows: seq<Window>, language: string, retry: int -> Retry, count: seq<string> -> (nat, nat))
    requires Distinct(windows)
    ensures var r := Replacements(windows, language, retry, count);
            && Distinct(r) && InPlace(r)
            && forall x :: x in r <==>
              exists g :: g in windows && Judged(g, language, retry, count).Accepted() && x == Retried(g, retry)
  {
    ReplacementsAreRetried(windows, language, retry, count);
    ReplacementsAreDistinct(windows, language, retry, count);
    hide Judged, InWindow, WindowWords, Distinct, Replacements;
    forall x, w | x in Replacements(windows, language, retry, count) && w in x.words ensures InWindow(w, x.index) {
      var g :| g in windows && Judged(g, language, retry, count).Accepted() && x == Retried(g, retry);
      WindowWordsAreInPlace(retry(g.index).words, g.index);
    }
  }

  lemma OneOfEach(windows: seq<Window>, a: Window, b: Window)
    requires Distinct(windows) && a in windows && b in windows && a.index == b.index
    ensures a == b
  {
    var i :| 0 <= i < |windows| && windows[i] == a;
    var j :| 0 <= j < |windows| && windows[j] == b;
    assert i == j;
  }

  lemma {:induction false} TextsAreInOrder(words: seq<Word>)
    ensures |TextsOf(words)| == |words| && forall k | 0 <= k < |words| :: TextsOf(words)[k] == words[k].text
  {
    if words != [] {
      TextsAreInOrder(words[1..]);
    }
  }

  /**
    A window is retried if four or more of its function words are English and they are a
    tenth of them or more; the retry is accepted if it is in the language of the episode
    and sure of that to nine tenths.
   */
  lemma WindowIsRetriedIff(g: Window, language: string, retry: int -> Retry, count: seq<string> -> (nat, nat),
      texts: seq<string>)
    requires |texts| == |g.words| && forall k | 0 <= k < |texts| :: texts[k] == g.words[k].text
    ensures var record, r := Judged(g, language, retry, count), retry(g.index);
            var (english, german) := count(texts);
            && record.t == 30.0 * g.index as real && record.english == english && record.german == german
            && (record.Flagged() <==> english >= 4 && 10 * english >= english + german)
            && (record.Accepted() <==> record.Flagged() && r.language == language && r.probability >= 0.9)
            && (record.Flagged() ==> record.attempt.value.language == r.language
                                     && record.attempt.value.probability == r.probability
                                     && record.attempt.value.words == |WordsIn(r.words, g.index)|)
  {
    TextsAreInOrder(g.words);
    assert texts == TextsOf(g.words);
    WindowWordsAreAll(retry(g.index).words, g.index);
    var (english, german) := count(texts);
    if english >= 4 {
      ShareIff(english, english + german);
    }
  }

  lemma ShareIff(part: nat, whole: nat)
    requires whole > 0
    ensures part as real / whole as real >= 0.1 <==> 10 * part >= whole
  {
    var share := part as real / whole as real;
    assert share * whole as real == part as real;
    if share >= 0.1 {
      assert share * whole as real >= 0.1 * whole as real;
    } else {
      assert share * whole as real < 0.1 * whole as real;
    }
  }

  /** For each record: what its window holds after the splice. */
  lemma RecordsAreRight(words: seq<Word>, language: string, retry: int -> Retry, count: seq<string> -> (nat, nat),
      k: nat)
    requires k < |SortedGrid(words)|
    ensures var g := SortedGrid(words)[k];
            var record := Records(SortedGrid(words), language, retry, count)[k];
            var result := Spliced(words, Replacements(SortedGrid(words), language, retry, count));
            && g.words == WordsIn(words, g.index) && record.before == |WordsIn(words, g.index)|
            && WordsIn(result, g.index) == SortByStart(if record.Accepted()
              then WindowWords(retry(g.index).words, g.index) else WordsIn(words, g.index))
            && record.after == |WordsIn(result, g.index)|
  {
    var windows := SortedGrid(words);
    var g := windows[k];
    GridOfWords(words);
    assert g in windows;
    EntryIsListed(windows, g);
    ReplacementsFit(windows, language, retry, count);
    var r := Replacements(windows, language, retry, count);
    SplicedWindow(words, r, g.index);
    HasIffListed(r, g.index);
    var record := Judged(g, language, retry, count);
    if record.Accepted() {
      EntryIsListed(r, Retried(g, retry));
    } else if Has(r, g.index) {
      var x :| x in r && x.index == g.index;
      var o :| o in windows && Judged(o, language, retry, count).Accepted() && x == Retried(o, retry);
      OneOfEach(windows, o, g);
    }
    SortPermutes(if record.Accepted() then WindowWords(retry(g.index).words, g.index)
      else WordsIn(words, g.index), ByStart);
  }

  lemma GridOfWords(words: seq<Word>)
    ensures var windows := SortedGrid(words);
            && Distinct(windows)
            && forall index ::
              Entry(windows, index) == WordsIn(words, index) && (Has(windows, index) <==> WordsIn(words, index) != [])
  {
    GridIsExact(words);
    GridIsInPlace(words);
    SortedEntries(Grid(words));
  }

  lemma GridIsInPlace(words: seq<Word>)
    ensures InPlace(Grid(words))
  {
    GridIsExact(words);
    forall g, w | g in Grid(words) && w in g.words ensures InWindow(w, g.index) {
      EntryIsListed(Grid(words), g);
      FilterMembers(words, (x: Word) => InWindow(x, g.index));
    }
  }

  /** The words in each of the windows, counted together. */
  function CountIn(words: seq<Word>, windows: seq<Window>): nat {
    if windows == [] then 0
    else CountIn(words, windows[..|windows| - 1]) + |WordsIn(words, windows[|windows| - 1].index)|
  }

  function SumAfter(records: seq<Record>): nat {
    if records == [] then 0 else SumAfter(records[..|records| - 1]) + records[|records| - 1].after
  }

  lemma {:induction false} CountOneMore(words: seq<Word>, w: Word, windows: seq<Window>)
    requires Distinct(windows)
    ensures CountIn(words + [w], windows) == CountIn(words, windows) + if Has(windows, WindowIndex(w.start)) then 1
        else 0
  {
    if windows == [] {
    } else {
      var init, g := windows[..|windows| - 1], windows[|windows| - 1];
      CountOneMore(words, w, init);
      FilterAppend(words, [w], (x: Word) => InWindow(x, g.index));
      assert WordsIn([w], g.index) == if InWindow(w, g.index) then [w] else [];
      HasIffListed(windows, WindowIndex(w.start));
      HasIffListed(init, WindowIndex(w.start));
      assert windows == init + [g];
    }
  }

  /** Distinct windows that cover all words count each word once. */
  lemma {:induction false} CountsAddUp(words: seq<Word>, windows: seq<Window>)
    requires Distinct(windows) && forall w | w in words :: Has(windows, WindowIndex(w.start))
    ensures CountIn(words, windows) == |words|
  {
    if words == [] {
      CountNothing(windows);
    } else {
      var init, w := words[..|words| - 1], words[|words| - 1];
      assert w in words && words == init + [w];
      CountsAddUp(init, windows);
      CountOneMore(init, w, windows);
    }
  }

  lemma {:induction false} CountNothing(windows: seq<Window>)
    ensures CountIn([], windows) == 0
  {
    if windows != [] {
      CountNothing(windows[..|windows| - 1]);
    }
  }

  /** The records' new sizes sum up to the length of the spliced list: no word is outside the recorded windows. */
  lemma RecordsAddUp(words: seq<Word>, language: string, retry: int -> Retry, count: seq<string> -> (nat, nat))
    ensures SumAfter(Records(SortedGrid(words), language, retry, count))
         == |Spliced(words, Replacements(SortedGrid(words), language, retry, count))|
  {
    var windows := SortedGrid(words);
    var result := Spliced(words, Replacements(windows, language, retry, count));
    GridOfWords(words);
    ReplacementsFit(windows, language, retry, count);
    forall k | 0 <= k < |windows|
      ensures Records(windows, language, retry, count)[k].after == |WordsIn(result, windows[k].index)|
    {
      RecordsAreRight(words, language, retry, count, k);
    }
    SumsAgree(result, windows, Records(windows, language, retry, count));
    forall w | w in result ensures Has(windows, WindowIndex(w.start)) {
      SplicedIsCovered(words, language, retry, count, w);
    }
    CountsAddUp(result, windows);
  }

  lemma {:induction false} SumsAgree(words: seq<Word>, windows: seq<Window>, records: seq<Record>)
    requires |records| == |windows| && forall k | 0 <= k < |windows| ::
        records[k].after == |WordsIn(words, windows[k].index)|
    ensures SumAfter(records) == CountIn(words, windows)
  {
    if windows != [] {
      SumsAgree(words, windows[..|windows| - 1], records[..|records| - 1]);
    }
  }

  lemma SplicedIsCovered(words: seq<Word>, language: string, retry: int -> Retry, count: seq<string> -> (nat, nat),
      w: Word)
    requires w in Spliced(words, Replacements(SortedGrid(words), language, retry, count))
    ensures Has(SortedGrid(words), WindowIndex(w.start))
  {
    var windows := SortedGrid(words);
    var r := Replacements(windows, language, retry, count);
    GridOfWords(words);
    ReplacementsFit(windows, language, retry, count);
    var index := WindowIndex(w.start);
    SplicedWindow(words, r, index);
    FilterMembers(Spliced(words, r), (x: Word) => InWindow(x, index));
    assert w in WordsIn(Spliced(words, r), index);
    if Has(r, index) {
      HasIffListed(r, index);
      var x :| x in r && x.index == index;
      var g :| g in windows && Judged(g, language, retry, count).Accepted() && x == Retried(g, retry);
      HasIffListed(windows, index);
    } else {
      SortMembers(WordsIn(words, index), ByStart);
    }
  }

  /** Splicing the accepted windows into the result again changes nothing, and the result is sorted. */
  lemma DriftCheckIsStable(words: seq<Word>, language: string, retry: int -> Retry, count: seq<string> -> (nat, nat))
    ensures var r := Replacements(SortedGrid(words), language, retry, count);
            Spliced(Spliced(words, r), r) == Spliced(words, r) && Sorted(Spliced(words, r), ByStart)
  {
    GridOfWords(words);
    ReplacementsFit(SortedGrid(words), language, retry, count);
    SplicingTwice(words, Replacements(SortedGrid(words), language, retry, count));
    SplicedIsSorted(words, Replacements(SortedGrid(words), language, retry, count));
  }
}
