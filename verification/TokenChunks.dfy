/**
  Packing sentences into token chunks within a budget (synthesis/kokoro.py): whole
  sentences joined by a separator token, and sentences over the budget cut hard.
 */
module TokenChunks {
  import opened Sequences

  type Token = int
  type Sentence = seq<Token>

  const SPACE: Token := 16

  /** A chunk of whole sentences, or a piece of a sentence over the budget. */
  datatype Chunk = Joined(sentences: seq<Sentence>) | Cut(piece: Sentence)

  /** Finished chunks and the sentences of the chunk still open. */
  datatype Packing = Packing(chunks: seq<Chunk>, open: seq<Sentence>)

  /** The sentences with one separator between neighbours. */
  function JoinedText(sentences: seq<Sentence>): seq<Token> {
    if sentences == [] then []
    else if |sentences| == 1 then sentences[0]
    else JoinedText(sentences[..|sentences| - 1]) + [SPACE] + sentences[|sentences| - 1]
  }

  function Text(c: Chunk): seq<Token> { if c.Joined? then JoinedText(c.sentences) else c.piece }

  function Texts(chunks: seq<Chunk>): seq<seq<Token>> {
    if chunks == [] then [] else Texts(chunks[..|chunks| - 1]) + [Text(chunks[|chunks| - 1])]
  }

  function Pieces(s: Sentence, budget: nat): seq<Chunk>
    requires budget >= 1
  {
    if |s| <= budget then (if s == [] then [] else [Cut(s)]) else [Cut(s[..budget])] + Pieces(s[budget..], budget)
  }

  function Closed(p: Packing): seq<Chunk> { p.chunks + if p.open == [] then [] else [Joined(p.open)] }

  function Add(p: Packing, s: Sentence, budget: nat): Packing
    requires budget >= 1
  {
    if s == [] then p
    else if |s| > budget then Packing(Closed(p) + Pieces(s, budget), [])
    else if p.open != [] && |JoinedText(p.open)| + 1 + |s| > budget then Packing(Closed(p), [s])
    else Packing(p.chunks, p.open + [s])
  }

  function Packed(sentences: seq<Sentence>, budget: nat): Packing
    requires budget >= 1
  {
    if sentences == [] then Packing([], [])
    else Add(Packed(sentences[..|sentences| - 1], budget), sentences[|sentences| - 1], budget)
  }

  function Chunks(sentences: seq<Sentence>, budget: nat): seq<Chunk>
    requires budget >= 1
  {
    Closed(Packed(sentences, budget))
  }

  lemma {:induction false} TextsAppend(a: seq<Chunk>, b: seq<Chunk>)
    ensures Texts(a + b) == Texts(a) + Texts(b)
  {
    if b == [] {
      assert a + b == a;
    } else {
      InitOfAppend(a, b);
      TextsAppend(a, b[..|b| - 1]);
      Assoc(Texts(a), Texts(b[..|b| - 1]), [Text(b[|b| - 1])]);
    }
  }

  lemma TextsOfOne(c: Chunk)
    ensures Texts([c]) == [Text(c)]
  {
    assert [c][..0] == [];
  }

  /** The open chunk's tokens as a chunk of their own, if there are any. */
  function Flushed(open: seq<Sentence>): seq<seq<Token>> { if open == [] then [] else [JoinedText(open)] }

  /** What adding a sentence does to the texts; the open chunk has tokens unless it has no sentence. */
  lemma AddedTexts(p: Packing, s: Sentence, budget: nat)
    requires budget >= 1 && (p.open == [] <==> JoinedText(p.open) == [])
    ensures var q, full := Add(p, s, budget), p.open != [] && |JoinedText(p.open)| + 1 + |s| > budget;
            && Texts(q.chunks) == (if |s| > budget then Texts(p.chunks) + Flushed(p.open) + Texts(Pieces(s, budget))
                                   else if s != [] && full then Texts(p.chunks) + Flushed(p.open) else Texts(p.chunks))
            && JoinedText(q.open) == (if s == [] then JoinedText(p.open) else if |s| > budget then []
                                      else if p.open == [] || full then s else JoinedText(p.open) + [SPACE] + s)
            && (q.open == [] <==> JoinedText(q.open) == [])
  {
    ClosedTexts(p);
    if |s| > budget {
      TextsAppend(Closed(p), Pieces(s, budget));
    }
    OneMore(p.open, s);
    hide Texts, Pieces, Closed;
  }

  lemma ClosedTexts(p: Packing)
    ensures Texts(Closed(p)) == Texts(p.chunks) + Flushed(p.open)
  {
    if p.open != [] {
      TextsAppend(p.chunks, [Joined(p.open)]);
      TextsOfOne(Joined(p.open));
    } else {
      assert p.chunks + [] == p.chunks;
    }
  }

  method BuildTokenChunks(sentences: seq<Sentence>, budget: nat) returns (chunks: seq<seq<Token>>)
    requires budget >= 1
    ensures chunks == Texts(Chunks(sentences, budget))
  {
    chunks := [];
    var current: seq<Token> := [];
    ghost var p := Packing([], []);
    for i := 0 to |sentences|
      invariant p == Packed(sentences[..i], budget)
      invariant chunks == Texts(p.chunks) && current == JoinedText(p.open)
      invariant p.open == [] <==> current == []
    {
      var s := sentences[i];
      assert sentences[..i + 1][..i] == sentences[..i];
      AddedTexts(p, s, budget);
      p := Add(p, s, budget);
      hide Add, Texts, JoinedText, Pieces, Packed;
      if s == [] {
        continue;
      }
      if |s| > budget {
        var pieces := CutSentence(s, budget);
        assert chunks + [] == chunks;
        if current != [] {
          chunks := chunks + [current];
          current := [];
        }
        chunks := chunks + pieces;
        continue;
      }
      var separator := if current != [] then 1 else 0;
      if current != [] && |current| + separator + |s| > budget {
        chunks := chunks + [current];
        current := [];
        separator := 0;
      }
      if separator == 1 {
        current := current + [SPACE] + s;
      } else {
        current := s;
      }
    }
    assert sentences[..|sentences|] == sentences;
    ClosedTexts(p);
    if current != [] {
      chunks := chunks + [current];
    }
  }

  method CutSentence(s: Sentence, budget: nat) returns (pieces: seq<seq<Token>>)
    requires budget >= 1
    ensures pieces == Texts(Pieces(s, budget))
  {
    pieces := [];
    var start := 0;
    while start < |s|
      invariant start <= |s|
      invariant pieces + Texts(Pieces(s[start..], budget)) == Texts(Pieces(s, budget))
    {
      var end := if start + budget <= |s| then start + budget else |s|;
      var rest := s[start..];
      ghost var head := Cut(s[start..end]);
      assert rest[..end - start] == s[start..end] && rest[end - start..] == s[end..];
      assert end == |s| ==> s[end..] == [] && rest == s[start..end];
      assert Pieces(rest, budget) == [head] + Pieces(s[end..], budget);
      TextsAppend([head], Pieces(s[end..], budget));
      TextsOfOne(head);
      pieces := pieces + [s[start..end]];
      start := end;
    }
    assert Pieces(s[start..], budget) == [] && Texts([]) == [];
  }

  // -- Within the budget ------------------------------------------------------------------

  predicate Fits(c: Chunk, budget: nat) { Text(c) != [] && |Text(c)| <= budget }

  predicate PackingFits(p: Packing, budget: nat) {
    && (forall c | c in p.chunks :: Fits(c, budget))
    && (p.open != [] ==> Fits(Joined(p.open), budget))
  }

  lemma {:induction false} PiecesFit(s: Sentence, budget: nat)
    requires budget >= 1
    ensures forall c | c in Pieces(s, budget) :: Fits(c, budget)
  {
    if |s| > budget {
      PiecesFit(s[budget..], budget);
    }
  }

  lemma {:induction false} PackedFits(sentences: seq<Sentence>, budget: nat)
    requires budget >= 1
    ensures PackingFits(Packed(sentences, budget), budget)
  {
    if sentences != [] {
      var p, s := Packed(sentences[..|sentences| - 1], budget), sentences[|sentences| - 1];
      PackedFits(sentences[..|sentences| - 1], budget);
      PiecesFit(s, budget);
      hide Pieces;
      assert (p.open + [s])[..|p.open|] == p.open;
    }
  }

  /** No chunk is empty and none exceeds the budget. */
  lemma ChunksFit(sentences: seq<Sentence>, budget: nat)
    requires budget >= 1
    ensures forall text | text in Texts(Chunks(sentences, budget)) :: text != [] && |text| <= budget
  {
    PackedFits(sentences, budget);
    TextsFit(Chunks(sentences, budget), budget);
  }

  lemma {:induction false} TextsFit(chunks: seq<Chunk>, budget: nat)
    requires forall c | c in chunks :: Fits(c, budget)
    ensures forall text | text in Texts(chunks) :: text != [] && |text| <= budget
  {
    if chunks != [] {
      assert chunks[|chunks| - 1] in chunks;
      TextsFit(chunks[..|chunks| - 1], budget);
    }
  }

  // -- Conservation --------------------------------------------------------------------------

  function Flat(lists: seq<seq<Token>>): seq<Token> {
    if lists == [] then [] else Flat(lists[..|lists| - 1]) + lists[|lists| - 1]
  }

  /** The chunk's tokens without the separators put between its sentences. */
  function Content(c: Chunk): seq<Token> { if c.Joined? then Flat(c.sentences) else c.piece }

  function Contents(chunks: seq<Chunk>): seq<Token> {
    if chunks == [] then [] else Contents(chunks[..|chunks| - 1]) + Content(chunks[|chunks| - 1])
  }

  lemma {:induction false} ContentsAppend(a: seq<Chunk>, b: seq<Chunk>)
    ensures Contents(a + b) == Contents(a) + Contents(b)
  {
    hide Content;
    if b == [] {
      assert a + b == a;
    } else {
      InitOfAppend(a, b);
      ContentsAppend(a, b[..|b| - 1]);
      Assoc(Contents(a), Contents(b[..|b| - 1]), Content(b[|b| - 1]));
    }
  }

  lemma ContentsOfOne(c: Chunk)
    ensures Contents([c]) == Content(c)
  {
    assert [c][..0] == [];
  }

  lemma PiecesUnfold(s: Sentence, budget: nat)
    requires budget >= 1
    ensures |s| > budget ==>
        Pieces(s, budget) == [Cut(s[..budget])] + Pieces(s[budget..], budget) && s[..budget] + s[budget..] == s
    ensures |s| <= budget ==> Contents(Pieces(s, budget)) == s
  {
    if |s| <= budget {
      ContentsOfOne(Cut(s));
    }
  }

  lemma {:induction false} PiecesKeepTokens(s: Sentence, budget: nat)
    requires budget >= 1
    ensures Contents(Pieces(s, budget)) == s
  {
    hide *;
    PiecesUnfold(s, budget);
    if |s| > budget {
      PiecesKeepTokens(s[budget..], budget);
      ContentsAppend([Cut(s[..budget])], Pieces(s[budget..], budget));
      ContentsOfCut(s[..budget]);
    }
  }

  lemma ContentsOfCut(piece: Sentence)
    ensures Contents([Cut(piece)]) == piece
  {
    ContentsOfOne(Cut(piece));
  }

  lemma ClosedKeepsTokens(p: Packing)
    ensures Contents(Closed(p)) == Contents(p.chunks) + Flat(p.open)
  {
    ContentsAppend(p.chunks, if p.open == [] then [] else [Joined(p.open)]);
    ContentsOfOne(Joined(p.open));
  }

  lemma FlatOfOneMore(lists: seq<Sentence>, s: Sentence)
    ensures Flat(lists + [s]) == Flat(lists) + s
  {
    assert (lists + [s])[..|lists|] == lists;
  }

  lemma CutKeepsTokens(p: Packing, s: Sentence, budget: nat)
    requires budget >= 1
    ensures Contents(Closed(Packing(Closed(p) + Pieces(s, budget), []))) == Contents(Closed(p)) + s
  {
    var cut := Closed(p) + Pieces(s, budget);
    ContentsAppend(Closed(p), Pieces(s, budget));
    PiecesKeepTokens(s, budget);
    assert Closed(Packing(cut, [])) == cut + [] == cut;
  }

  lemma FreshChunkKeepsTokens(p: Packing, s: Sentence)
    ensures Contents(Closed(Packing(Closed(p), [s]))) == Contents(Closed(p)) + s
  {
    ClosedKeepsTokens(Packing(Closed(p), [s]));
    FlatOfOneMore([], s);
    assert [] + [s] == [s] && Flat([]) == [];
    hide Contents, Closed;
    assert [] + s == s;
  }

  lemma OpenChunkKeepsTokens(p: Packing, s: Sentence)
    ensures Contents(Closed(Packing(p.chunks, p.open + [s]))) == Contents(Closed(p)) + s
  {
    ClosedKeepsTokens(p);
    ClosedKeepsTokens(Packing(p.chunks, p.open + [s]));
    FlatOfOneMore(p.open, s);
    hide Contents, Closed, Flat;
    assert Contents(p.chunks) + (Flat(p.open) + s) == Contents(p.chunks) + Flat(p.open) + s;
  }

  lemma AddKeepsTokens(p: Packing, s: Sentence, budget: nat)
    requires budget >= 1
    ensures Contents(Closed(Add(p, s, budget))) == Contents(Closed(p)) + s
  {
    hide Contents, Closed, Pieces, JoinedText;
    CutKeepsTokens(p, s, budget);
    FreshChunkKeepsTokens(p, s);
    OpenChunkKeepsTokens(p, s);
  }

  /** The chunks without the inserted separators are the input tokens in order. */
  lemma {:induction false} TokensAreKept(sentences: seq<Sentence>, budget: nat)
    requires budget >= 1
    ensures Contents(Chunks(sentences, budget)) == Flat(sentences)
  {
    if sentences != [] {
      TokensAreKept(sentences[..|sentences| - 1], budget);
      AddKeepsTokens(Packed(sentences[..|sentences| - 1], budget), sentences[|sentences| - 1], budget);
    }
  }

  // -- Fewest chunks ------------------------------------------------------------------------------

  /** One way to lay out sentences: a chunk of whole ones, or one sentence in pieces of its own. */
  datatype Block = Group(sentences: seq<Sentence>) | Split(parts: seq<seq<Token>>)

  predicate BlockFits(b: Block, budget: nat) {
    if b.Group? then b.sentences != [] && |JoinedText(b.sentences)| <= budget
    else b.parts != [] && forall part | part in b.parts :: |part| <= budget
  }

  function Laid(blocks: seq<Block>): seq<Sentence> {
    if blocks == [] then []
    else Laid(blocks[..|blocks| - 1]) + var b := blocks[|blocks| - 1]; if b.Group? then b.sentences else [Flat(b.parts)]
  }

  function ChunksOf(b: Block): nat { if b.Group? then 1 else |b.parts| }

  function Count(blocks: seq<Block>): nat {
    if blocks == [] then 0 else Count(blocks[..|blocks| - 1]) + ChunksOf(blocks[|blocks| - 1])
  }

  function NonEmpty(sentences: seq<Sentence>): seq<Sentence> {
    if sentences == [] then []
    else
      var init, s := NonEmpty(sentences[..|sentences| - 1]), sentences[|sentences| - 1];
      if s == [] then init else init + [s]
  }

  /** The sentences in order, laid out within the budget. */
  ghost predicate IsLayout(blocks: seq<Block>, sentences: seq<Sentence>, budget: nat) {
    Laid(blocks) == sentences && forall b | b in blocks :: BlockFits(b, budget)
  }

  /** How long the last chunk is for one more sentence: nothing is added to pieces. */
  function LastLength(blocks: seq<Block>, budget: nat): nat
    requires blocks != []
  {
    var b := blocks[|blocks| - 1];
    if b.Group? then |JoinedText(b.sentences)| else budget
  }

  /** The packing is no behind: no more chunks, and with as many the open one is no longer. */
  predicate NoBehind(p: Packing, blocks: seq<Block>, budget: nat) {
    && |Closed(p)| <= Count(blocks)
    && (blocks != [] && blocks[|blocks| - 1].Group? ==> p.open != [])
    && (p.open != [] && |Closed(p)| == Count(blocks) ==>
      blocks != [] && |JoinedText(p.open)| <= LastLength(blocks, budget))
  }

  lemma {:induction false} FewestPieces(s: Sentence, n: nat, budget: nat)
    requires budget >= 1 && |s| <= n * budget
    ensures |Pieces(s, budget)| <= n
  {
    if |s| > budget {
      assert n >= 2 && n * budget == (n - 1) * budget + budget;
      FewestPieces(s[budget..], n - 1, budget);
    } else if n == 0 {
      assert s == [];
    }
  }

  lemma {:induction false} PartsAreShort(parts: seq<seq<Token>>, budget: nat)
    requires forall part | part in parts :: |part| <= budget
    ensures |Flat(parts)| <= |parts| * budget
  {
    if parts != [] {
      PartsAreShort(parts[..|parts| - 1], budget);
      assert parts[|parts| - 1] in parts;
      assert |parts| * budget == (|parts| - 1) * budget + budget;
    }
  }

  lemma {:induction false} GroupIsLong(g: seq<Sentence>)
    requires g != []
    ensures |JoinedText(g)| >= |g[|g| - 1]|
  {
  }

  /** The layout without its last sentence: its group without it, or its block gone. */
  function Shorter(blocks: seq<Block>): seq<Block>
    requires blocks != []
  {
    var init, b := blocks[..|blocks| - 1], blocks[|blocks| - 1];
    if b.Group? && |b.sentences| > 1 then init + [Group(b.sentences[..|b.sentences| - 1])] else init
  }

  lemma ShorterIsLayout(blocks: seq<Block>, init: seq<Sentence>, s: Sentence, budget: nat)
    requires IsLayout(blocks, init + [s], budget)
    ensures blocks != [] && IsLayout(Shorter(blocks), init, budget)
    ensures var b := blocks[|blocks| - 1];
            BlockFits(b, budget) && if b.Group? then b.sentences[|b.sentences| - 1] == s else Flat(b.parts) == s
  {
    var before, b := blocks[..|blocks| - 1], blocks[|blocks| - 1];
    assert b in blocks;
    hide Laid, JoinedText, Flat;
    if b.Group? {
      var rest, last := b.sentences[..|b.sentences| - 1], b.sentences[|b.sentences| - 1];
      LaidInit(before, b, init, s);
      OneMore(rest, last);
      SameEnd(Laid(before) + rest, last, init, s);
      ShorterFits(blocks, budget);
      LaidShorter(blocks);
    } else {
      LaidInit(before, b, init, s);
      SameEnd(Laid(before), Flat(b.parts), init, s);
    }
  }

  lemma SameEnd(x: seq<Sentence>, a: Sentence, y: seq<Sentence>, b: Sentence)
    requires x + [a] == y + [b]
    ensures x == y && a == b
  {
    OneMore(x, a);
    OneMore(y, b);
  }

  lemma LaidInit(before: seq<Block>, b: Block, init: seq<Sentence>, s: Sentence)
    requires Laid(before + [b]) == init + [s] && (b.Group? ==> b.sentences != [])
    ensures b.Group? ==>
        Laid(before) + b.sentences[..|b.sentences| - 1] + [b.sentences[|b.sentences| - 1]] == init + [s]
    ensures b.Split? ==> Laid(before) + [Flat(b.parts)] == init + [s]
  {
    OneMore(before, b);
    hide Flat;
  }

  lemma LaidShorter(blocks: seq<Block>)
    requires blocks != [] && blocks[|blocks| - 1].Group? && blocks[|blocks| - 1].sentences != []
    ensures var g := blocks[|blocks| - 1].sentences;
            Laid(Shorter(blocks)) == Laid(blocks[..|blocks| - 1]) + g[..|g| - 1]
  {
    var before, g := blocks[..|blocks| - 1], blocks[|blocks| - 1].sentences;
    OneMore(before, Group(g[..|g| - 1]));
  }

  lemma ShorterFits(blocks: seq<Block>, budget: nat)
    requires blocks != [] && forall b | b in blocks :: BlockFits(b, budget)
    ensures forall b | b in Shorter(blocks) :: BlockFits(b, budget)
  {
    var b := blocks[|blocks| - 1];
    assert b in blocks;
    forall other | other in Shorter(blocks) ensures BlockFits(other, budget) {
      assert other in blocks || other == Group(b.sentences[..|b.sentences| - 1]);
    }
  }

  /** A sentence over the budget needs its pieces in any layout. */
  lemma BigSentenceIsNoBehind(p: Packing, blocks: seq<Block>, s: Sentence, budget: nat)
    requires budget >= 1 && |s| > budget && blocks != [] && NoBehind(p, Shorter(blocks), budget)
    requires var b := blocks[|blocks| - 1];
             BlockFits(b, budget) && if b.Group? then b.sentences[|b.sentences| - 1] == s else Flat(b.parts) == s
    ensures NoBehind(Add(p, s, budget), blocks, budget)
  {
    var b := blocks[|blocks| - 1];
    if b.Group? {
      GroupIsLong(b.sentences);
      assert false;
    } else {
      PartsAreShort(b.parts, budget);
      FewestPieces(s, |b.parts|, budget);
      hide Pieces, Flat, JoinedText;
    }
  }

  lemma SmallSentenceIsNoBehind(p: Packing, blocks: seq<Block>, s: Sentence, budget: nat)
    requires budget >= 1 && 0 < |s| <= budget && blocks != [] && NoBehind(p, Shorter(blocks), budget)
    requires var b := blocks[|blocks| - 1];
             BlockFits(b, budget) && if b.Group? then b.sentences[|b.sentences| - 1] == s else Flat(b.parts) == s
    requires p.open != [] ==> |JoinedText(p.open)| <= budget
    ensures NoBehind(Add(p, s, budget), blocks, budget)
  {
    var b, q := blocks[|blocks| - 1], Add(p, s, budget);
    OneMore(p.open, s);
    assert JoinedText([s]) == s;
    assert q.open != [] && (q.open == [s] || JoinedText(q.open) == JoinedText(p.open) + [SPACE] + s);
    if b.Group? && |b.sentences| > 1 {
      GroupIsLong(b.sentences);
      var shorter := Shorter(blocks);
      assert shorter[..|shorter| - 1] == blocks[..|blocks| - 1];
      assert JoinedText(b.sentences) == JoinedText(b.sentences[..|b.sentences| - 1]) + [SPACE] + s;
    }
    hide JoinedText, Flat, Pieces;
  }

  lemma {:induction false} GreedyIsNoBehind(sentences: seq<Sentence>, budget: nat, blocks: seq<Block>)
    requires budget >= 1 && IsLayout(blocks, NonEmpty(sentences), budget)
    ensures NoBehind(Packed(sentences, budget), blocks, budget)
  {
    if sentences == [] {
      NothingIsLaid(blocks, budget);
    } else {
      var init, s := sentences[..|sentences| - 1], sentences[|sentences| - 1];
      if s == [] {
        GreedyIsNoBehind(init, budget, blocks);
      } else {
        ShorterIsLayout(blocks, NonEmpty(init), s, budget);
        GreedyIsNoBehind(init, budget, Shorter(blocks));
        PackedFits(init, budget);
        var p := Packed(init, budget);
        hide NoBehind, Shorter, BlockFits, Add, Flat, IsLayout;
        if |s| > budget {
          BigSentenceIsNoBehind(p, blocks, s, budget);
        } else {
          SmallSentenceIsNoBehind(p, blocks, s, budget);
        }
      }
    }
  }

  lemma NothingIsLaid(blocks: seq<Block>, budget: nat)
    requires IsLayout(blocks, [], budget)
    ensures blocks == []
  {
    assert forall i | 0 <= i < |blocks| :: BlockFits(blocks[i], budget);
    hide Flat, JoinedText;
  }

  /**
    No layout within the budget needs fewer chunks: the sentences that are not empty, in
    order, in groups of whole ones and in pieces of single ones.
   */
  lemma FewestChunks(sentences: seq<Sentence>, budget: nat, blocks: seq<Block>)
    requires budget >= 1 && IsLayout(blocks, NonEmpty(sentences), budget)
    ensures |Texts(Chunks(sentences, budget))| <= Count(blocks)
  {
    TextsCount(Chunks(sentences, budget));
    GreedyIsNoBehind(sentences, budget, blocks);
  }

  lemma {:induction false} TextsCount(chunks: seq<Chunk>)
    ensures |Texts(chunks)| == |chunks|
  {
    if chunks != [] {
      TextsCount(chunks[..|chunks| - 1]);
    }
  }

  // -- The one greedy layout ----------------------------------------------------------------------

  /** A chunk's sentences stand in order with one separator, token 16, between any two. */
  lemma {:induction false} SentencesAreSeparated(a: seq<Sentence>, b: seq<Sentence>)
    requires a != [] && b != []
    ensures JoinedText(a + b) == JoinedText(a) + [16] + JoinedText(b)
    ensures |a| == 1 ==> JoinedText(a) == a[0]
  {
    InitOfAppend(a, b);
    if |b| > 1 {
      SentencesAreSeparated(a, b[..|b| - 1]);
      assert JoinedText(a) + [16] + JoinedText(b) ==
        JoinedText(a) + [16] + JoinedText(b[..|b| - 1]) + [16] + b[|b| - 1];
    } else {
      assert a + b[..0] == a;
    }
  }

  /** Whole sentences within the budget, or one sentence over it in full pieces and a rest. */
  predicate IsGreedyBlock(b: Block, budget: nat) {
    if b.Group? then b.sentences != [] && |JoinedText(b.sentences)| <= budget
    else
      var n := |b.parts| - 1;
      && n >= 0 && |Flat(b.parts)| > budget && 0 < |b.parts[n]| <= budget
      && forall i | 0 <= i < n :: |b.parts[i]| == budget
  }

  /** A new chunk begins only where the next sentence does not fit into the one before. */
  ghost predicate IsGreedy(blocks: seq<Block>, budget: nat) {
    && (forall b | b in blocks :: IsGreedyBlock(b, budget))
    && forall i, j | 0 <= i < j < |blocks| && j == i + 1 :: NoRoom(blocks[i], blocks[j], budget)
  }

  predicate NoRoom(a: Block, b: Block, budget: nat) {
    a.Group? && b.Group? && b.sentences != [] ==> |JoinedText(a.sentences)| + 1 + |b.sentences[0]| > budget
  }

  function TextsOf(blocks: seq<Block>): seq<seq<Token>> {
    if blocks == [] then []
    else
      var b := blocks[|blocks| - 1];
      TextsOf(blocks[..|blocks| - 1]) + if b.Group? then [JoinedText(b.sentences)] else b.parts
  }

  /** The packing is at the end of the layout. */
  ghost predicate IsAt(p: Packing, blocks: seq<Block>) {
    if blocks != [] && blocks[|blocks| - 1].Group? then
      p.open == blocks[|blocks| - 1].sentences != [] && Texts(p.chunks) == TextsOf(blocks[..|blocks| - 1])
    else p.open == [] && Texts(p.chunks) == TextsOf(blocks)
  }

  lemma {:induction false} PiecesAreFull(s: Sentence, parts: seq<seq<Token>>, budget: nat)
    requires budget >= 1 && s != [] && Flat(parts) == s && parts != []
    requires 0 < |parts[|parts| - 1]| <= budget && forall i | 0 <= i < |parts| - 1 :: |parts[i]| == budget
    ensures Texts(Pieces(s, budget)) == parts
  {
    FlatFirst(parts);
    if |parts| == 1 {
      assert Flat(parts[1..]) == [] && s == parts[0];
      TextsOfOne(Cut(s));
    } else {
      var rest := parts[1..];
      FlatFirst(rest);
      assert s[..budget] == parts[0] && s[budget..] == Flat(rest);
      if |rest| > 1 {
        assert |rest[0]| == budget;
      }
      PiecesAreFull(s[budget..], rest, budget);
      PiecesUnfold(s, budget);
      TextsAppend([Cut(s[..budget])], Pieces(s[budget..], budget));
      TextsOfOne(Cut(s[..budget]));
      assert parts == [parts[0]] + rest;
    }
  }

  lemma {:induction false} FlatFirst(lists: seq<seq<Token>>)
    requires lists != []
    ensures Flat(lists) == lists[0] + Flat(lists[1..])
  {
    if |lists| > 1 {
      var n := |lists| - 1;
      FlatFirst(lists[..n]);
      assert lists[..n][1..] == lists[1..][..n - 1];
    }
  }

  lemma ShorterIsGreedy(blocks: seq<Block>, budget: nat)
    requires IsGreedy(blocks, budget) && blocks != []
    ensures IsGreedy(Shorter(blocks), budget)
  {
    hide Flat;
    var shorter, n := Shorter(blocks), |blocks| - 1;
    var b := blocks[n];
    assert IsGreedyBlock(b, budget);
    forall other | other in shorter ensures IsGreedyBlock(other, budget) {
      assert other in blocks || other == Group(b.sentences[..|b.sentences| - 1]);
    }
    forall i, j | 0 <= i < j < |shorter| && j == i + 1 ensures NoRoom(shorter[i], shorter[j], budget) {
      assert NoRoom(blocks[i], blocks[j], budget);
    }
  }

  lemma GreedyFits(blocks: seq<Block>, sentences: seq<Sentence>, budget: nat)
    requires budget >= 1 && IsGreedy(blocks, budget) && Laid(blocks) == sentences
    ensures IsLayout(blocks, sentences, budget)
  {
    hide Flat, JoinedText;
    forall b | b in blocks ensures BlockFits(b, budget) {
      assert IsGreedyBlock(b, budget);
      forall part | b.Split? && part in b.parts ensures |part| <= budget {
        var i :| 0 <= i < |b.parts| && b.parts[i] == part;
      }
    }
  }

  /** One sentence more, by how it ends the layout. */
  lemma OneSentenceMore(p: Packing, blocks: seq<Block>, s: Sentence, budget: nat)
    requires budget >= 1 && s != [] && blocks != [] && IsGreedy(blocks, budget) && IsAt(p, Shorter(blocks))
    requires var b := blocks[|blocks| - 1];
             if b.Group? then b.sentences != [] && b.sentences[|b.sentences| - 1] == s else Flat(b.parts) == s
    ensures IsAt(Add(p, s, budget), blocks)
  {
    hide Add, Texts, TextsOf, Pieces, IsAt;
    var before, b := blocks[..|blocks| - 1], blocks[|blocks| - 1];
    assert IsGreedyBlock(b, budget);
    if b.Split? {
      SplitSentenceMore(p, before, b.parts, s, budget);
    } else {
      GroupIsLong(b.sentences);
      if |b.sentences| > 1 {
        GroupGoesOn(p, before, b.sentences, s, budget);
      } else {
        assert b.sentences == [s] && JoinedText([s]) == s;
        if before != [] {
          assert NoRoom(before[|before| - 1], b, budget);
        }
        GroupBegins(p, before, s, budget);
      }
    }
    assert blocks == before + [b];
  }

  lemma SplitSentenceMore(p: Packing, before: seq<Block>, parts: seq<seq<Token>>, s: Sentence, budget: nat)
    requires budget >= 1 && IsGreedyBlock(Split(parts), budget) && Flat(parts) == s && IsAt(p, before)
    ensures IsAt(Add(p, s, budget), before + [Split(parts)])
  {
    PiecesAreFull(s, parts, budget);
    TextsAppend(Closed(p), Pieces(s, budget));
    AllTextsAt(p, before);
    OneMore(before, Split(parts));
    hide Pieces, Texts, Closed, IsAt, Flat, JoinedText;
    EndsSplit(Packing(Closed(p) + Pieces(s, budget), []), before, parts);
  }

  lemma EndsSplit(p: Packing, before: seq<Block>, parts: seq<seq<Token>>)
    requires p.open == [] && Texts(p.chunks) == TextsOf(before) + parts
    ensures IsAt(p, before + [Split(parts)])
  {
    OneMore(before, Split(parts));
  }

  lemma AllTextsAt(p: Packing, blocks: seq<Block>)
    requires IsAt(p, blocks)
    ensures Texts(Closed(p)) == TextsOf(blocks)
  {
    ClosedTexts(p);
    hide Closed, JoinedText;
    assert Texts(p.chunks) + [] == Texts(p.chunks);
  }

  lemma GroupGoesOn(p: Packing, before: seq<Block>, g: seq<Sentence>, s: Sentence, budget: nat)
    requires budget >= 1 && s != [] && |g| > 1 && g[|g| - 1] == s && |s| <= |JoinedText(g)| <= budget
    requires IsAt(p, before + [Group(g[..|g| - 1])])
    ensures IsAt(Add(p, s, budget), before + [Group(g)])
  {
    var rest := g[..|g| - 1];
    OneMore(before, Group(rest));
    OneMore(before, Group(g));
    assert JoinedText(g) == JoinedText(rest) + [SPACE] + s;
    assert rest + [s] == g;
    hide JoinedText, Texts, TextsOf, Pieces;
  }

  lemma GroupBegins(p: Packing, before: seq<Block>, s: Sentence, budget: nat)
    requires budget >= 1 && 0 < |s| <= budget && IsAt(p, before)
    requires before != [] ==> NoRoom(before[|before| - 1], Group([s]), budget)
    ensures IsAt(Add(p, s, budget), before + [Group([s])])
  {
    AllTextsAt(p, before);
    OneMore(before, Group([s]));
    hide JoinedText, Texts, TextsOf, Pieces;
    assert p.open != [] ==> |JoinedText(p.open)| + 1 + |s| > budget;
    assert p.open == [] ==> Closed(p) == p.chunks;
  }

  lemma {:induction false} GreedyIsReached(sentences: seq<Sentence>, budget: nat, blocks: seq<Block>)
    requires budget >= 1 && IsGreedy(blocks, budget) && Laid(blocks) == NonEmpty(sentences)
    ensures IsAt(Packed(sentences, budget), blocks)
  {
    hide IsAt, IsGreedy, IsLayout, Laid, Flat, JoinedText, Add, BlockFits, Shorter;
    if sentences == [] {
      GreedyFits(blocks, [], budget);
      NothingIsLaid(blocks, budget);
      StartIsAtNothing();
    } else {
      var init, s := sentences[..|sentences| - 1], sentences[|sentences| - 1];
      if s == [] {
        GreedyIsReached(init, budget, blocks);
        NothingIsAdded(Packed(init, budget), budget);
      } else {
        GreedyFits(blocks, NonEmpty(init) + [s], budget);
        ShorterIsLayout(blocks, NonEmpty(init), s, budget);
        ShorterIsGreedy(blocks, budget);
        LayoutIsLaid(Shorter(blocks), NonEmpty(init), budget);
        GreedyIsReached(init, budget, Shorter(blocks));
        LastIsNotEmpty(blocks, budget);
        OneSentenceMore(Packed(init, budget), blocks, s, budget);
      }
    }
  }

  lemma LastIsNotEmpty(blocks: seq<Block>, budget: nat)
    requires IsGreedy(blocks, budget) && blocks != []
    ensures var b := blocks[|blocks| - 1]; b.Group? ==> b.sentences != []
  {
    assert IsGreedyBlock(blocks[|blocks| - 1], budget);
  }

  lemma LayoutIsLaid(blocks: seq<Block>, sentences: seq<Sentence>, budget: nat)
    requires IsLayout(blocks, sentences, budget)
    ensures Laid(blocks) == sentences
  {
  }

  lemma StartIsAtNothing()
    ensures IsAt(Packing([], []), [])
  {
  }

  lemma NothingIsAdded(p: Packing, budget: nat)
    requires budget >= 1
    ensures Add(p, [], budget) == p
  {
  }

  /**
    The chunks are those of the greedy layout, whatever gives it: whole sentences while the
    next one fits, and a sentence over the budget in full pieces and a rest.
   */
  lemma GreedyIsUnique(sentences: seq<Sentence>, budget: nat, blocks: seq<Block>)
    requires budget >= 1 && IsGreedy(blocks, budget) && Laid(blocks) == NonEmpty(sentences)
    ensures Texts(Chunks(sentences, budget)) == TextsOf(blocks)
  {
    GreedyIsReached(sentences, budget, blocks);
    AllTextsAt(Packed(sentences, budget), blocks);
  }

  // -- Stretches ---------------------------------------------------------------------------------------

  function After(p: Packing, sentences: seq<Sentence>, budget: nat): Packing
    requires budget >= 1
  {
    if sentences == [] then p
    else Add(After(p, sentences[..|sentences| - 1], budget), sentences[|sentences| - 1], budget)
  }

  lemma {:induction false} PackedInTwo(a: seq<Sentence>, b: seq<Sentence>, budget: nat)
    requires budget >= 1
    ensures Packed(a + b, budget) == After(Packed(a, budget), b, budget)
  {
    if b == [] {
      assert a + b == a;
    } else {
      InitOfAppend(a, b);
      hide Add;
      PackedInTwo(a, b[..|b| - 1], budget);
    }
  }

  /** Finished chunks do not matter to what follows. */
  lemma {:induction false} ChunksDoNotMatter(done: seq<Chunk>, sentences: seq<Sentence>, budget: nat)
    requires budget >= 1
    ensures After(Packing(done, []), sentences, budget)
         == Packing(done + Packed(sentences, budget).chunks, Packed(sentences, budget).open)
  {
    if sentences == [] {
      assert done + [] == done;
    } else {
      var init, s := sentences[..|sentences| - 1], sentences[|sentences| - 1];
      ChunksDoNotMatter(done, init, budget);
      AddAfter(done, Packed(init, budget), s, budget);
    }
  }

  lemma AddAfter(done: seq<Chunk>, p: Packing, s: Sentence, budget: nat)
    requires budget >= 1
    ensures Add(Packing(done + p.chunks, p.open), s, budget) ==
        Packing(done + Add(p, s, budget).chunks, Add(p, s, budget).open)
  {
    var q := Packing(done + p.chunks, p.open);
    assert Closed(q) == done + Closed(p);
    assert Closed(q) + Pieces(s, budget) == done + (Closed(p) + Pieces(s, budget));
    hide JoinedText, Pieces;
  }

  /** A sentence over the budget is cut by itself; the stretches around it are packed for themselves. */
  lemma StretchesAreApart(a: seq<Sentence>, big: Sentence, b: seq<Sentence>, budget: nat)
    requires budget >= 1 && |big| > budget
    ensures Chunks(a + [big] + b, budget) == Chunks(a, budget) + Pieces(big, budget) + Chunks(b, budget)
  {
    PackedInTwo(a + [big], b, budget);
    assert (a + [big])[..|a|] == a;
    var done := Chunks(a, budget) + Pieces(big, budget);
    assert Packed(a + [big], budget) == Packing(done, []);
    ChunksDoNotMatter(done, b, budget);
    hide Packed, Pieces;
  }

  /** Empty sentences leave no trace. */
  lemma EmptySentencesAreSkipped(a: seq<Sentence>, b: seq<Sentence>, budget: nat)
    requires budget >= 1
    ensures Chunks(a + [[]] + b, budget) == Chunks(a + b, budget)
  {
    PackedInTwo(a + [[]], b, budget);
    PackedInTwo(a, b, budget);
    assert (a + [[]])[..|a|] == a;
  }
}
