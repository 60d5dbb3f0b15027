/** The chunker of the ingestion pipeline (`split_text_into_chunks`):
    whitespace is collapsed, the text is split into words and the words are
    packed greedily into chunks of `max_chunk_size` words. */
module Chunker {
  import opened Text

  /** Words per chunk used by the ingestion pipeline. */
  const MaxChunkSize: int := 500

  /** Reference packing: consecutive groups of exactly `max` words, the
      last group holding the remainder. */
  function Groups(words: seq<string>, max: nat): seq<seq<string>>
    requires max >= 1
    decreases |words|
  {
    if |words| == 0 then []
    else if |words| <= max then [words]
    else [words[..max]] + Groups(words[max..], max)
  }

  function Flatten(gs: seq<seq<string>>): seq<string> {
    if |gs| == 0 then [] else gs[0] + Flatten(gs[1..])
  }

  /** `' '.join` applied to every group. */
  function JoinEach(gs: seq<seq<string>>): (r: seq<string>)
    ensures |r| == |gs|
    ensures forall i :: 0 <= i < |gs| ==> r[i] == Join(" ", gs[i])
  {
    if |gs| == 0 then [] else [Join(" ", gs[0])] + JoinEach(gs[1..])
  }

  /** The chunks `split_text_into_chunks(text, max)` returns. For `max <= 0`
      the loop never accepts a word into the open chunk, so it first emits
      the empty chunk and then one chunk per word. */
  function ChunkTexts(text: string, max: int): seq<string> {
    var ws := Words(Normalize(text));
    if |ws| == 0 then []
    else if max >= 1 then JoinEach(Groups(ws, max))
    else [""] + ws
  }

  /** The greedy packing loop of the source, over the words of the
      normalised text. */
  method SplitTextIntoChunks(text: string, maxChunkSize: int) returns (chunks: seq<string>)
    ensures chunks == ChunkTexts(text, maxChunkSize)
  {
    var normalized := Normalize(text);
    var words := Words(normalized);
    chunks := [];
    var current: seq<string> := [];
    var currentSize := 0;
    ghost var groups: seq<seq<string>> := [];
    var i := 0;
    while i < |words|
      invariant i <= |words|
      invariant currentSize == |current|
      invariant Packed(words, i, maxChunkSize, chunks, current, groups)
    {
      var word := words[i];
      if currentSize < maxChunkSize {
        PackAppend(words, i, maxChunkSize, chunks, current, groups);
        current := current + [word];
        currentSize := currentSize + 1;
      } else {
        PackClose(words, i, maxChunkSize, chunks, current, groups);
        chunks := chunks + [Join(" ", current)];
        groups := groups + [current];
        current := [word];
        currentSize := 1;
      }
      i := i + 1;
    }
    PackFinish(text, maxChunkSize, chunks, current, groups);
    if |current| > 0 {
      chunks := chunks + [Join(" ", current)];
    }
  }

  /** The state of the packing loop after `i` words: `chunks` are the closed
      chunks and `current` the open one. */
  ghost predicate Packed(words: seq<string>, i: nat, max: int, chunks: seq<string>,
                         current: seq<string>, groups: seq<seq<string>>)
  {
    && i <= |words|
    && (if max >= 1 then PackedGroups(words, i, max, chunks, current, groups)
        else PackedSingles(words, i, chunks, current))
  }

  /** With `max >= 1` the closed chunks are full groups (`groups`, ghost) and
      the open chunk holds 1..max words once a word has been read. */
  ghost predicate PackedGroups(words: seq<string>, i: nat, max: nat, chunks: seq<string>,
                               current: seq<string>, groups: seq<seq<string>>)
    requires i <= |words|
  {
    && chunks == JoinEach(groups)
    && (forall g :: g in groups ==> |g| == max)
    && Flatten(groups) + current == words[..i]
    && (i > 0 ==> 1 <= |current| <= max)
  }

  /** With `max <= 0` every word closes the chunk before it, so the closed
      chunks are the empty chunk followed by all words but the last. */
  ghost predicate PackedSingles(words: seq<string>, i: nat, chunks: seq<string>, current: seq<string>)
    requires i <= |words|
  {
    if i == 0 then chunks == [] && current == []
    else chunks == [""] + words[..i - 1] && current == [words[i - 1]]
  }

  lemma PackAppend(words: seq<string>, i: nat, max: int, chunks: seq<string>,
                   current: seq<string>, groups: seq<seq<string>>)
    requires Packed(words, i, max, chunks, current, groups)
    requires i < |words| && |current| < max
    ensures Packed(words, i + 1, max, chunks, current + [words[i]], groups)
  {
    assert words[..i + 1] == words[..i] + [words[i]];
  }

  lemma PackClose(words: seq<string>, i: nat, max: int, chunks: seq<string>,
                  current: seq<string>, groups: seq<seq<string>>)
    requires Packed(words, i, max, chunks, current, groups)
    requires i < |words| && |current| >= max
    ensures Packed(words, i + 1, max, chunks + [Join(" ", current)], [words[i]], groups + [current])
  {
    if max >= 1 {
      PackCloseGroups(words, i, max, chunks, current, groups);
    } else {
      PackCloseSingles(words, i, chunks, current);
    }
  }

  lemma PackCloseGroups(words: seq<string>, i: nat, max: nat, chunks: seq<string>,
                        current: seq<string>, groups: seq<seq<string>>)
    requires i < |words| && max >= 1 && |current| >= max
    requires PackedGroups(words, i, max, chunks, current, groups)
    ensures PackedGroups(words, i + 1, max, chunks + [Join(" ", current)], [words[i]], groups + [current])
  {
    assert words[..i + 1] == words[..i] + [words[i]];
    FlattenSnoc(groups, current);
    JoinEachSnoc(groups, current);
  }

  lemma PackCloseSingles(words: seq<string>, i: nat, chunks: seq<string>, current: seq<string>)
    requires i < |words| && PackedSingles(words, i, chunks, current)
    ensures PackedSingles(words, i + 1, chunks + [Join(" ", current)], [words[i]])
  {
    if i > 0 {
      assert words[..i] == words[..i - 1] + [words[i - 1]];
    }
  }

  lemma PackFinish(text: string, max: int, chunks: seq<string>,
                   current: seq<string>, groups: seq<seq<string>>)
    requires Packed(Words(Normalize(text)), |Words(Normalize(text))|, max, chunks, current, groups)
    ensures ChunkTexts(text, max) == if |current| > 0 then chunks + [Join(" ", current)] else chunks
  {
    var words := Words(Normalize(text));
    var n := |words|;
    if max >= 1 {
      PackFinishGroups(words, max, chunks, current, groups);
    } else {
      PackFinishSingles(words, chunks, current);
    }
  }

  lemma PackFinishGroups(words: seq<string>, max: nat, chunks: seq<string>,
                         current: seq<string>, groups: seq<seq<string>>)
    requires max >= 1 && PackedGroups(words, |words|, max, chunks, current, groups)
    ensures |words| == 0 ==> chunks == [] && current == []
    ensures |words| > 0 ==> JoinEach(Groups(words, max)) == chunks + [Join(" ", current)]
  {
    assert words[..|words|] == words;
    if |words| > 0 {
      GroupsOfFullPrefix(groups, current, max);
      JoinEachSnoc(groups, current);
    } else {
      FlattenEmpty(groups);
    }
  }

  lemma FlattenEmpty(gs: seq<seq<string>>)
    requires Flatten(gs) == [] && forall g :: g in gs ==> |g| > 0
    ensures gs == []
  {
  }

  lemma PackFinishSingles(words: seq<string>, chunks: seq<string>, current: seq<string>)
    requires PackedSingles(words, |words|, chunks, current)
    ensures |words| == 0 ==> chunks == [] && current == []
    ensures |words| > 0 ==> chunks + [Join(" ", current)] == [""] + words
  {
    var n := |words|;
    if n > 0 {
      assert Join(" ", current) == words[n - 1];
      assert words == words[..n - 1] + [words[n - 1]];
    }
  }

  // ---------------------------------------------------------------------
  // Facts about the packing

  lemma {:induction false} FlattenSnoc(gs: seq<seq<string>>, g: seq<string>)
    ensures Flatten(gs + [g]) == Flatten(gs) + g
    decreases |gs|
  {
    if |gs| == 0 {
      assert [g][1..] == [];
    } else {
      assert (gs + [g])[1..] == gs[1..] + [g];
      FlattenSnoc(gs[1..], g);
    }
  }

  lemma JoinEachSnoc(gs: seq<seq<string>>, g: seq<string>)
    ensures JoinEach(gs + [g]) == JoinEach(gs) + [Join(" ", g)]
  {
  }

  /** Groups that are all full, followed by a partial group of 1..max words,
      are exactly what the reference packing produces from their words. */
  lemma {:induction false} GroupsOfFullPrefix(gs: seq<seq<string>>, last: seq<string>, max: nat)
    requires max >= 1 && 1 <= |last| <= max
    requires forall g :: g in gs ==> |g| == max
    ensures Groups(Flatten(gs) + last, max) == gs + [last]
    decreases |gs|
  {
    if |gs| == 0 {
      assert Flatten(gs) + last == last;
    } else {
      var ws := Flatten(gs) + last;
      assert gs[0] in gs;
      assert ws == gs[0] + (Flatten(gs[1..]) + last);
      assert ws[..max] == gs[0];
      assert ws[max..] == Flatten(gs[1..]) + last;
      forall g | g in gs[1..] ensures |g| == max { assert g in gs; }
      GroupsOfFullPrefix(gs[1..], last, max);
      assert gs == [gs[0]] + gs[1..];
    }
  }

  /** The packing neither loses nor repeats a word. */
  lemma {:induction false} GroupsFlatten(ws: seq<string>, max: nat)
    requires max >= 1
    ensures Flatten(Groups(ws, max)) == ws
    decreases |ws|
  {
    if |ws| > max {
      GroupsFlatten(ws[max..], max);
      assert ([ws[..max]] + Groups(ws[max..], max))[1..] == Groups(ws[max..], max);
      assert ws == ws[..max] + ws[max..];
    } else if |ws| > 0 {
      assert [ws][1..] == [];
    }
  }

  /** Every group but the last holds exactly `max` words; the last holds
      between 1 and `max`. */
  lemma {:induction false} GroupsSizes(ws: seq<string>, max: nat)
    requires max >= 1
    ensures var gs := Groups(ws, max);
      && (forall i :: 0 <= i < |gs| - 1 ==> |gs[i]| == max)
      && (|gs| > 0 ==> 1 <= |gs[|gs| - 1]| <= max)
    decreases |ws|
  {
    if |ws| > max {
      GroupsSizes(ws[max..], max);
      var rest := Groups(ws[max..], max);
      assert |rest| > 0;
      var gs := Groups(ws, max);
      assert gs == [ws[..max]] + rest;
      forall i | 0 <= i < |gs| - 1 ensures |gs[i]| == max {
        if i > 0 { assert gs[i] == rest[i - 1]; }
      }
    }
  }

  /** The number of groups is the word count divided by `max`, rounded up:
      the fewest groups of `max` words that hold every word. */
  lemma {:induction false} GroupsCount(ws: seq<string>, max: nat)
    requires max >= 1
    ensures |ws| <= |Groups(ws, max)| * max < |ws| + max
    decreases |ws|
  {
    if |ws| > max {
      var rest := Groups(ws[max..], max);
      GroupsCount(ws[max..], max);
      assert |Groups(ws, max)| == 1 + |rest|;
      assert (1 + |rest|) * max == max + |rest| * max;
    } else if |ws| > 0 {
      assert |Groups(ws, max)| == 1;
    }
  }

  // ---------------------------------------------------------------------
  // Words of a joined chunk

  /** Joining words with single spaces yields text that starts with a word. */
  lemma {:induction false} JoinWordsStartsWithWord(ws: seq<string>)
    requires forall i :: 0 <= i < |ws| ==> IsWord(ws[i])
    ensures |ws| > 0 ==> |Join(" ", ws)| > 0 && !IsSpace(Join(" ", ws)[0])
  {
    if |ws| > 1 {
      assert Join(" ", ws) == ws[0] + " " + Join(" ", ws[1..]);
      assert Join(" ", ws)[0] == ws[0][0];
    }
  }

  /** `' '.join(ws).split() == ws` for a list of words. */
  lemma {:induction false} WordsOfJoin(ws: seq<string>)
    requires forall i :: 0 <= i < |ws| ==> IsWord(ws[i])
    ensures Words(Join(" ", ws)) == ws
    decreases |ws|
  {
    if |ws| == 1 {
      WordsOfSingle(ws[0]);
    } else if |ws| > 1 {
      WordsOfJoin(ws[1..]);
      JoinWordsStartsWithWord(ws[1..]);
      WordsConsWord(ws[0], Join(" ", ws[1..]));
      assert ws == [ws[0]] + ws[1..];
    }
  }

  /** A word followed by a space and more text splits off as the first word. */
  lemma WordsConsWord(w: string, r: string)
    requires IsWord(w) && |r| > 0 && !IsSpace(r[0])
    ensures Words(w + " " + r) == [w] + Words(r)
  {
    var t := w + " " + r;
    SpanWordOfWordPrefix(w, " " + r);
    assert t == w + (" " + r);
    assert t[..|w|] == w;
    WordsStep(t);
    assert t[|w|..] == " " + r;
    WordsSkipSpace(" " + r);
    assert (" " + r)[1..] == r;
  }

  lemma {:induction false} SpanWordOfWordPrefix(w: string, r: string)
    requires IsWord(w) && |r| > 0 && IsSpace(r[0])
    ensures SpanWord(w + r) == |w|
    decreases |w|
  {
    if |w| > 1 {
      assert (w + r)[1..] == w[1..] + r;
      SpanWordOfWordPrefix(w[1..], r);
    } else {
      assert (w + r)[1..] == r;
    }
  }

  // ---------------------------------------------------------------------
  // Properties of the chunks

  /** For `max >= 1`, joining the chunks with single spaces gives the input
      with whitespace runs collapsed and the ends trimmed, and no chunk is
      empty. */
  lemma ChunksRoundTrip(text: string, max: int)
    requires max >= 1
    ensures Join(" ", ChunkTexts(text, max)) == Normalize(text)
    ensures forall i :: 0 <= i < |ChunkTexts(text, max)| ==> |ChunkTexts(text, max)[i]| > 0
  {
    var n := Normalize(text);
    var ws := Words(n);
    NormalizeIsNormal(text);
    JoinWordsOfNormal(n);
    var gs := Groups(ws, max);
    GroupsFlatten(ws, max);
    GroupsSizes(ws, max);
    forall i | 0 <= i < |gs| ensures |gs[i]| > 0 && |Join(" ", gs[i])| > 0 {
      if i < |gs| - 1 { assert |gs[i]| == max; }
      WordsInGroups(ws, max, i);
      JoinWordsStartsWithWord(gs[i]);
    }
    JoinOfJoinEach(gs);
  }

  /** Every word of a group is a word of the packed list. */
  lemma WordsInGroups(ws: seq<string>, max: nat, i: nat)
    requires max >= 1 && forall k :: 0 <= k < |ws| ==> IsWord(ws[k])
    requires i < |Groups(ws, max)|
    ensures forall k :: 0 <= k < |Groups(ws, max)[i]| ==> IsWord(Groups(ws, max)[i][k])
    decreases |ws|
  {
    if |ws| > max && i > 0 {
      WordsInGroups(ws[max..], max, i - 1);
    }
  }

  /** Joining the joined groups with single spaces is joining all their words. */
  lemma {:induction false} JoinOfJoinEach(gs: seq<seq<string>>)
    requires forall i :: 0 <= i < |gs| ==> |gs[i]| > 0
    ensures Join(" ", JoinEach(gs)) == Join(" ", Flatten(gs))
    decreases |gs|
  {
    if |gs| > 0 {
      JoinAppend(gs[0], Flatten(gs[1..]));
      if |gs| > 1 {
        JoinOfJoinEach(gs[1..]);
        assert JoinEach(gs) == [Join(" ", gs[0])] + JoinEach(gs[1..]);
        JoinCons(" ", Join(" ", gs[0]), JoinEach(gs[1..]));
        assert |Flatten(gs[1..])| > 0 by { assert |gs[1]| > 0; }
      } else {
        assert Flatten(gs[1..]) == [];
        assert gs[0] + [] == gs[0];
      }
    }
  }

  /** `' '.join(a + b) == ' '.join(a) + ' ' + ' '.join(b)` for non-empty parts. */
  lemma {:induction false} JoinAppend(a: seq<string>, b: seq<string>)
    requires |a| > 0
    ensures |b| > 0 ==> Join(" ", a + b) == Join(" ", a) + " " + Join(" ", b)
    ensures |b| == 0 ==> Join(" ", a + b) == Join(" ", a)
    decreases |a|
  {
    if |b| == 0 {
      assert a + b == a;
    } else if |a| == 1 {
      JoinCons(" ", a[0], b);
      assert a + b == [a[0]] + b;
    } else {
      JoinAppend(a[1..], b);
      assert (a + b)[1..] == a[1..] + b;
      JoinCons(" ", a[0], a[1..] + b);
    }
  }

  /** For `max >= 1` every chunk but the last holds exactly `max` words, the
      last holds 1..max words, and there are ceil(words / max) chunks. */
  lemma ChunkWordCounts(text: string, max: int)
    requires max >= 1
    ensures var cs := ChunkTexts(text, max);
      && |Words(Normalize(text))| <= |cs| * max < |Words(Normalize(text))| + max
      && (forall i :: 0 <= i < |cs| - 1 ==> |Words(cs[i])| == max)
      && (|cs| > 0 ==> 1 <= |Words(cs[|cs| - 1])| <= max)
  {
    var ws := Words(Normalize(text));
    var gs := Groups(ws, max);
    GroupsCount(ws, max);
    GroupsSizes(ws, max);
    forall i | 0 <= i < |gs| ensures Words(Join(" ", gs[i])) == gs[i] {
      WordsInGroups(ws, max, i);
      WordsOfJoin(gs[i]);
    }
  }

  /** The chunk list is empty exactly when the text is empty or all
      whitespace, whatever the chunk size. */
  lemma ChunksEmptyIff(text: string, max: int)
    ensures ChunkTexts(text, max) == [] <==> AllSpace(text)
  {
    var n := Normalize(text);
    NormalizeEmptyIff(text);
    NormalizeIsNormal(text);
    WordsEmptyIff(n);
    if !AllSpace(text) {
      assert !IsSpace(n[0]);
      if max >= 1 { assert |Groups(Words(n), max)| > 0; }
    }
  }

  /** With `max <= 0` and some text, the first chunk is empty and every
      word becomes a chunk of its own. */
  lemma ChunksNonPositiveMax(text: string, max: int)
    requires max <= 0 && !AllSpace(text)
    ensures var cs := ChunkTexts(text, max);
      && cs[0] == ""
      && cs[1..] == Words(Normalize(text))
  {
    ChunksEmptyIff(text, max);
  }
}
