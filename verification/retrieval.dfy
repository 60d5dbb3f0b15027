/** Keyword retrieval (`retrieve_relevant_context`): the context string the
    chat layer puts into the prompt. A tenant without a processed document
    gets a fixed sentinel; otherwise every chunk of the tenant is scored by
    the query keywords it contains, the matching chunks are ranked by a
    stable descending sort and the best `num_results` are joined with a
    blank line. */
module Retrieval {
  import opened Text

  const NoDocuments: string := "No processed documents available for this tenant."
  const NoRelevant: string := "No relevant information found in the available documents."
  const RetrievalFailed: string := "Error retrieving document context."

  /** The eleven stop words removed from the query. */
  const StopWords: set<string> := {"a", "an", "the", "and", "or", "but", "is", "are", "in", "to", "for"}

  /** `num_results` when the chat layer does not pass one. */
  const DefaultNumResults: int := 5

  /** The columns of a `documents` row that retrieval reads. */
  datatype DocRow = DocRow(id: string, tenantId: string, isProcessed: int, embeddingStatus: string)

  /** A `document_chunks` row. */
  datatype ChunkRow = ChunkRow(id: string, documentId: string, tenantId: string, content: string, chunkIndex: int)

  /** Which of the two store queries raises, if any. */
  datatype Fault = NoFault | DocsQueryFault | ChunksQueryFault

  /** A matching chunk with its relevance score. */
  datatype Scored = Scored(chunk: ChunkRow, score: nat)

  // ---------------------------------------------------------------------
  // Store queries

  /** `documents` filtered by `tenant_id` and `is_processed = 1`, in table order. */
  function ProcessedDocs(docs: seq<DocRow>, tenant: string): (r: seq<DocRow>)
    ensures forall i :: 0 <= i < |r| ==> r[i] in docs && r[i].tenantId == tenant && r[i].isProcessed == 1
    ensures forall d :: d in docs && d.tenantId == tenant && d.isProcessed == 1 ==> d in r
  {
    if |docs| == 0 then []
    else
      var rest := ProcessedDocs(docs[1..], tenant);
      if docs[0].tenantId == tenant && docs[0].isProcessed == 1 then [docs[0]] + rest else rest
  }

  /** Whether the tenant owns at least one processed document. */
  predicate HasProcessed(docs: seq<DocRow>, tenant: string) {
    exists d :: d in docs && d.tenantId == tenant && d.isProcessed == 1
  }

  /** `document_chunks` filtered by `tenant_id`, in table order. */
  function TenantChunks(chunks: seq<ChunkRow>, tenant: string): (r: seq<ChunkRow>)
    ensures forall i :: 0 <= i < |r| ==> r[i] in chunks && r[i].tenantId == tenant
    ensures forall c :: c in chunks && c.tenantId == tenant ==> c in r
  {
    if |chunks| == 0 then []
    else
      var rest := TenantChunks(chunks[1..], tenant);
      if chunks[0].tenantId == tenant then [chunks[0]] + rest else rest
  }

  // ---------------------------------------------------------------------
  // Query keywords and scores

  /** `re.sub(r'\s+', ' ', query).lower().strip().split()`. */
  function QueryTokens(query: string): seq<string> {
    Words(Strip(Lower(Collapse(query))))
  }

  /** The tokens that are not stop words, in order, repeats kept. */
  function RemoveStopWords(ws: seq<string>): (r: seq<string>)
    ensures |r| <= |ws|
    ensures forall w :: w in r <==> w in ws && w !in StopWords
  {
    if |ws| == 0 then []
    else
      var rest := RemoveStopWords(ws[1..]);
      assert forall w :: w in ws <==> w == ws[0] || w in ws[1..];
      if ws[0] in StopWords then rest else [ws[0]] + rest
  }

  /** Filtering keeps order and repeats: it works word by word, so the
      words of a concatenation are those of each part, in turn. */
  lemma {:induction false} RemoveStopWordsAppend(a: seq<string>, b: seq<string>)
    ensures RemoveStopWords(a + b) == RemoveStopWords(a) + RemoveStopWords(b)
  {
    if |a| == 0 {
      assert a + b == b;
    } else {
      assert (a + b)[1..] == a[1..] + b;
      RemoveStopWordsAppend(a[1..], b);
    }
  }

  /** One word is kept exactly when it is not a stop word. */
  lemma RemoveStopWordsOne(w: string)
    ensures RemoveStopWords([w]) == if w in StopWords then [] else [w]
  {
    assert [w][1..] == [];
  }

  function Keywords(query: string): seq<string> {
    RemoveStopWords(QueryTokens(query))
  }

  /** How many entries of `keywords` (repeats counted) occur in `text`. */
  function MatchCount(keywords: seq<string>, text: string): (n: nat)
    ensures n <= |keywords|
  {
    if |keywords| == 0 then 0
    else (if Contains(text, keywords[0]) then 1 else 0) + MatchCount(keywords[1..], text)
  }

  /** The relevance score of a chunk: keywords found in its lowercased content. */
  function Score(keywords: seq<string>, c: ChunkRow): nat {
    MatchCount(keywords, Lower(c.content))
  }

  /** The chunks with a positive score, in load order, paired with the score. */
  function ScoreAll(keywords: seq<string>, chunks: seq<ChunkRow>): (r: seq<Scored>)
    ensures |r| <= |chunks|
    ensures forall i :: 0 <= i < |r| ==> r[i].chunk in chunks && r[i].score == Score(keywords, r[i].chunk) > 0
    ensures forall c :: c in chunks && Score(keywords, c) > 0 ==> Scored(c, Score(keywords, c)) in r
  {
    if |chunks| == 0 then []
    else
      var rest := ScoreAll(keywords, chunks[1..]);
      var s := Score(keywords, chunks[0]);
      if s > 0 then [Scored(chunks[0], s)] + rest else rest
  }

  /** Scoring keeps the chunks' order and repeats: the scored entries of a
      concatenation are those of each part, in turn. */
  lemma {:induction false} ScoreAllAppend(keywords: seq<string>, a: seq<ChunkRow>, b: seq<ChunkRow>)
    ensures ScoreAll(keywords, a + b) == ScoreAll(keywords, a) + ScoreAll(keywords, b)
  {
    if |a| == 0 {
      assert a + b == b;
    } else {
      assert (a + b)[1..] == a[1..] + b;
      ScoreAllAppend(keywords, a[1..], b);
    }
  }

  /** One chunk yields one entry with its score when that score is positive,
      and none otherwise. */
  lemma ScoreAllOne(keywords: seq<string>, c: ChunkRow)
    ensures ScoreAll(keywords, [c]) == if Score(keywords, c) > 0 then [Scored(c, Score(keywords, c))] else []
  {
    assert [c][1..] == [];
  }

  // ---------------------------------------------------------------------
  // Stable descending sort

  /** Scores never increase along the sequence. */
  predicate SortedDesc(s: seq<Scored>) {
    forall i, j :: 0 <= i < j < |s| ==> s[i].score >= s[j].score
  }

  /** Places `x` before the first element whose score does not exceed its own,
      so `x` stays ahead of the later elements it ties with. */
  function Insert(x: Scored, s: seq<Scored>): (r: seq<Scored>)
    requires SortedDesc(s)
    ensures SortedDesc(r)
    ensures multiset(r) == multiset(s) + multiset{x}
  {
    if |s| == 0 || s[0].score <= x.score then [x] + s
    else
      var t := Insert(x, s[1..]);
      assert s == [s[0]] + s[1..];
      InsertSortedCons(s[0], x, s[1..], t);
      [s[0]] + t
  }

  /** Putting `h` in front of the insertion into the tail keeps the order
      when `h` outscores both the tail and the inserted element. */
  lemma InsertSortedCons(h: Scored, x: Scored, s: seq<Scored>, t: seq<Scored>)
    requires SortedDesc([h] + s) && SortedDesc(t) && x.score < h.score
    requires multiset(t) == multiset(s) + multiset{x}
    ensures SortedDesc([h] + t)
  {
    forall y | y in t ensures y.score <= h.score {
      assert multiset(t)[y] > 0;
      if y != x {
        assert multiset(s)[y] == multiset(t)[y];
        assert y in s;
        var j :| 0 <= j < |s| && s[j] == y;
        assert ([h] + s)[0] == h && ([h] + s)[j + 1] == y;
      }
    }
    var u := [h] + t;
    forall i, j | 0 <= i < j < |u| ensures u[i].score >= u[j].score {
      assert u[j] == t[j - 1];
      if i > 0 { assert u[i] == t[i - 1]; } else { assert t[j - 1] in t; }
    }
  }

  /** `list.sort(key=score, reverse=True)`: Python's sort is stable, so chunks
      with equal scores keep their load order. */
  function SortDesc(xs: seq<Scored>): (r: seq<Scored>)
    ensures SortedDesc(r)
    ensures multiset(r) == multiset(xs)
  {
    if |xs| == 0 then []
    else
      assert xs == [xs[0]] + xs[1..];
      Insert(xs[0], SortDesc(xs[1..]))
  }

  /** The elements with score `k`, in order. */
  function WithScore(s: seq<Scored>, k: nat): seq<Scored> {
    if |s| == 0 then []
    else if s[0].score == k then [s[0]] + WithScore(s[1..], k)
    else WithScore(s[1..], k)
  }

  /** Python's `xs[:n]`: a negative `n` drops that many elements from the end. */
  function Prefix<T>(xs: seq<T>, n: int): (r: seq<T>)
    ensures |r| <= |xs| && r == xs[..|r|]
    ensures n >= 0 ==> |r| == if n < |xs| then n else |xs|
    ensures n < 0 ==> |r| == if |xs| + n > 0 then |xs| + n else 0
  {
    if n >= 0 then (if n < |xs| then xs[..n] else xs)
    else if |xs| + n > 0 then xs[..|xs| + n] else []
  }

  function Contents(s: seq<Scored>): (r: seq<string>)
    ensures |r| == |s| && forall i :: 0 <= i < |s| ==> r[i] == s[i].chunk.content
  {
    if |s| == 0 then [] else [s[0].chunk.content] + Contents(s[1..])
  }

  // ---------------------------------------------------------------------
  // The retriever

  /** All of the tenant's chunks that match the query, best first. */
  function Ranked(query: string, tenant: string, chunks: seq<ChunkRow>): seq<Scored> {
    SortDesc(ScoreAll(Keywords(query), TenantChunks(chunks, tenant)))
  }

  /** `retrieve_relevant_context(query, tenant_id, num_results)` over the
      rows of the two tables; `fault` says which query, if any, raises. */
  function Retrieve(query: string, tenant: string, numResults: int,
                    docs: seq<DocRow>, chunks: seq<ChunkRow>, fault: Fault): (r: string)
    ensures fault == DocsQueryFault ==> r == RetrievalFailed
    ensures fault != DocsQueryFault && !HasProcessed(docs, tenant) ==> r == NoDocuments
    ensures fault == ChunksQueryFault && HasProcessed(docs, tenant) ==> r == RetrievalFailed
  {
    ProcessedDocsEmptyIff(docs, tenant);
    if fault == DocsQueryFault then RetrievalFailed
    else if |ProcessedDocs(docs, tenant)| == 0 then NoDocuments
    else if fault == ChunksQueryFault then RetrievalFailed
    else Format(Prefix(Ranked(query, tenant, chunks), numResults))
  }

  /** The context string for the selected chunks. */
  function Format(top: seq<Scored>): string {
    if |top| == 0 then NoRelevant else Join("\n\n", Contents(top))
  }

  // ---------------------------------------------------------------------
  // Facts

  /** The gate: the processed-document query is empty exactly when the tenant
      owns no document with `is_processed = 1`, whatever its status text. */
  lemma ProcessedDocsEmptyIff(docs: seq<DocRow>, tenant: string)
    ensures ProcessedDocs(docs, tenant) == [] <==> !HasProcessed(docs, tenant)
  {
    if ProcessedDocs(docs, tenant) != [] {
      assert ProcessedDocs(docs, tenant)[0] in docs;
    }
  }

  /** With no processed document the answer is the sentinel, whatever the
      query, the number of results or the chunks stored. */
  lemma GateIgnoresQuery(q1: string, q2: string, tenant: string, n1: int, n2: int,
                         docs: seq<DocRow>, c1: seq<ChunkRow>, c2: seq<ChunkRow>)
    requires !HasProcessed(docs, tenant)
    ensures Retrieve(q1, tenant, n1, docs, c1, NoFault) == Retrieve(q2, tenant, n2, docs, c2, NoFault) == NoDocuments
  {
    ProcessedDocsEmptyIff(docs, tenant);
  }

  /** Once the gate passes, the answer is the blank-line-joined content of the
      best `num_results` matches, or the no-match sentinel when there are none. */
  lemma RetrieveSelects(query: string, tenant: string, n: int, docs: seq<DocRow>, chunks: seq<ChunkRow>)
    requires HasProcessed(docs, tenant)
    ensures var top := Prefix(Ranked(query, tenant, chunks), n);
      && (|top| == 0 ==> Retrieve(query, tenant, n, docs, chunks, NoFault) == NoRelevant)
      && (|top| > 0 ==> Retrieve(query, tenant, n, docs, chunks, NoFault) == Join("\n\n", Contents(top)))
  {
    ProcessedDocsEmptyIff(docs, tenant);
  }

  /** A chunk counts as matching exactly when some keyword occurs in it. */
  lemma {:induction false} MatchCountZeroIff(keywords: seq<string>, text: string)
    ensures MatchCount(keywords, text) == 0 <==> forall i :: 0 <= i < |keywords| ==> !Contains(text, keywords[i])
    decreases |keywords|
  {
    if |keywords| > 0 {
      MatchCountZeroIff(keywords[1..], text);
      assert forall i :: 1 <= i < |keywords| ==> keywords[i] == keywords[1..][i - 1];
    }
  }

  /** Repeated keywords are counted once per occurrence in the query. */
  lemma {:induction false} MatchCountAppend(a: seq<string>, b: seq<string>, text: string)
    ensures MatchCount(a + b, text) == MatchCount(a, text) + MatchCount(b, text)
    decreases |a|
  {
    if |a| == 0 {
      assert a + b == b;
    } else {
      assert (a + b)[1..] == a[1..] + b;
      MatchCountAppend(a[1..], b, text);
    }
  }

  /** Ranking keeps every matching chunk of the tenant, scored, and nothing else. */
  lemma RankedMembers(query: string, tenant: string, chunks: seq<ChunkRow>)
    ensures var kw := Keywords(query); var r := Ranked(query, tenant, chunks);
      && (forall s :: s in r ==> s.chunk in chunks && s.chunk.tenantId == tenant && s.score == Score(kw, s.chunk) > 0)
      && (forall c :: c in chunks && c.tenantId == tenant && Score(kw, c) > 0 ==> Scored(c, Score(kw, c)) in r)
  {
    var kw := Keywords(query);
    var all := ScoreAll(kw, TenantChunks(chunks, tenant));
    var r := Ranked(query, tenant, chunks);
    assert multiset(r) == multiset(all);
    forall s | s in r
      ensures s.chunk in chunks && s.chunk.tenantId == tenant && s.score == Score(kw, s.chunk) > 0
    {
      assert s in multiset(r);
      assert s in all;
    }
    forall c | c in chunks && c.tenantId == tenant && Score(kw, c) > 0
      ensures Scored(c, Score(kw, c)) in r
    {
      assert Scored(c, Score(kw, c)) in multiset(all);
    }
  }

  /** A chunk left out of the selection never outscores one that was kept. */
  lemma PrefixKeepsBest(r: seq<Scored>, n: int)
    requires SortedDesc(r)
    ensures var top := Prefix(r, n);
      forall i, j :: 0 <= i < |top| <= j < |r| ==> top[i].score >= r[j].score
  {
  }

  /** Stability: among equal scores, the ranking keeps the input order. */
  lemma {:induction false} InsertWithScore(x: Scored, s: seq<Scored>, k: nat)
    requires SortedDesc(s)
    ensures WithScore(Insert(x, s), k) == if x.score == k then [x] + WithScore(s, k) else WithScore(s, k)
    decreases |s|
  {
    if |s| == 0 || s[0].score <= x.score {
      assert ([x] + s)[1..] == s;
    } else {
      InsertWithScore(x, s[1..], k);
      assert ([s[0]] + Insert(x, s[1..]))[1..] == Insert(x, s[1..]);
    }
  }

  lemma {:induction false} SortStable(xs: seq<Scored>, k: nat)
    ensures WithScore(SortDesc(xs), k) == WithScore(xs, k)
    decreases |xs|
  {
    if |xs| > 0 {
      SortStable(xs[1..], k);
      InsertWithScore(xs[0], SortDesc(xs[1..]), k);
    }
  }

  /** Ranking twice gives the same order (the matcher is deterministic), and
      re-sorting an already ranked list changes nothing. */
  lemma {:induction false} SortSorted(xs: seq<Scored>)
    requires SortedDesc(xs)
    ensures SortDesc(xs) == xs
    decreases |xs|
  {
    if |xs| > 0 {
      SortSorted(xs[1..]);
    }
  }

  // ---------------------------------------------------------------------
  // A worked example

  /** A query of one lowercase word that is not a stop word is its own keyword list. */
  lemma KeywordsOfWord(w: string)
    requires IsWord(w) && w !in StopWords
    requires forall i :: 0 <= i < |w| ==> !('A' <= w[i] <= 'Z')
    ensures Keywords(w) == [w]
  {
    assert Collapse(w) == w && Strip(w) == w by { NormalizeWord(w); }
    assert Lower(w) == w by { LowerUnchanged(w); }
    assert Words(w) == [w] by { WordsOfSingle(w); }
    assert QueryTokens(w) == [w];
    StopWordFree(w);
  }

  /** A token that is not a stop word survives the filter on its own. */
  lemma StopWordFree(w: string)
    requires w !in StopWords
    ensures RemoveStopWords([w]) == [w]
  {
    var ws := [w];
    assert ws[1..] == [];
    assert RemoveStopWords(ws[1..]) == [];
  }

  /** Three chunks of one tenant scoring 1, 0 and 1 rank as the first and the
      third, in load order. */
  lemma RankThree(kw: seq<string>, tenant: string, c1: ChunkRow, c2: ChunkRow, c3: ChunkRow)
    requires c1.tenantId == tenant && c2.tenantId == tenant && c3.tenantId == tenant
    requires Score(kw, c1) == 1 && Score(kw, c2) == 0 && Score(kw, c3) == 1
    ensures SortDesc(ScoreAll(kw, TenantChunks([c1, c2, c3], tenant))) == [Scored(c1, 1), Scored(c3, 1)]
  {
    var cs := [c1, c2, c3];
    assert cs[1..] == [c2, c3] && cs[1..][1..] == [c3];
    assert TenantChunks([c3], tenant) == [c3];
    assert TenantChunks([c2, c3], tenant) == [c2, c3];
    assert TenantChunks(cs, tenant) == cs;
    assert ScoreAll(kw, [c3]) == [Scored(c3, 1)];
    assert ScoreAll(kw, [c2, c3]) == [Scored(c3, 1)];
    var scored := [Scored(c1, 1), Scored(c3, 1)];
    assert ScoreAll(kw, cs) == scored;
    assert scored[1..] == [Scored(c3, 1)];
  }

  lemma ScoreCat1(kw: seq<string>, c: ChunkRow)
    requires kw == ["cat"] && c.content == "the cat sat"
    ensures Score(kw, c) == 1
  {
    LowerUnchanged(c.content);
    ContainsAt(c.content, kw[0], 4);
  }

  lemma ScoreCat2(kw: seq<string>, c: ChunkRow)
    requires kw == ["cat"] && c.content == "dogs bark loudly"
    ensures Score(kw, c) == 0
  {
    LowerUnchanged(c.content);
    NotContainsFirst(c.content, kw[0]);
  }

  lemma ScoreCat3(kw: seq<string>, c: ChunkRow)
    requires kw == ["cat"] && c.content == "cats and dogs play"
    ensures Score(kw, c) == 1
  {
    LowerUnchanged(c.content);
    ContainsAt(c.content, kw[0], 0);
  }

  /** Chunks "the cat sat", "dogs bark loudly" and "cats and dogs play" with
      the query "cat": the first and third match with score 1 each and keep
      their load order; the second is left out. */
  lemma CatExample(query: string, tenant: string, c1: ChunkRow, c2: ChunkRow, c3: ChunkRow)
    requires query == "cat"
    requires c1.content == "the cat sat" && c2.content == "dogs bark loudly" && c3.content == "cats and dogs play"
    requires c1.tenantId == tenant && c2.tenantId == tenant && c3.tenantId == tenant
    ensures Ranked(query, tenant, [c1, c2, c3]) == [Scored(c1, 1), Scored(c3, 1)]
  {
    KeywordsOfWord(query);
    var kw := Keywords(query);
    ScoreCat1(kw, c1);
    ScoreCat2(kw, c2);
    ScoreCat3(kw, c3);
    RankThree(kw, tenant, c1, c2, c3);
  }

  /** With a processed document on file, the context for "cat" is the two
      matching chunks separated by a blank line. */
  lemma CatContext(query: string, tenant: string, docs: seq<DocRow>, c1: ChunkRow, c2: ChunkRow, c3: ChunkRow)
    requires query == "cat" && HasProcessed(docs, tenant)
    requires c1.content == "the cat sat" && c2.content == "dogs bark loudly" && c3.content == "cats and dogs play"
    requires c1.tenantId == tenant && c2.tenantId == tenant && c3.tenantId == tenant
    ensures Retrieve(query, tenant, DefaultNumResults, docs, [c1, c2, c3], NoFault) == c1.content + "\n\n" + c3.content
  {
    CatExample(query, tenant, c1, c2, c3);
    RetrieveSelects(query, tenant, DefaultNumResults, docs, [c1, c2, c3]);
    FormatPair(Ranked(query, tenant, [c1, c2, c3]), DefaultNumResults, Scored(c1, 1), Scored(c3, 1));
  }

  /** Two ranked matches and room for both: the context is their contents
      around a blank line. */
  lemma FormatPair(r: seq<Scored>, n: int, x: Scored, y: Scored)
    requires r == [x, y] && n >= 2
    ensures |Prefix(r, n)| > 0
    ensures Join("\n\n", Contents(Prefix(r, n))) == x.chunk.content + "\n\n" + y.chunk.content
  {
    var parts := Contents(r);
    assert parts == [x.chunk.content, y.chunk.content];
    assert parts[1..] == [y.chunk.content];
  }
}
