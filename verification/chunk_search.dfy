/** A worker answers a query from all its chunks: each is searched by itself, and the matches are merged
    into the K best of all (src/query/worker_node.cpp). */
module ChunkSearch {
  import opened Basics
  import opened TopK
  import opened ChunkFormat
  import opened QueryMeaning
  import opened QueryCompilation
  import opened QueryEngine
  import opened Indexing
  import opened PageSearch
  import Q = QuerySyntax

  /** A document of a chunk. */
  datatype Place = Place(chunkId: nat, docId: nat)

  // ---------------------------------------------------------------- matches with their chunk

  function Tagged(c: nat, x: Scored<nat>): Scored<Place> {
    Scored(Place(c, x.docId), x.score)
  }

  function Tag(c: nat, r: seq<Scored<nat>>): (t: seq<Scored<Place>>)
    ensures |t| == |r| && forall i :: 0 <= i < |r| ==> t[i] == Tagged(c, r[i])
  {
    seq(|r|, i requires 0 <= i < |r| => Tagged(c, r[i]))
  }

  lemma TagMore(c: nat, r: seq<Scored<nat>>, x: Scored<nat>)
    ensures Tag(c, r + [x]) == Tag(c, r) + [Tagged(c, x)]
  {
  }

  lemma {:induction false} TagCount(c: nat, r: seq<Scored<nat>>, y: Scored<Place>)
    ensures multiset(Tag(c, r))[y] == if y.docId.chunkId == c then multiset(r)[Scored(y.docId.docId, y.score)] else 0
  {
    if r != [] {
      var front, last := r[..|r| - 1], r[|r| - 1];
      assert r == front + [last];
      TagMore(c, front, last);
      TagCount(c, front, y);
    }
  }

  /** A top K of one chunk stays one when its documents are marked with the chunk. */
  lemma TagIsTopK(c: nat, r: seq<Scored<nat>>, all: seq<Scored<nat>>, k: nat)
    requires IsTopK(r, multiset(all), k)
    ensures IsTopK(Tag(c, r), multiset(Tag(c, all)), k)
  {
    var R, A := multiset(Tag(c, r)), multiset(Tag(c, all));
    assert |A| == |multiset(all)|;
    forall y ensures R[y] <= A[y] {
      TagCount(c, r, y);
      TagCount(c, all, y);
    }
    forall x, y | x in A - R && y in R ensures x.score <= y.score {
      TagCount(c, r, x);
      TagCount(c, all, x);
      TagCount(c, r, y);
      var x', y' := Scored(x.docId.docId, x.score), Scored(y.docId.docId, y.score);
      assert x' in multiset(all) - multiset(r) && y' in multiset(r);
    }
  }

  // ---------------------------------------------------------------- merging

  ghost function AllTagged(lists: seq<seq<Scored<nat>>>): (t: seq<seq<Scored<Place>>>)
    ensures |t| == |lists| && forall c :: 0 <= c < |lists| ==> t[c] == Tag(c, lists[c])
  {
    seq(|lists|, c requires 0 <= c < |lists| => Tag(c, lists[c]))
  }

  /** Pushes the matches of all chunks and takes out the K best. */
  method Merge(lists: seq<seq<Scored<nat>>>, k: nat) returns (matches: seq<Scored<Place>>)
    requires k > 0
    ensures IsTopK(matches, Sum(Bags(AllTagged(lists))), k)
  {
    hide IsTopK, TopKHeap.Valid;
    var topK := new TopKHeap<Place>(k);
    ghost var all := AllTagged(lists);
    NothingSummed(all);
    for c := 0 to |lists|
      invariant topK.Valid() && fresh(topK) && topK.k == k && topK.pushed == Sum(Bags(all[..c]))
    {
      PushAll(topK, c, lists[c]);
      SumMore(all, c);
    }
    assert all[..|lists|] == all;
    matches := topK.ExtractSorted();
  }

  /** The inner loop: pushes the matches of one chunk. */
  method PushAll(topK: TopKHeap<Place>, c: nat, list: seq<Scored<nat>>)
    requires topK.Valid() && topK.k > 0
    modifies topK
    ensures topK.Valid() && topK.pushed == old(topK.pushed) + multiset(Tag(c, list))
  {
    hide TopKHeap.Valid;
    NothingTagged(c, list);
    for i := 0 to |list|
      invariant topK.Valid() && topK.pushed == old(topK.pushed) + multiset(Tag(c, list[..i]))
    {
      var m := list[i];
      assert list[..i + 1] == list[..i] + [m];
      TagMore(c, list[..i], m);
      topK.Push(Scored(Place(c, m.docId), m.score));
    }
    assert list[..|list|] == list;
  }

  lemma NothingSummed(all: seq<seq<Scored<Place>>>)
    ensures Sum(Bags(all[..0])) == multiset{}
  {
  }

  lemma NothingTagged(c: nat, r: seq<Scored<nat>>)
    ensures multiset(Tag(c, r[..0])) == multiset{}
  {
  }

  lemma SumMore(all: seq<seq<Scored<Place>>>, c: nat)
    requires c < |all|
    ensures Sum(Bags(all[..c + 1])) == Sum(Bags(all[..c])) + multiset(all[c])
  {
    assert Bags(all[..c + 1])[..c] == Bags(all[..c]);
  }

  // ---------------------------------------------------------------- searching all chunks

  /** The pages a chunk was written from, and the anchor pages that go with them. */
  datatype Source = Source(bodyPages: seq<Page>, anchorPages: seq<Page>)

  ghost predicate Serves(engine: QueryEngine, source: Source, expand: Text -> seq<Text>) {
    && engine.bodyReader.Valid() && engine.anchorReader.Valid() && |source.anchorPages| == |source.bodyPages|
    && PagesIn(engine.bodyReader.index, source.bodyPages, expand) && PagesIn(engine.anchorReader.index, source.anchorPages, expand)
  }

  /** The pages of one chunk that have what the tokens are read as there, with their scores. */
  ghost function ChunkRanked(engine: QueryEngine, tokens: seq<Q.Token>): seq<Scored<nat>> {
    Ranked(engine.Found(tokens), engine.bodyReader.index.documents, engine.scorer)
  }

  ghost function AllRanked(engines: seq<QueryEngine>, tokens: seq<Q.Token>): (all: seq<seq<Scored<nat>>>)
    ensures |all| == |engines| && forall c :: 0 <= c < |engines| ==> all[c] == ChunkRanked(engines[c], tokens)
  {
    seq(|engines|, c requires 0 <= c < |engines| => ChunkRanked(engines[c], tokens))
  }

  /** Searches every chunk for its K best and merges them: the answer is a top K of all pages of all
      chunks that have what the tokens are read as. */
  method SearchChunks(engines: seq<QueryEngine>, tokens: seq<Q.Token>, k: nat, ghost sources: seq<Source>, ghost expand: Text -> seq<Text>)
    returns (matches: seq<Scored<Place>>)
    requires |sources| == |engines| && forall c :: 0 <= c < |engines| ==> Serves(engines[c], sources[c], expand)
    requires Plain(tokens) && |tokens| < TWO32 && k > 0
    ensures IsTopK(matches, Sum(Bags(AllTagged(AllRanked(engines, tokens)))), k)
    ensures forall c :: 0 <= c < |engines| ==>
              engines[c].Found(tokens) == SelectedPages(engines[c].bodyReader.index, engines[c].anchorReader.index, sources[c].bodyPages,
                                                        sources[c].anchorPages, tokens, expand)
  {
    hide IsTopK, Serves, ChunkRanked, Plain, SelectedPages, QueryEngine.Found, Ranked;
    var lists: seq<seq<Scored<nat>>> := [];
    for c := 0 to |engines|
      invariant |lists| == c && forall i :: 0 <= i < c ==> IsTopK(lists[i], multiset(ChunkRanked(engines[i], tokens)), k)
      invariant forall i :: 0 <= i < c ==>
                  engines[i].Found(tokens) == SelectedPages(engines[i].bodyReader.index, engines[i].anchorReader.index,
                                                            sources[i].bodyPages, sources[i].anchorPages, tokens, expand)
    {
      var matches := SearchChunk(engines[c], tokens, k, sources[c], expand);
      lists := lists + [matches];
    }
    matches := Merge(lists, k);
    ghost var all := AllRanked(engines, tokens);
    forall c | 0 <= c < |engines| ensures IsTopK(AllTagged(lists)[c], Bags(AllTagged(all))[c], k) {
      TagIsTopK(c, lists[c], all[c], k);
    }
    MergeIsTopK(AllTagged(lists), Bags(AllTagged(all)), matches, k);
  }

  method SearchChunk(engine: QueryEngine, tokens: seq<Q.Token>, k: nat, ghost source: Source, ghost expand: Text -> seq<Text>)
    returns (matches: seq<Scored<nat>>)
    requires Serves(engine, source, expand) && Plain(tokens) && |tokens| < TWO32 && k > 0
    ensures IsTopK(matches, multiset(ChunkRanked(engine, tokens)), k)
    ensures engine.Found(tokens) == SelectedPages(engine.bodyReader.index, engine.anchorReader.index, source.bodyPages, source.anchorPages, tokens, expand)
  {
    hide IsTopK, Plain, SelectedPages, QueryEngine.Found, Ranked, PagesIn, WellIndexed;
    PagesInFacts(engine.bodyReader.index, source.bodyPages, expand);
    PagesInFacts(engine.anchorReader.index, source.anchorPages, expand);
    FoundOnPages(engine, tokens, source.bodyPages, source.anchorPages, expand);
    matches := engine.Search(tokens, k);
  }
}
