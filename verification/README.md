# A verified model of the search engine's index, its crawl frontier, and its distributed crawl

The repository is a web search engine: crawlers share out the web among machines, an indexer turns pages
into chunk files of posting lists, and a query engine reads those files back through iterators. This
project models that code in Dafny in its own form (classes that change in place, loops with invariants)
and proves what the fast forms mean. Each class is proved against a specification written as a set, a
multiset, a map or an existential statement, and the layers are put together.

## Main results

1. **Search, end to end.** `PageFiles.IndexAndSearch`: body pages and anchor pages are tokenized, indexed,
   flushed to two chunk files, the files are opened, and any tokens are searched. The answer is a top K of
   exactly the pages that have, by the words on them, what the tokens are read as, each page ranked once.
   For the tokens of a query, in any of the spellings of result 2, these are the pages that match the query,
   provided that in both indexes it is planned as intended (`QuerySyntax.Intended`) and none of its phrases
   wraps. The pages must fit the widths of the file's fields; `PageFiles.ModerateFit` gives a bound on the
   pages themselves.
   `ChunkSearch.SearchChunks` does the same over all chunks of a worker at once.
2. **The query parser.** For every query of the grammar, whatever its groups, the tokens are read to their end
   if and only if no positive operand that selects nothing has another operand behind it, at any depth
   (`QuerySyntax.ReadsAllIffClean`). For every query that is read whole or stops the parser for good, among
   them all whose groups are clean, it is known exactly when the plan is the intended one
   (`QuerySyntax.IntendedIff`). Token lists that no query prints to are covered by `QuerySpelling`: a clean query
   whose last quote and parentheses are left open gets its plan and is read to its end (`ReadsUnclosed`),
   tokens that are no words can be left out between quotes (`NoiseInQuotes`), connectives left over at the end
   change nothing (`ConnectivesLeftOver`), and a stray token after AND or NOT counts as a word that is not
   indexed (`StrayAfterAnd`, `StrayAfterNot`); any number of such steps can be combined (`SpellsPlan`).
3. **Iterators.** `IsrWord.Seek` with its seek table equals the linear scan; OR, AND, phrase and
   exclusion trees of any shape stand, after any seek to a document boundary, at the first location of
   their set. The calls in the model show that every seek that reaches an AND or a phrase is at such a
   boundary.
4. **The frontier over all runs.** Every method of `CrawlFrontier.Frontier` keeps: no item lost or
   doubled over host queues, reservoir, back reservoir, chunk files and workers; the counters `queued` and
   `pending` right; each ready host queued once and not blocked; at most one worker at a host; every idle
   host with items ready or asleep with the entry that wakes it. `CrawlFrontier.Run`: over any sequence of
   calls by any workers, no item is handed out before the time to which its host was put to sleep. Items come
   forward from behind the reservoir exactly as far as the percentages say (`Refill`, `PopOnce`), and a worker
   that keeps asking while it is told to wait empties the layers behind it (`PopPatiently`). Ready hosts are
   served in order, and so are the items of each host.
5. **The crawl of N machines.** Under any deliveries, an address is discovered by the machine it hashes
   to, once, and nowhere else; which links a page or a payload adds to the frontier, and which a page sends
   on to each other machine, is known exactly, in order, with distance and anchor text; a link to another
   machine is waiting, in the hands of a sender, or was part of a batch whose whole frame a connection took;
   and an address is dropped as known exactly if it was discovered or collides with discovered ones at every
   probe of the Bloom filter.
6. **The bytes of a chunk file.** For any pages that fit: at the places in the file that the structs of the source
   give them stand the number of documents and of terms, the end of the locations, every document record,
   and, in the bucket of each term, how many pages give it and how often (`PageFiles.WriteFile`, `OnDisk`).
7. **Smaller cores.** The greedy robots.txt wildcard matcher equals the existential meaning of `*` and
   `$`; the chained hash table refines a map through its rehashing; the top-K heap and the merge of
   per-chunk lists give the K best scores of all.

## What the code does otherwise than its comments say

The model keeps the code as it is; each item has a concrete example or an exact condition.

- A quoted phrase finds nothing at all when its word at place i also stands at a location below i in the
  chunk, since the 32-bit start wraps: `QueryMeaning.PhraseRightIff`, `PhraseLostExample`.
- A positive operand that selects nothing ends its conjunction where it stands, unless it is the last one.
  Outside groups nothing behind it is read, other alternatives included: `MissingWordLosesAlternative`.
  When it leaves a group that is negated, or that found something before, the rest of the group is read as
  part of the conjunction around it: in "a NOT (x y)" with x unknown, y becomes required instead of being
  excluded with x: `QuerySyntax.NegatedGroupSpills`. The tokens are read whole exactly if no such operand
  occurs: `QuerySyntax.ReadsAllIffClean`. Where the parser stops for good, the plan is still the intended
  one exactly if nothing from the alternative that stopped it on has a plan: `QuerySyntax.IntendedIff`.
- A seek table read back from a file equals the one built exactly if the first location is below 2^24;
  otherwise its posting indices are all missing, and seeking stays right by linear scan:
  `SeekTable.RestoredIsBuilt`.
- The 32-bit location counter runs on from chunk to chunk and is never reset; documents are in order
  exactly as long as the pages fit below the sentinel: `Indexing.OrderedIffFits`.
- The comment in `promoteReservoir` calls swap-removal safe in any order unless the window reaches the
  tail. It stays in range exactly if each place is still there when its turn comes
  (`Sweep.ExactIffSafe`); with 513 items it can write behind the end (`SweepWritesOutOfRange`). With a
  limit of at most 512 items it never does.
- An address without host, such as `/a` (`Schedule.NoHostExample`, and `NoHostIff` for which they are),
  leaves its worker without a remembered host: its host stays in flight for good and no further item of
  it is handed out, and snoozing it loses the item (`Frontier.PopOnce`, `Frontier.SnoozeCurrent`).
- `snapshot` leaves out the items in chunk files (`Frontier.Snapshot`).
- `UrlDecode` promises to treat as literal text what is no escape, but it drops a percent sign that stands last,
  and one that stands second to last together with the byte behind it; an escaped zero byte cuts the
  text off. Decoding is right exactly if neither occurs: `UrlDecoding.DecodesRightIff`, `CutShortExamples`.
- The empty robots.txt pattern matches nothing, though it denotes everything; and the argument "/", as in
  "Disallow: /", becomes the empty pattern (`RobotsWildcard.SlashIsEmpty`). Matching is right exactly for
  the other patterns, and for "$" alone where the path is not empty (`RobotsWildcard.MatchRightIff`).

## Files

| file | content |
|---|---|
| basics, bytes, vbyte, seek_table, layout | integers of fixed width, records of bytes, variable-byte coding, the seek table, documents as spans of locations |
| isr_word, isr | the iterators |
| chunk, chunk_writer, chunk_reader, on_disk | the chunk file: its image, its writer, its reader, and what stands at which byte |
| query_syntax, query_spelling, query_meaning, query_compiler | tokens and query trees, the ways to spell a query, what a query means, the compiler |
| heaps, topk, query_engine | heaps, the top-K heap and the merge of lists, the search |
| indexing, page_search, page_files, chunk_search | tokenizer and in-memory index; what a search ranks, in terms of pages; from pages to files and answers; all chunks of a worker |
| schedule, sweep, queues, frontier | hosts, the reservoir sweep, the queues, and the frontier itself |
| wire, bloom, machines | frames and payloads, the filter, the machines |
| url_decoding, wildcard, hash_table | decoding of escapes, robots.txt patterns, the hash table |

## Model

| member | source | states |
|---|---|---|
| `PageFiles.IndexAndSearch` | src/index/src/lib/query_engine.cpp:76-143 | from pages to the answer, for any tokens: a top K of exactly the pages that have what the tokens are read as; for any spelling of a query that is planned as intended in both indexes and does not wrap, of the pages that match it |
| `PageFiles.WriteFile` | src/main_distributed.cpp:586-620 | the bytes written for any pages that fit the fields of the file are the image of an index of exactly these pages, whatever the order of the hash map; read at their byte offsets, the header gives the number of pages and of terms and the end of the locations, and the entry of each term the number of pages that give it and of its occurrences |
| `PageFiles.ListTerms` | src/index/src/lib/chunk_flusher.cpp:23 | going through the hash map lists every term once with its list |
| `PageFiles.ModerateFit` | src/index/src/lib/chunk_flusher.cpp:7-56 | pages with fewer than 2^32 / 5 tokens and strings below 65536 bytes fit the fields, however the terms are listed |
| `PageSearch.SearchFiles` | src/index/src/lib/query_engine.cpp:76-143 | for two files so written and any tokens: the same, each page ranked once, best first; for any spelling of a query the pages that match it, under the conditions above |
| `PageSearch.FoundOnPages` | src/index/src/lib/query_engine.cpp:86-140 | what the engine finds for any tokens are, in order, the pages that have what the body plan or the anchor plan asks for |
| `PageSearch.SelectsPage` | src/index/src/lib/query_compiler.cpp:29-149 | any plan selects a document exactly when its page has what the plan asks for, where a phrase that wraps in the chunk is found on no page |
| `PageSearch.SelectedAreMatching` | src/index/src/lib/query_compiler.cpp:29-149 | for a query planned as intended in both indexes whose phrases do not wrap, the pages selected are those that match it |
| `PageSearch.SpellingSelects` | src/index/src/lib/query_compiler.cpp:29-149 | tokens that spell a query in both indexes select the pages that its own tokens select |
| `ChunkSearch.SearchChunks` | src/query/worker_node.cpp:164-188 | the answer of a worker is a top K over the selected pages of all its chunks |
| `ChunkSearch.Merge` | src/query/worker_node.cpp:181-188 | pushing the matches of all chunks, marked with their chunk, gives a top K of all of them |
| `ChunkSearch.TagIsTopK` | src/query/worker_node.cpp:184 | marking matches with their chunk keeps a top K |
| `PageSearch.FindsMatchingPages` | src/index/src/lib/query_engine.cpp:86-140 | for a query planned as intended in both indexes whose phrases do not wrap, a document is found if and only if the page itself says what the query asks for, in its body or in its anchor text |
| `PageSearch.MatchesPage` | src/index/src/lib/query_compiler.cpp:29-149 | a query's meaning over posting lists is its meaning over the words of the page, both directions, for every query tree |
| `PageSearch.QuotedOnPage` | src/index/src/lib/isr_phrase.cpp:33-75 | consecutive locations in a document are consecutive words on its page; runs never cross into another document |
| `QueryEngine.QueryEngine.Search` | src/index/src/lib/query_engine.cpp:76-143 | any token list: the result is a top K, in descending order, of the documents that the body plan or the anchor plan selects, each scored once |
| `QueryEngine.QueryEngine.Merge` | src/index/src/lib/query_engine.cpp:92-142 | the two-stream merge visits every document that either stream touches, ascending and once, and pushes each one's score |
| `QueryEngine.QueryEngine.VisitNext` | src/index/src/lib/query_engine.cpp:98-140 | one round takes the least document either stream stands in and moves past it only the streams that stand there |
| `QueryEngine.NextDoc` | src/index/src/lib/query_engine.cpp:101-107 | the end marker found for the current location names the next document the stream touches |
| `QueryEngine.SkipDoc` | src/index/src/lib/query_engine.cpp:132-135 | a seek behind a document's end leaves the stream at the next document, active exactly if there is one |
| `QueryEngine.SelectsWhatMatches` | src/index/src/lib/query_compiler.cpp:9-20 | in one index, the plan read from a query's tokens selects exactly the documents that match it, when it is the intended plan and no phrase wraps |
| `QueryEngine.FindsWhatMatches` | src/index/src/lib/query_engine.cpp:83-96 | for queries planned as intended in both indexes whose phrases do not wrap, found means matching the query tree in either |
| `QueryEngine.PlanInDocs` | src/index/src/lib/query_compiler.cpp:29-149 | every location of every compiled tree lies in some document, so the missing-document branches do not lose matches |
| `QueryCompilation.QueryCompiler.Compile` | src/index/src/lib/query_compiler.cpp:9-15 | the tree returned stands at the start of exactly the set of the plan read from the tokens, which for any spelling of a query is that of the query (`QuerySpelling.SpellsPlan`); null exactly when there is no plan |
| `QueryCompilation.QueryCompiler.CompileAnchor` | src/index/src/lib/query_compiler.cpp:17-20 | the same over the anchor index, where words have no title form |
| `QueryCompilation.QueryCompiler.ParseOr` | src/index/src/lib/query_compiler.cpp:29-49 | cursor and plan are those of the grammar; the iterator yields the union of the plan |
| `QueryCompilation.QueryCompiler.ReadAlternatives` | src/index/src/lib/query_compiler.cpp:30-41 | collects one iterator for each alternative with a plan, in order, all apart in memory |
| `QueryCompilation.QueryCompiler.ParseAnd` | src/index/src/lib/query_compiler.cpp:51-103 | cursor and plan are those of the grammar, including the early return on an unknown positive operand |
| `QueryCompilation.QueryCompiler.ReadOperands` | src/index/src/lib/query_compiler.cpp:55-84 | sorts operands into positives and negatives, drops unknown negatives, stops at an unknown positive; each round consumes a token |
| `QueryCompilation.QueryCompiler.ParsePrimary` | src/index/src/lib/query_compiler.cpp:105-149 | a word, a group or a phrase, closed or not; any other token is skipped, so the recursion ends; what that means for a query is said in `QuerySpelling` |
| `QueryCompilation.QueryCompiler.ParseQuoted` | src/index/src/lib/query_compiler.cpp:120-144 | reads to the closing quote or the end; no plan if a word is unknown or none is there |
| `QueryCompilation.CreateIsr` | src/index/src/lib/query_compiler.cpp:151-169 | in the body, the union of the word's locations and its title form's; null exactly when neither is indexed |
| `QueryCompilation.FinishAnd` | src/index/src/lib/query_compiler.cpp:86-102 | one positive stands for itself, several become an AND, negatives an exclusion around it; the set is that of the plan |
| `QueryCompilation.PhraseBelow` | src/index/src/lib/isr_phrase.cpp:71 | no phrase match lies at the sentinel |
| `QuerySyntax.ParsesQuery` | src/index/src/lib/query_compiler.cpp:29-149 | parsing the tokens printed for any query whose conjunctions are complete gives the query's plan and stops right behind it |
| `QuerySyntax.ReadsAllIffClean` | src/index/src/lib/query_compiler.cpp:72-77 | for every query: its tokens are read to their end if and only if, in every conjunction at any depth, only the last operand may be positive and without plan |
| `QuerySyntax.StopsInside` | src/index/src/lib/query_compiler.cpp:73-75 | otherwise the parser stops before the end, even if the fault is deep in a group |
| `QuerySyntax.OrStays` | src/index/src/lib/query_compiler.cpp:29-118 | from wherever it starts, the parser never closes a parenthesis that it did not open |
| `QuerySyntax.IntendedIff` | src/index/src/lib/query_compiler.cpp:72-77 | for every query that is read whole or stops the parser for good, among them all whose groups are clean: the plan is the intended one if and only if the query is clean, or nothing from the stopping alternative on has a plan |
| `QuerySyntax.IntendedIffNoneFrom` | src/index/src/lib/query_compiler.cpp:72-77 | the same for a query that stops the parser for good in a given alternative |
| `QuerySyntax.CleanGroupsSettle` | src/index/src/lib/query_compiler.cpp:72-77 | a query whose groups are clean is read whole or stops the parser for good |
| `QuerySyntax.NegatedGroupSpills` | src/index/src/lib/query_compiler.cpp:73-77 | with x unknown, "a NOT (x y)" is read as "a y", and the last parenthesis is left |
| `QuerySyntax.MissingWordLosesAlternative` | src/index/src/lib/query_compiler.cpp:73-75 | with a unknown, "a b OR w" compiles to nothing although w alone is a plan |
| `QuerySpelling.OrAlike` | src/index/src/lib/query_compiler.cpp:29-149 | of two token lists that differ only in closing tokens or connectives missing at the end, tokens other than words between quotes, or stray tokens after a connective, the parser makes the same plan, and stops where they are alike again |
| `QuerySpelling.ReadsUnclosed` | src/index/src/lib/query_compiler.cpp:114-144 | every clean query, printed without its last quote and any of the parentheses behind, gets its plan and is read to the end of the tokens |
| `QuerySpelling.UnclosedAlike` | src/index/src/lib/query_compiler.cpp:114-144 | of any list that closes what it opens, closing tokens at the end make no difference |
| `QuerySpelling.ClosersLeftOut` | src/index/src/lib/query_compiler.cpp:114-144 | any tokens at all, if they do not end in a connective, are read like the same with their quote and any number of parentheses closed |
| `QuerySpelling.NoiseInQuotes` | src/index/src/lib/query_compiler.cpp:125-134 | between quotes, closed or not, a token that is no word changes nothing |
| `QuerySpelling.WordsJoin` | src/index/src/lib/query_compiler.cpp:125-134 | the words quoted by two stretches of tokens are those of the first and those of the second |
| `QuerySpelling.WordsOfOne` | src/index/src/lib/query_compiler.cpp:125-134 | a single token quotes its word, if it is one |
| `QuerySpelling.StrayAfterNot` | src/index/src/lib/query_compiler.cpp:65-77 | after NOT, a token that cannot be an operand is read like a word that is not indexed |
| `QuerySpelling.StrayAfterAnd` | src/index/src/lib/query_compiler.cpp:58-75 | so it is after AND, where the conjunction then has no plan |
| `QuerySpelling.ConnectivesLeftOver` | src/index/src/lib/query_compiler.cpp:60-69 | AND, NOT or both without operand at the end change nothing |
| `QuerySpelling.SpellsPlan` | src/index/src/lib/query_compiler.cpp:29-149 | tokens that lead to those of a query by any number of such steps, in either direction, get the plan that the query gets |
| `QuerySpelling.StepSpells` | src/index/src/lib/query_compiler.cpp:29-149 | one step more still spells the query |
| `QuerySpelling.UnclosedSpells` | src/index/src/lib/query_compiler.cpp:114-144 | a query, clean or not, is spelled by its tokens without closing ones at the end |
| `QueryMeaning.PlanMeansQuery` | src/index/src/lib/query_compiler.cpp:29-149 | the documents a plan selects are exactly those that match the query, for every query tree whose phrases do not wrap |
| `QueryMeaning.ConjunctionMeans` | src/index/src/lib/query_compiler.cpp:51-103 | a conjunction without wrapping phrases selects the documents with all positive operands and no negative one |
| `QueryMeaning.QuotedMeans` | src/index/src/lib/query_compiler.cpp:120-144 | a quoted text that does not wrap selects the documents holding its words one behind the other |
| `QueryMeaning.UnionTouches` | src/index/src/lib/isr_or.cpp:41-55 | the union touches the documents that some part touches |
| `QueryMeaning.BothTouch` | src/index/src/lib/isr_and.cpp:40-89 | the AND touches the documents that all parts touch |
| `QueryMeaning.ExceptTouches` | src/index/src/lib/isr_container.cpp:35-75 | the exclusion touches the documents of the positive part that no negative part touches |
| `QueryMeaning.SequenceTouches` | src/index/src/lib/isr_phrase.cpp:33-74 | a phrase that does not wrap touches the documents in which the words run consecutively |
| `QueryMeaning.PhraseRightIff` | src/index/src/lib/isr_phrase.cpp:44 | the phrase iterator finds exactly the runs if and only if no term i has a location below i, or there is no run anyway |
| `QueryMeaning.PhraseLostExample` | src/index/src/lib/isr_phrase.cpp:44 | terms at 5 and at 0, 6: the run at 5, 6 is not found |
| `Iterators.Isr.Seek` | src/index/src/lib/isr.h:11-21 | for a tree of any shape, and a target at a document boundary unless the tree is exact (a word, an OR of exact trees, an exclusion from an exact tree): afterwards at the first location of its set from the target on, or exhausted when there is none; it never moves back |
| `Iterators.Isr.Next` | src/index/src/lib/isr.h:11-21 | moves to the first location behind, except that a repeated location may be met again |
| `Iterators.IsrOr.constructor` | src/index/src/lib/isr_or.cpp:5-13 | starts at the least location of the union |
| `Iterators.IsrOr.Seek` | src/index/src/lib/isr_or.cpp:27-39 | first location of the union from the target on, which is at a document boundary unless all parts are exact |
| `Iterators.IsrOr.Next` | src/index/src/lib/isr_or.cpp:15-25 | moves only the parts that stand at the current location; the next location of the union follows |
| `Iterators.IsrOr.Advance` | src/index/src/lib/isr_or.cpp:41-55 | the least of the parts is the first of the union |
| `Iterators.IsrAnd.constructor` | src/index/src/lib/isr_and.cpp:3-14 | starts at the end of the first document that all parts touch |
| `Iterators.IsrAnd.Seek` | src/index/src/lib/isr_and.cpp:27-38 | from a document boundary: the end of the first document from there that all parts touch |
| `Iterators.IsrAnd.Next` | src/index/src/lib/isr_and.cpp:16-25 | the end of the next document that all parts touch |
| `Iterators.IsrAnd.Advance` | src/index/src/lib/isr_and.cpp:40-89 | the loop over candidate documents ends at the first shared one and terminates |
| `Iterators.MidDocumentSeekSkips` | src/index/src/lib/isr_and.cpp:33-35 | why boundaries matter: a seek into the middle of a document would exhaust a part whose document still matches |
| `Iterators.ProbeDoc` | src/index/src/lib/isr_and.cpp:64-84 | tells whether all parts have a location in the document; otherwise no shared document is left before its end |
| `Iterators.IsrPhrase.constructor` | src/index/src/lib/isr_phrase.cpp:5-13 | starts at the last place of the first run, and exhausted if the start of any term wraps |
| `Iterators.IsrPhrase.Seek` | src/index/src/lib/isr_phrase.cpp:23-31 | from a document boundary: the last place of the first run from there |
| `Iterators.IsrPhrase.Next` | src/index/src/lib/isr_phrase.cpp:15-21 | the last place of the next run |
| `Iterators.IsrPhrase.Advance` | src/index/src/lib/isr_phrase.cpp:33-74 | aligning the parts on the greatest implied start, in 32-bit arithmetic, finds the first run if no start wraps and nothing if one does; it terminates |
| `Iterators.MaxImpliedStart` | src/index/src/lib/isr_phrase.cpp:35-46 | the greatest implied start modulo 2^32, or that a part is exhausted |
| `Iterators.SeekPlaces` | src/index/src/lib/isr_phrase.cpp:53-68 | all parts stand at their places, or one is behind its place, or one has no more locations |
| `Iterators.RunsDoNotCross` | src/index/src/lib/isr_phrase.cpp:23-31 | a run that ends behind a document boundary starts behind it, so seeking only the first term misses none |
| `Iterators.IsrContainer.constructor` | src/index/src/lib/isr_container.cpp:4-16 | starts at the first admitted location |
| `Iterators.IsrContainer.Seek` | src/index/src/lib/isr_container.cpp:25-33 | the first admitted location from the target on, which is at a document boundary unless the positive part is exact |
| `Iterators.IsrContainer.Next` | src/index/src/lib/isr_container.cpp:18-23 | the next admitted location |
| `Iterators.IsrContainer.Advance` | src/index/src/lib/isr_container.cpp:35-75 | the loop skips excluded documents and nothing else, and terminates |
| `Iterators.ProbeNegatives` | src/index/src/lib/isr_container.cpp:53-64 | tells whether some negative part has a location in the document, although it stops at the first that does |
| `WordIterator.IsrWord.Seek` | src/index/src/lib/isr.cpp:33-62 | with or without seek table, index and location are those of the linear scan, for every prior position and target |
| `WordIterator.IsrWord.Jump` | src/index/src/lib/isr.cpp:41-54 | the jump through the table changes neither the outcome of the scan nor the reading position's meaning |
| `WordIterator.IsrWord.Next` | src/index/src/lib/isr.cpp:17-31 | the next posting, or the sentinel behind the last |
| `WordIterator.ScanIsFirst` | src/index/src/lib/isr.cpp:56-62 | the scan ends at the first location from the target on |
| `WordIterator.JumpIsSafe` | src/index/src/lib/isr.cpp:42-53 | a table entry for the target's bucket has only smaller locations before it |
| `SeekTable.Build` | src/index/src/lib/seek_table.cpp:26-79 | each bucket gets its first posting, empty buckets that of the last one before; an error exactly when postings are missing |
| `SeekTable.BuiltSafe` | src/index/src/lib/seek_table.cpp:26-79 | every entry of a built table describes a posting with nothing of its bucket or later before it |
| `SeekTable.SlotIs` | src/index/src/lib/seek_table.cpp:26-79 | slot b holds number, location and end offset of the first posting of the last bucket up to b that has any, or nothing if none has |
| `SeekTable.Serialize` | src/index/src/lib/seek_table.cpp:85-97 | 256 pairs of little-endian words, without the posting indices |
| `SeekTable.Deserialize` | src/index/src/lib/seek_table.cpp:99-124 | gives the restored table of the list for 2048 bytes, and an error for any other size |
| `SeekTable.AddPostingIndexes` | src/index/src/lib/seek_table.cpp:126-155 | the posting indices found in one pass are those of the built table, or all missing when bucket 0 is empty |
| `SeekTable.RestoredSafe` | src/index/src/lib/seek_table.cpp:99-155 | a restored table never misleads a seek |
| `SeekTable.RestoredIsBuilt` | src/index/src/lib/seek_table.cpp:149-154 | it equals the built table if and only if the list is empty or begins below 2^24 |
| `VByte.Encode` | src/index/src/lib/vbyte.cpp:4-20 | the code of a 32-bit value, at most five bytes |
| `VByte.Decode` | src/index/src/lib/vbyte.cpp:22-38 | the value whose code stands at the pointer, modulo 2^32, and the pointer behind it |
| `VByte.CodeRoundTrip` | src/index/src/lib/vbyte.cpp:4-38 | a code followed by anything decodes to its value and its length |
| `VByte.CodeIs` | src/index/src/lib/vbyte.cpp:4-20 | byte i of a code is digit i of the value to the base 128, with the high bit set on all but the last; there are as many as the value has digits |
| `VByte.EncodeDeltaList` | src/index/src/lib/vbyte.cpp:40-58 | the stream of the wrapped differences |
| `VByte.DecodeDeltaList` | src/index/src/lib/vbyte.cpp:60-71 | gives back any prefix of any list of 32-bit values, ascending or not |
| `VByte.StreamSize` | src/index/src/lib/vbyte.cpp:47-55 | a list takes one to five bytes for each posting |
| `Bytes.StructRoundTrip` | src/index/src/lib/buffer_reader.h:13-17 | a packed record followed by anything reads back field by field |
| `ChunkWriter.FlushIndexChunk` | src/index/src/lib/chunk_flusher.cpp:7-56 | for the listed terms, the bytes are the image of the index: header, posting lists, document table, dictionary with every term in its bucket; what stands at which byte of the image is said in `OnDisk` |
| `ChunkWriter.DiskChunkWriter.WritePostingList` | src/index/src/lib/disk_chunk_writer.cpp:29-57 | appends one list with its table, if long enough, and returns where |
| `ChunkWriter.DiskChunkWriter.WriteDocumentTable` | src/index/src/lib/disk_chunk_writer.cpp:59-105 | appends the records, then goes back and fills in their offsets |
| `ChunkWriter.DiskChunkWriter.WriteDictionary` | src/index/src/lib/disk_chunk_writer.cpp:107-150 | appends the chains, each closed by a sentinel, then goes back and fills in the offsets, 0 for an empty bucket; the fields of each entry are those of `OnDisk.TermOnDisk` |
| `ChunkWriter.DiskChunkWriter.PatchOffsets` | src/index/src/lib/disk_chunk_writer.cpp:98-102 | overwriting the reserved array changes nothing else and returns to the end |
| `ChunkWriter.DiskChunkWriter.Finish` | src/index/src/lib/disk_chunk_writer.cpp:152-155 | overwrites the header and nothing else |
| `ChunkReader.DiskChunkReader.Open` | src/index/src/lib/disk_chunk_reader.cpp:24-62 | opens every file the flusher wrote; fails exactly for a file below the header's size, a wrong magic number, or a wrong version, in that order |
| `ChunkReader.DiskChunkReader.CreateIsr` | src/index/src/lib/disk_chunk_reader.cpp:64-111 | for the bytes of any index: an iterator over exactly the list of the term, at its start; null exactly for absent terms |
| `ChunkReader.DiskChunkReader.GetDocument` | src/index/src/lib/disk_chunk_reader.cpp:113-151 | record i exactly as written, none behind the last |
| `ChunkReader.DiskChunkReader.GetDocumentByLocation` | src/index/src/lib/disk_chunk_reader.cpp:153-190 | the document holding the location, none if there is none |
| `ChunkReader.FoundInChain` | src/index/src/lib/disk_chunk_reader.cpp:64-111 | an entry with the term's text leads to the term's own posting list |
| `ChunkReader.NotInChain` | src/index/src/lib/disk_chunk_reader.cpp:64-111 | a term missing from its chain is missing from the index |
| `OnDisk.TermOnDisk` | src/index/src/lib/types.h:93-106 | every term of a flushed index has an entry in the chain that header, bucket count and bucket offset lead to, with its text, its length, its document and collection frequency at their byte offsets, and the offset of its own posting list |
| `OnDisk.HeaderOnDisk` | src/index/src/lib/types.h:81-91 | magic number, version, number of documents, end of locations, number of terms and all offsets stand at their byte offsets |
| `OnDisk.CountsOnDisk` | src/index/src/lib/disk_chunk_writer.cpp:59-150 | the document table begins with the number of documents, the dictionary with three buckets for two terms, at least one |
| `OnDisk.DocumentOnDisk` | src/index/src/lib/types.h:115-122 | every record stands where its offset leads, its texts behind their lengths and each number at its byte offset |
| `OnDisk.ListOnDisk` | src/index/src/lib/disk_chunk_writer.cpp:29-57 | a posting list begins with its length, whether it has a table (above 512 postings), and the size of its stream |
| `OnDisk.NumberIs` | src/index/src/lib/buffer_reader.h:13-17 | byte i of a number in the file is its digit i to the base 256 |
| `Indexing.Tokenizer.ProcessDocument` | src/index/src/lib/tokenizer.cpp:55-84 | the tokens of the title words, marked, then of the body words, one location for each word; the end marker takes the next one |
| `Indexing.PageTokensAre` | src/index/src/lib/tokenizer.cpp:62-75 | the tokens are sorted by location, and a term stands at a location exactly if the word there gives it |
| `Indexing.InMemoryIndex.AddToken` | src/index/src/lib/in_memory_index.cpp:4-19 | appends the location to the term's list and counts the document once for each term |
| `Indexing.InMemoryIndex.FinishDocument` | src/index/src/lib/in_memory_index.cpp:21-27 | appends the end marker and the record, and forgets the terms seen |
| `Indexing.AddAllLists` | src/index/src/lib/in_memory_index.cpp:4-19 | after any tokens each term's list has grown by its occurrences, in order |
| `Indexing.AddAllCounts` | src/index/src/lib/in_memory_index.cpp:8-15 | document frequency grows by one for each document with the term, collection frequency by the occurrences, in their widths |
| `Indexing.IndexDocument` | src/main_distributed.cpp:586-610 | one document's tokens and its record enter the index |
| `Indexing.IndexPages` | src/main_distributed.cpp:586-610 | as long as the pages fit, the index holds exactly the locations of the pages, the right counts and the end of the locations; each list is as long as its term is given; the records follow each other in any case |
| `Indexing.HoldingMore` | src/index/src/lib/in_memory_index.cpp:4-27 | one more page keeps: contiguous disjoint documents, non-decreasing lists, the i-th end marker the end of document i, and a list exactly the places of its word |
| `Indexing.CountedMore` | src/index/src/lib/in_memory_index.cpp:8-15 | and the counts: document frequency is the number of documents the list touches |
| `Indexing.CountIsPages` | src/index/src/lib/in_memory_index.cpp:8-15 | the documents that a list touches are as many as the pages with a word that gives its term |
| `Indexing.TalliedMore` | src/index/src/lib/in_memory_index.cpp:4-19 | one more page makes each list longer by as often as its words give the term, counted over their expansions |
| `Indexing.PageTotal` | src/index/src/lib/in_memory_index.cpp:16-19 | after a page the location total is one more than the greatest location |
| `Indexing.RecordsAre` | src/index/src/lib/tokenizer.cpp:55-84 | the record of each page: its address and features, its word counts, and its first and last location modulo 2^32 |
| `Indexing.PagesWellIndexed` | src/index/src/lib/tokenizer.cpp:55-84 | such an index is one the iterators may rely on: documents in order, no term but the marker at an end |
| `Indexing.TouchesIfWordGives` | src/index/src/lib/tokenizer.cpp:31-53 | a term's list touches a document exactly if some word of its page gives the term |
| `Indexing.OrderedIffFits` | src/index/src/lib/tokenizer.cpp:55-84 | documents are in order if and only if all pages together fit below the sentinel |
| `TopK.TopKHeap.Push` | src/index/src/lib/query_engine.cpp:51-59 | the heap keeps the K best of all pushes |
| `TopK.TopKHeap.ExtractSorted` | src/index/src/lib/query_engine.cpp:61-73 | the K best, or all if fewer, in descending order |
| `TopK.TopKHeap.HeapifyUp` | src/index/src/lib/query_engine.cpp:15-25 | restores the heap after an insertion at the end |
| `TopK.TopKHeap.HeapifyDown` | src/index/src/lib/query_engine.cpp:27-46 | restores the heap after the root changed |
| `TopK.ScoresUnique` | src/index/src/lib/query_engine.cpp:61-73 | the list of scores of a top K is determined, however ties are broken |
| `TopK.MergeIsTopK` | src/query/worker_node.cpp:181-188 | a top K of the per-chunk top K lists is a top K of all matches of all chunks |
| `CrawlFrontier.Frontier.constructor` | src/crawler/frontier.cpp:91-107 | starts with the given items, the first ones in the reservoir and the others behind it, closed only if there are none and it closes by itself |
| `CrawlFrontier.Frontier.PushMany` | src/crawler/frontier.cpp:553-566 | every item with an address comes in, in order: into the reservoir until that is full, then behind it; nothing does after closing |
| `CrawlFrontier.Frontier.PushInternal` | src/crawler/frontier.cpp:483-500 | one item comes in, last in the reservoir or, when that is full, last behind it; both counters follow |
| `CrawlFrontier.Frontier.DoBackUp` | src/crawler/frontier.cpp:293-324 | the first 70 percent of a full back reservoir become a new chunk file exactly if that can be written; otherwise nothing changes |
| `CrawlFrontier.Frontier.LoadDiskBackedChunkFromDisk` | src/crawler/frontier.cpp:349-371 | takes the last chunk back exactly if there is one and it can be read, and changes nothing otherwise |
| `CrawlFrontier.Frontier.RefillReservoirFromDiskBacked` | src/crawler/frontier.cpp:326-347 | moves exactly the oldest half limit of items forward, or all if fewer, in order, and keeps the limit |
| `CrawlFrontier.Frontier.ScheduleHost` | src/crawler/frontier.cpp:109-129 | a host with items that is free becomes ready, a blocked one gets one entry that wakes it |
| `CrawlFrontier.Frontier.PromoteSleepingHosts` | src/crawler/frontier.cpp:131-155 | afterwards no entry is due; each host that changed was woken by a due entry of its current generation, so outdated entries wake nobody; items stay where they were |
| `CrawlFrontier.Frontier.EnqueueScheduledItem` | src/crawler/frontier.cpp:157-163 | an item in hand comes last in its host's queue, no other queue changes, and the host is scheduled |
| `CrawlFrontier.Frontier.PromoteReservoir` | src/crawler/frontier.cpp:165-290 | keeps all invariants and ends with a ready host or an empty reservoir, unless a sweep leaves the range, which needs a limit above 512; what comes forward from behind the reservoir is what `Refill` says; with a ready host nothing else changes |
| `CrawlFrontier.Frontier.Refill` | src/crawler/frontier.cpp:165-175 | with less than 30 percent of the limit in the back reservoir, the last chunk is appended exactly if it can be read; then, with less than 50 percent of the limit in the reservoir, exactly that many items of the back reservoir, or all if fewer, move behind it in order |
| `CrawlFrontier.Frontier.SweepOnce` | src/crawler/frontier.cpp:182-287 | one sweep: at most 512 places from the cursor on, or from 0 if that is behind the end; the best quarter, rounded up, leaves the reservoir, and each of them joins its host's queue in order; the cursor moves on by the places scanned |
| `CrawlFrontier.Frontier.TakeWinners` | src/crawler/frontier.cpp:188-282 | the best quarter of the window, rounded up, leaves the reservoir, exactly if the removal stays in range; the cursor moves on by the window, modulo the sizes before and after |
| `CrawlFrontier.Frontier.PopOnce` | src/crawler/frontier.cpp:626-665 | an item of a ready host that no worker has and that is not snoozed, and if hosts were ready before, the first item of the first of them; a worker waits only if every host with items is in flight or blocked; what comes forward from behind the reservoir is what `Refill` says; the host without name is handed out at most once |
| `CrawlFrontier.Frontier.HandOut` | src/crawler/frontier.cpp:631-652 | exactly the first item of the first ready host moves from its queue to the worker; the host is in flight and no longer ready |
| `CrawlFrontier.Frontier.TaskDone` | src/crawler/frontier.cpp:685-704 | the worker's item is done with and its host free, and ready, behind all others, if it has items; no other host changes; the frontier closes by itself exactly when everything that came in is done with |
| `CrawlFrontier.Frontier.ReleaseActiveHost` | src/crawler/frontier.cpp:667-683 | the host is free, and ready, behind all others, exactly if it has items; no other host changes |
| `CrawlFrontier.Frontier.SnoozeCurrent` | src/crawler/frontier.cpp:583-618 | the item is back in front of its host's queue, the host asleep until just the given time, or ready if that has come; without a remembered host the item is lost |
| `CrawlFrontier.Frontier.Snapshot` | src/crawler/frontier.cpp:502-516 | every waiting item once, except those in chunk files |
| `CrawlFrontier.Frontier.Empty` | src/crawler/frontier.cpp:718-721 | exactly when nothing waits |
| `CrawlFrontier.Frontier.HasInFlightWork` | src/crawler/frontier.cpp:723-726 | exactly when an item is with a worker or lost |
| `CrawlFrontier.EveryHostIsServed` | src/crawler/frontier.cpp:109-155 | in every reachable state each host with items is with one worker, ready once, or asleep with a current entry |
| `CrawlFrontier.NothingPending` | src/crawler/frontier.cpp:692-701 | the counter is 0 exactly when everything that came in is done with |
| `CrawlFrontier.Run` | src/crawler/frontier.cpp:583-665 | any calls by any workers, in any order: every call does exactly what it is said to do with the items, the clock and the closing of the frontier, and after a host is put to sleep, no item of it is handed out before that time; the run goes on unless a sweep leaves the range, which needs a limit above 512 |
| `CrawlFrontier.PopPatiently` | src/crawler/frontier.cpp:626-664 | a worker that asks again while it is told to wait and something can come forward stops doing so; then it has an item, or the frontier is closed, or reservoir and back reservoir are empty, and the chunk files too as long as they can be read, for limits of at least 2 and 4 |
| `CrawlFrontier.RoundShrinks` | src/crawler/frontier.cpp:165-175 | each round makes what is behind the reservoir less by what it moves forward |
| `Schedule.ExtractHostKey` | src/crawler/frontier.cpp:53-67 | the loop gives the host key, which is the text between the first "://", or the start, and the next slash, colon, question mark or hash (`HostBehindScheme`, `HostFirst`) |
| `Schedule.HostBehindScheme` | src/crawler/frontier.cpp:53-67 | for every scheme in which no "://" begins, host without slash, colon, question mark and hash, and rest that is empty or begins with one of these: the key of scheme, "://", host and rest is the host |
| `Schedule.HostFirst` | src/crawler/frontier.cpp:53-67 | for an address without "://" the key is its beginning up to the first of these bytes |
| `Schedule.AddressParts` | src/crawler/frontier.cpp:53-67 | every address is of one of these two kinds |
| `Schedule.SameHost` | src/crawler/frontier.cpp:53-67 | addresses that differ only behind the host, as in port or path, have the same key |
| `Schedule.NoHostIff` | src/crawler/frontier.cpp:53-67 | which addresses have an empty host key |
| `Schedule.WokenMore` | src/crawler/frontier.cpp:131-155 | a host is woken at most once, by an entry of its generation |
| `Schedule.OneHostChanges` | src/crawler/frontier.cpp:109-129 | a step that leaves one host in order, and others alone, leaves the schedule in order |
| `Schedule.TimePasses` | src/crawler/frontier.cpp:45-49 | the schedule stays in order while the clock moves forward |
| `Schedule.EntryTaken` | src/crawler/frontier.cpp:132-153 | a due entry wakes its host exactly if it is of the current generation and the host is free with items |
| `Schedule.ItemScheduled` | src/crawler/frontier.cpp:157-163 | an arriving item keeps the schedule in order |
| `Schedule.HostHandedOut` | src/crawler/frontier.cpp:632-648 | the first ready host exists, has items, is not in flight, is with no worker and not snoozed, so the loop passes over none |
| `Schedule.HostDone` | src/crawler/frontier.cpp:667-683 | releasing a host keeps the schedule in order |
| `Schedule.HostPutToSleep` | src/crawler/frontier.cpp:591-615 | snoozing a host keeps the schedule in order and blocks it until the time given |
| `Sweep.SelectWinners` | src/crawler/frontier.cpp:202-226 | the loop's choice, and that no candidate of the window left out scores better than one chosen |
| `Sweep.ChosenAreBest` | src/crawler/frontier.cpp:205-226 | the winners are distinct places of the window, and each scores at least as much as every place left out |
| `Sweep.RemoveWinners` | src/crawler/frontier.cpp:241-282 | when it stays in range, exactly the winners are gone; it does exactly if the window covers or wraps, or the order is safe |
| `Sweep.RemoveGreatestFirst` | src/crawler/frontier.cpp:249-271 | by decreasing index the removal is always right |
| `Sweep.RemoveLastFirst` | src/crawler/frontier.cpp:272-281 | in list order it stays in range exactly if the order is safe, and is right then |
| `Sweep.ExactIffSafe` | src/crawler/frontier.cpp:272-281 | swap-removal of distinct places stays in range if and only if place k lies before the end less k, and then removes exactly them |
| `Sweep.EarlyWindowIsSafe` | src/crawler/frontier.cpp:241-243 | a window that ends at least as many places before the end as there are winners is safe |
| `Sweep.DescendingIsSafe` | src/crawler/frontier.cpp:249-271 | descending places are a safe order |
| `Sweep.SweepWritesOutOfRange` | src/crawler/frontier.cpp:241-281 | 513 items of which the one at 511 is best: the removal leaves the range |
| `Queues.BufferedQueue.PushFront` | src/crawler/frontier.h:75-83 | the value comes first, whether or not the queue is compacted |
| `Queues.BufferedQueue.PopFront` | src/crawler/frontier.h:85-90 | the first value, and the queue without it |
| `Queues.BufferedQueue.EraseAt` | src/crawler/frontier.h:92-100 | exactly the value at the index is gone |
| `Queues.BufferedQueue.Compact` | src/crawler/frontier.h:142-153 | moving the values to the front changes no content |
| `Queues.PriorityQueue.Push` | src/utils/PriorityQueue.hpp:31-39 | one value more, still a heap |
| `Queues.PriorityQueue.ExtractTop` | src/utils/PriorityQueue.hpp:61-78 | the value with the least key, and a heap of the others; none for an empty queue, where the source throws |
| `Queues.PriorityQueue.SiftDown` | src/utils/PriorityQueue.hpp:111-134 | restores the heap below a changed place, same values |
| `Queues.PriorityQueue.SiftUp` | src/utils/PriorityQueue.hpp:98-109 | restores the heap above a changed place, same values |
| `Heaps.TopIsLeast` | src/utils/PriorityQueue.hpp:98-134 | in a heap the first element is the least |
| `Machines.Machine.RouteLinks` | src/main_distributed.cpp:406-440 | for each other machine, what is added to its batch are, in order, exactly the links of the page whose normalised address passes the checks, is allowed and hashes to that machine, one step farther from the seeds, with their anchor text; of the page's own links exactly those are queued, in order and one step farther, that were not queued before and do not collide |
| `Machines.Machine.ProcessReceivedBatch` | src/main_distributed.cpp:1040-1102 | from any payload at all, exactly the accepted links that hash here, were not queued before and do not collide are queued, in order, with their distances; all that hash here are known afterwards |
| `Machines.Machine.OutgoingSent` | src/main_distributed.cpp:413-424 | an increasing list of places names exactly the links that lead to a machine, and what is sent on are their addresses, distances and anchor texts in that order |
| `Machines.Machine.OwnLinksAre` | src/main_distributed.cpp:431-434 | the same for the links that lead to the machine itself |
| `Machines.Machine.OwnReceivedAre` | src/main_distributed.cpp:1081-1088 | the same for received links, with the distances received |
| `Machines.Machine.NewItemsTaken` | src/main_distributed.cpp:1085-1088 | of the candidates, each one is taken exactly if it is new after those before it |
| `Machines.Machine.TakeBatch` | src/main_distributed.cpp:971-973 | the sender takes the whole batch |
| `Machines.Machine.SendHeld` | src/main_distributed.cpp:975-982 | the batch in hand counts as sent exactly if a connection took its frame whole; otherwise its links are put back behind newer ones |
| `Machines.Machine.SendToPeer` | src/main_distributed.cpp:954-984 | one round of the sender: the batch is gone exactly if one of six connections took its whole frame |
| `Machines.SendBatch` | src/main_distributed.cpp:905-952 | within six attempts at most one whole frame goes out, and success is reported exactly then |
| `Machines.Happens` | src/main_distributed.cpp:356-446 | any event at any machine (a page, a payload, a batch taken, a batch tried over given connections) keeps: every discovered address at its own machine, once; every outgoing link waiting, in hand or sent; and does exactly what the event says: for a page, in each batch and on the frontier exactly the links that belong there |
| `Machines.DiscoveredOnce` | src/main_distributed.cpp:175-183 | two discoveries of one address, wherever, are the same discovery, at the machine it hashes to |
| `Machines.DroppedOnlyByCollision` | src/main_distributed.cpp:1085 | an address counts as known exactly if it was discovered here or all its probes fall on bits of others |
| `Machines.BatchArrives` | src/main_distributed.cpp:905-919 | of a batch whose texts have no tab or newline, every link whose address belongs to the receiver by the receiver's own checks is discovered there, unless it collides |
| `Bloom.UrlBloomFilter.CheckAndInsert` | src/crawler/url_dedup.cpp:498-522 | true exactly for a key not empty and not contained; sets exactly the key's bits; contained keys stay contained |
| `Bloom.UrlBloomFilter.Insert` | src/crawler/url_dedup.cpp:484-496 | sets exactly the bits of the key |
| `Bloom.UrlBloomFilter.ProbablyContains` | src/crawler/url_dedup.cpp:467-482 | true exactly if all bits of a key, not empty, are set |
| `Bloom.KnownOrCollides` | src/crawler/url_dedup.cpp:467-522 | a filter made of some keys knows those and exactly the keys that collide with others at every probe |
| `Bloom.ProbesStep` | src/crawler/url_dedup.cpp:467-522 | while 64 bits do not wrap, successive probes are the second half of the digest apart, modulo the size, and the first is one step behind the first half |
| `Wire.Socket.SendFrame` | src/main_distributed.cpp:749-769 | success means the whole frame went out, failure that a proper beginning did |
| `Wire.Socket.RecvFrame` | src/main_distributed.cpp:771-809 | however the stream is cut: what is received is the payload of the frame at its front, and a reliable stream with a whole frame is received |
| `Wire.Socket.SendAllBytes` | src/main_distributed.cpp:700-722 | all bytes in order, or a proper beginning of them |
| `Wire.Socket.RecvAllBytes` | src/main_distributed.cpp:724-747 | the next bytes of the stream, all of them on success |
| `Wire.FrameUnique` | src/main_distributed.cpp:749-809 | a stream has at most one frame at its front |
| `Wire.Socket.RecvAllFrames` | src/main_distributed.cpp:1211-1223 | frame after frame: the payloads received are the frames at the front of the stream, and on a reliable connection all of them |
| `Wire.ReceivedAsSent` | src/main_distributed.cpp:749-809 | of a stream of frames and perhaps part of one more, what is received is what was sent first, and all of it when no whole frame is left |
| `Wire.BrokenFrame` | src/main_distributed.cpp:749-809 | a frame cut short is never taken for a frame |
| `Wire.PayloadRoundTrip` | src/main_distributed.cpp:905-919 | parsing a printed batch gives the same links, for all addresses and words without tab and newline |
| `Wire.LineRoundTrip` | src/main_distributed.cpp:1053-1079 | one line gives back address, seed distance and words |
| `Wire.BuildPayload` | src/main_distributed.cpp:908-919 | one line for each link |
| `Wire.ReadLine` | src/main_distributed.cpp:1054-1079 | splits at tabs; a second field that is no number is a word; empty words are dropped |
| `Wire.SizeRoundTrip` | src/main_distributed.cpp:670-683 | a printed number reads back |
| `Wire.SizeSpelled` | src/main_distributed.cpp:670-683 | spaces, a sign and any decimal: the value, the greatest one if it is too great, and modulo 2^64 behind a minus sign |
| `Wire.NoSize` | src/main_distributed.cpp:670-683 | a text with any other byte in it is no number |
| `Wire.LineOfFields` | src/main_distributed.cpp:1054-1079 | a line of any fields: the first is the distance if it is a number, and a word otherwise |
| `Wire.NotEmptyIs` | src/main_distributed.cpp:1066-1079 | exactly the empty words are dropped |
| `Wire.PayloadJoin` | src/main_distributed.cpp:1040-1053 | two payloads with a newline between them are read as the first and then the second |
| `Wire.OneLine` | src/main_distributed.cpp:1040-1053 | a payload without newline is one line, or nothing if it is empty |
| `Wire.BigIs` | src/main_distributed.cpp:749-809 | byte j of the eight in front of a payload is the digit of its size to the base 256, the highest first |
| `RobotsWildcard.Wildcard.Match` | src/crawler/RobotsTxt.cpp:434-485 | for every pattern but the empty one: true exactly if texts put for the stars make the pattern a prefix of the path, or with `$` the path; with one backtrack point, and terminating |
| `RobotsWildcard.Wildcard.constructor` | src/crawler/RobotsTxt.cpp:492-540 | drops a leading slash, decodes what has a percent sign by `UrlDecode`, and takes off one final `$` |
| `RobotsWildcard.FitsIffDenotes` | src/crawler/RobotsTxt.cpp:434-485 | matching character by character and substituting texts for stars are the same |
| `RobotsWildcard.BackStep` | src/crawler/RobotsTxt.cpp:434-485 | going back to the last star only, one character further, loses no match |
| `RobotsWildcard.StarStep` | src/crawler/RobotsTxt.cpp:434-485 | at a new star the earlier backtrack point can be forgotten |
| `RobotsWildcard.EmptyPatternMeans` | src/crawler/RobotsTxt.cpp:434-485 | the empty pattern denotes every path, or with `$` the empty one, though the matcher rejects it |
| `RobotsWildcard.MatchRightIff` | src/crawler/RobotsTxt.cpp:434-485 | the matcher is right if and only if the pattern is not empty, or is `$` alone and the path is not empty |
| `RobotsWildcard.SlashIsEmpty` | src/crawler/RobotsTxt.cpp:507-534 | the argument "/" becomes the empty pattern |
| `RobotsWildcard.PatternEscaped` | src/crawler/RobotsTxt.cpp:504-524 | however a pattern is escaped, with a slash in front or without, it stands for the same text |
| `UrlDecoding.UrlDecode` | src/crawler/RobotsTxt.cpp:108-149 | the loop writes what `Written` says, never more bytes than it reads, up to the first byte 0 |
| `UrlDecoding.DecodesRightIff` | src/crawler/RobotsTxt.cpp:108-149 | every escape but that of a slash is replaced and all else is kept, if and only if no percent sign stands last or second to last and no escape stands for the byte 0 |
| `UrlDecoding.RoundTrip` | src/crawler/RobotsTxt.cpp:108-149 | decoding gives back any text without byte 0, whichever of its bytes are escaped, in digits of either case, as long as percent signs are and slashes are not |
| `UrlDecoding.CutShortExamples` | src/crawler/RobotsTxt.cpp:119-143 | "100%" loses its last byte and "50%a" its last two |
| `ChainedTable.HashTable.Find` | src/utils/hash/HashTable.h:90-106 | the node of the key, null exactly if the key is absent |
| `ChainedTable.HashTable.FindOrAdd` | src/utils/hash/HashTable.h:64-88 | refines a map: an absent key is added with the initial value, all else stays |
| `ChainedTable.HashTable.Optimize` | src/utils/hash/HashTable.h:108-143 | relinking keeps every node, key and value, puts each into its bucket, and leaves room for half as many again |
| `ChainedTable.HashTable.MoveChain` | src/utils/hash/HashTable.h:127-138 | moves one chain node by node into the new table |
| `ChainedTable.HashTable.Visit` | src/utils/hash/HashTable.h:245-254 | the iterator meets every key exactly once |
| `ChainedTable.HashTable.Next` | src/utils/hash/HashTable.h:215-231 | moves past exactly one node |
| `ChainedTable.LookupIsMap` | src/utils/hash/HashTable.h:64-106 | looking a key up in the table is looking it up in the map |

## Left out

- Concurrency inside one lock: frontier, batches and filter change under a lock in the source, so a run is
  a sequence of calls. Lost wakeups, fairness of the condition variable, and shutdown races are not
  modelled; `pop` is modelled by one round of its loop.
- Workers keep to the protocol of the crawler threads: pop only without an item, taskDone only with one,
  snooze only the item popped. `pushDeferred` has no caller and is left out, as are `contains` and `size`.
- Restart: recovering chunk files, their line format with its 8192-character lines, checkpoints, and a
  filter loaded from disk.
- `sleepGeneration` is unbounded in the model; in the source it has 64 bits.
- The frontier keeps its hosts in a map and its queues as sequences; that the hash table is such a map and
  `BufferedQueue` such a sequence is proved apart, in hash_table and queues.
- CrawlFrontier.Frontier.PopOnce: after a sweep that left the range it says nothing, since the source then
  writes outside the reservoir.
- TopK.TopKHeap.Push: needs K of at least 1; with K of 0 the source reads the first element of an empty heap.
- QueryEngine.QueryEngine.Search: starts from tokens; the query tokenizer is left out, and no query word is
  the end marker `#DocEnd`.
- QueryMeaning.PlanMeansQuery: for phrases that do not wrap, since otherwise it is false
  (`QueryMeaning.PhraseRightIff`). The search itself (`PageFiles.IndexAndSearch`) is stated without that.
- QuerySyntax.IntendedIff: when the parser leaves a group early and reads on in the conjunction around it,
  as in `NegatedGroupSpills`, the plan is that of other tokens, and no condition is given for when it is
  by chance the intended one. `ReadsAllIffClean` covers those queries, and so does the search, in terms of
  the plan that was read.
- PageSearch.SelectedAreMatching: for queries planned as intended and without wrapping phrases; otherwise it is
  false, as the examples named above show.
- Indexing.IndexPages: word expansion (lower case, stemming, splitting at hyphens) is a parameter that
  never gives the end marker; HTML parsing is left out.
- Iterators.IsrAnd.Seek: for targets at document boundaries, since otherwise it is false
  (`Iterators.MidDocumentSeekSkips`); no call in the model needs more.
- ChunkWriter.FlushIndexChunk: for strings below 65536 bytes and posting streams below 4 GB, the widths of the
  file's fields (`PageFiles.FitFile`); a failing write, which the source turns into an exception, is left out. Bytes are laid
  out as on a little-endian machine.
- A null positive part of an exclusion, and a reader that was not opened, do not occur in compiled trees.
- MD5, the string hash, scores, URL normalisation and quality checks are parameters.
  Scores are real numbers, so NaN and rounding are left out.
- Sockets, connecting and the handshake: a connection is a stream of bytes that may be cut anywhere and may
  fail; interrupted system calls are left out. Anchor terms collected on the way are left out.
- Wire.PayloadRoundTrip: strings may hold any byte but tab and newline; in the source a zero byte ends one.
- Robots.txt parsing and the order of its directives, the decoding of a path before it is matched, static
  rank, feature extraction, and the checkpoint writer.
