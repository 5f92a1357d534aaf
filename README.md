# sbir-grants knowledge-base server, modelled in Dafny

The sbir-grants MCP server helps applicants to Taiwan's SBIR grant
programme. This project models the logic behind its tools and proves
properties of that model. The model covers:

- **Search cache** (`search_cache.dfy`, module `SearchCache`). An LRU cache of
  search results with hit and miss counters. It is a class whose fields are
  the recency order of the keys, the entries, the capacity and the two
  counters.
- **Synonym query expansion** (`query_expansion.dfy`, module
  `QueryExpansion`). Covers three things:
  - the synonym groups;
  - the word table built from them, modelled as an insertion-ordered
    dictionary;
  - `expand_query` and `get_expanded_keywords`, as loops proved against
    specification functions.
- **Semantic chunker** (`chunker.py` → `chunker.dfy`, module `Chunker`).
  Covers:
  - front matter extraction;
  - sentence splitting;
  - boundary selection;
  - cutting the sentences into raw chunks;
  - merging small chunks, force-splitting large ones and flushing the
    trailing buffer;
  - numbering the chunks, and chunking a whole document set.

  A chunk is handled as its list of sentence lines. Its text is those lines
  joined by line breaks.
- **Server tool rules** (`server.dfy`, module `Server`):
  - `get_category_from_path`;
  - the filter and ten-item display of `search_knowledge_base`;
  - the checklist scoring of `check_proposal`;
  - the limits and subsidy split of `calculate_budget`.
- **Proposal generator** (`proposal_generator.dfy`, module
  `ProposalGenerator`). The saved question-and-answer state is the class
  `Session`. `start_proposal_generator`, `save_answer`, `get_progress` and
  `generate_proposal` are its methods.
- **ROI calculator** (`roi_calculator.dfy`, module `RoiCalculator`):
  - the industry benchmarks and the subsidy-size adjustment;
  - the revenue targets and the yearly breakdown of `calculate_roi`;
  - the level classification of `validate_roi`;
  - `_get_adjustment_note`.
- **Front matter script** (`add_frontmatter.dfy`, module `AddFrontmatter`).
  The transform of one document, and the counters of `main`.

Shared helpers:

- `text.dfy` (module `Text`) holds the Python string operations the code
  relies on:
  - `str.split` with and without a separator or `maxsplit`;
  - `join`, `strip`, `lower`, `replace`, `in`;
  - first line, base name, slicing to a length;
  - the integer percentage.
- `seqs.dfy` (module `Seqs`) holds order-preserving de-duplication (`if x not in
  acc: acc.append(x)` and `dict.fromkeys`) and flattening.
- `wrappers.dfy` holds `Option` and `Result`.

Files, the state file, the question bank and the templates are read by the
source. In the model they are parameters:

- a `glob` function from pattern to file entries, where an entry's content is
  `None` when the file cannot be read;
- `Option<QuestionBank>` and `Option<string>` for the JSON question file and
  the proposal template (`None` is a failed read);
- a map from path to text for the documents of `add_frontmatter.py`.

Sentence embeddings enter the chunker as two functions. One gives the
similarity of two sentences; the other gives the percentile of a list of
similarities.

Points where the model settles a question the prose around the code leaves
open:

- The docstring of `expand_query` (`mcp-server/query_expansion.py:75-76`)
  says "預算" expands to "補助". The code does not do this: "預算" is only in
  the 經費 group, so its table entry is 經費, 費用, 成本 and 支出
  (`BudgetEntry`). The model follows the code.
- `check_proposal` matches keywords case-sensitively on the original text; its
  lower-cased copy is unused. The `phase` argument is ignored. Both are
  modelled as written.
- `set` on a cache whose capacity is not positive raises when it meets a
  new key (`popitem` on an empty dictionary). `LruCache.Set` reports this as
  `ok == false` and leaves the cache unchanged.
- The cache key is the text `query + ":" + category`, so
  `("a:b", "c")` and `("a", "b:c")` share an entry (`KeyTextAmbiguous`).

## Model

| member | source | states |
|---|---|---|
| SearchCache.KeyText | mcp-server/search_cache.py:41 | the key is the query, a colon and the category, each recoverable by position |
| SearchCache.KeyTextAmbiguous | mcp-server/search_cache.py:41-42 | the different pairs (q + ":" + c1, c2) and (q, c1 + ":" + c2) get the same key |
| SearchCache.Remove | mcp-server/search_cache.py:78-79 | removing a key keeps exactly the other keys, keeps them distinct and shortens a distinct order by one |
| SearchCache.MoveToEndPromotes | mcp-server/search_cache.py:76-77 | promoting a present key (as `get` also does) keeps the same distinct keys, puts it last and keeps the relative order of all the others |
| SearchCache.RemoveAbsent | mcp-server/search_cache.py:78-81 | removing a key that is absent changes nothing |
| SearchCache.RemoveAppend | mcp-server/search_cache.py:81 | appending a key and then removing it restores the order without that key |
| SearchCache.SetKeepsInvariant | mcp-server/search_cache.py:76-81 | after a successful set the order is distinct, holds the key last, has at most `max_size` keys, and holds exactly the key and the old keys but the evicted one |
| SearchCache.FullSetEvictsOldest | mcp-server/search_cache.py:78-81 | a new key in a full cache evicts exactly the oldest key; the rest keep their order, the new key goes last and the size stays `max_size` |
| SearchCache.LruCache.constructor | mcp-server/search_cache.py:18-28 | an empty cache with zero counters and the given capacity |
| SearchCache.LruCache.Get | mcp-server/search_cache.py:44-63 | a hit returns the stored result, promotes the key and counts a hit; a miss returns None and counts a miss; entries never change |
| SearchCache.LruCache.Set | mcp-server/search_cache.py:65-81 | stores the result under the key; an existing key is promoted; a new key in a full cache evicts the oldest entry; it fails only for a new key in an empty cache of capacity ≤ 0 and then changes nothing; counters untouched; the size bound is kept |
| SearchCache.LruCache.Clear | mcp-server/search_cache.py:83-87 | no entries and zero counters; capacity unchanged |
| SearchCache.LruCache.Stats | mcp-server/search_cache.py:89-104 | size, capacity and counters as stored; the size is within capacity; the hit rate times the number of lookups is the number of hits, and 0 before any lookup; so it is in [0, 1], 0 iff no hits, 1 iff hits and no misses |
| SearchCache.LruCache.SizeIsOrderLength | mcp-server/search_cache.py:25 | the number of entries equals the number of keys in the recency order |
| SearchCache.DistinctCard | mcp-server/search_cache.py:100 | a duplicate-free order has as many keys as its set |
| SearchCache.FillOrders | mcp-server/search_cache.py:121-123 | three distinct keys set into an empty cache of capacity 3 stay in insertion order |
| SearchCache.ScenarioOrders | mcp-server/search_cache.py:126-129 | getting the oldest key moves it last, so the next new key evicts the second key inserted |
| SearchCache.FillThree | mcp-server/search_cache.py:118-123 | after three sets of distinct keys the cache holds exactly those three results in insertion order |
| SearchCache.EvictionScenario | mcp-server/search_cache.py:118-132 | set k1, k2, k3, get k1, set k4: then k2 misses and k3 still returns its result |
| SearchCache.CapacityThreeScenario | mcp-server/search_cache.py:116-133 | the test run of the file: "Phase 2" is evicted, "補助金額" still returns 結果3 |
| QueryExpansion.Without | mcp-server/query_expansion.py:61 | the group minus a word holds exactly the other members |
| QueryExpansion.Insert | mcp-server/query_expansion.py:61 | assigning a key sets its value and leaves every other key and value as it was; the table stays an insertion-ordered dictionary |
| QueryExpansion.InsertWords | mcp-server/query_expansion.py:60-61 | the inner loop keeps the table well formed |
| QueryExpansion.InsertGroups | mcp-server/query_expansion.py:59-61 | the outer loop keeps the table well formed |
| QueryExpansion.BuildWordTable | mcp-server/query_expansion.py:57-61 | the nested construction loops build exactly the specified word table |
| QueryExpansion.InsertGroupWords | mcp-server/query_expansion.py:60-61 | the loop over one group inserts every word of it in order |
| QueryExpansion.InsertWordsStep | mcp-server/query_expansion.py:60-61 | one more word of the group is one more insertion |
| QueryExpansion.InsertWordsFrame | mcp-server/query_expansion.py:60-61 | inserting words leaves a key none of them lower-cases to untouched |
| QueryExpansion.InsertWordsSets | mcp-server/query_expansion.py:60-61 | after a group's words are inserted, a word unique in its group maps to the group minus that word |
| QueryExpansion.InsertGroupsFrame | mcp-server/query_expansion.py:59-61 | groups none of whose words lower-case to a key leave that key untouched |
| QueryExpansion.TableEntry | mcp-server/query_expansion.py:58-61 | a word's entry is its group minus the word, taken from the last group that holds the word, so a later group wins |
| QueryExpansion.TableEntryFrom | mcp-server/query_expansion.py:59-61 | the same, starting from any well-formed table |
| QueryExpansion.SynonymGroupsWellFormed | mcp-server/query_expansion.py:14-55 | no synonym group holds an empty word |
| QueryExpansion.WithoutSecond | mcp-server/query_expansion.py:61 | removing the second word of a five-word group that holds it once leaves the other four in order |
| QueryExpansion.SecondWordEntry | mcp-server/query_expansion.py:58-61 | the table entry of such a word, in the last group holding it, is the other four words |
| QueryExpansion.LowerKeepsBudget | mcp-server/query_expansion.py:61 | a word lower-casing like "預算" starts with 預 |
| QueryExpansion.BudgetNotLater | mcp-server/query_expansion.py:45-55 | no group after the 經費 group holds a word lower-casing to "預算" |
| QueryExpansion.BudgetOnceInGroup | mcp-server/query_expansion.py:44 | the 經費 group lists "預算" once |
| QueryExpansion.BudgetEntry | mcp-server/query_expansion.py:14-61 | the table entry of "預算" is exactly 經費, 費用, 成本 and 支出, so it does not expand to 補助 |
| QueryExpansion.Bidirectional | mcp-server/query_expansion.py:59-61 | two distinct words of one group, in no other group, each list the other as a synonym |
| QueryExpansion.TableKeysAreWords | mcp-server/query_expansion.py:59-61 | every table key is the lower-cased form of some group word |
| QueryExpansion.OriginalCase | mcp-server/query_expansion.py:87-94 | the original casing, when found, is a group word that lower-cases to the key; none is found only when no group word does |
| QueryExpansion.FirstInGroup | mcp-server/query_expansion.py:89-92 | the first word of a group that lower-cases to the key, or none when no word does |
| QueryExpansion.FindOriginalCase | mcp-server/query_expansion.py:87-94 | the search loops with their breaks find the first group, and the first word in it, that lower-cases to the key |
| QueryExpansion.CandidatesStep | mcp-server/query_expansion.py:84-85 | one more table key adds its variants exactly when the lower-cased query contains it |
| QueryExpansion.ExpandQuery | mcp-server/query_expansion.py:64-106 | the result is the specified expansion, its first element is the query and it has no duplicates |
| QueryExpansion.ExpandKeys | mcp-server/query_expansion.py:84-104 | the loop over the table adds every new variant of every matched key, in table order |
| QueryExpansion.ExpansionShape | mcp-server/query_expansion.py:80-104 | the expansion starts with the query and has no duplicates |
| QueryExpansion.AddVariants | mcp-server/query_expansion.py:96-104 | the loop over the synonyms appends each new variant once, in order |
| QueryExpansion.NoMatchAlone | mcp-server/query_expansion.py:84-85 | when no table word occurs in the lower-cased query the expansion is exactly `[query]` |
| QueryExpansion.NoCandidates | mcp-server/query_expansion.py:84-85 | keys that do not occur in the lower-cased query contribute no variant |
| QueryExpansion.CandidatesExactly | mcp-server/query_expansion.py:84-101 | a string is a candidate iff it is the variant for some matched key and one of its synonyms |
| QueryExpansion.ExpansionMembers | mcp-server/query_expansion.py:80-106 | a string is in the expansion iff it is the query or the variant for a matched table key and one of its synonyms |
| QueryExpansion.QueryKeywords | mcp-server/query_expansion.py:127 | the keywords of one query are non-empty, lower-case and free of white space |
| QueryExpansion.AllKeywords | mcp-server/query_expansion.py:126-128 | all collected keywords are non-empty and lower-case |
| QueryExpansion.ExpandedKeywords | mcp-server/query_expansion.py:109-131 | the result is the keywords of all expansions with duplicates removed in first-occurrence order: distinct, non-empty and lower-case |
| Chunker.ExtractFrontmatter | mcp-server/chunker.py:26-45 | without front matter the content is returned unchanged |
| Chunker.FrontmatterFound | mcp-server/chunker.py:35-37 | front matter is found iff the stripped content starts with `---` and the content holds two non-overlapping `---` |
| Chunker.FrontmatterParts | mcp-server/chunker.py:36-43 | with front matter, the content is the part before the first marker, the marker, the header, the marker and the rest; neither the part before nor the header holds a marker; the body is the stripped rest |
| Chunker.Pieces | mcp-server/chunker.py:57-58 | splitting at sentence ends gives at least one piece, none holding 。！？!? or a line break |
| Chunker.PiecesOfLines | mcp-server/chunker.py:57-58 | a text with no end mark but line breaks splits into its lines |
| Chunker.KeepSentences | mcp-server/chunker.py:61-66 | every kept sentence has at least 10 characters and is a stripped piece |
| Chunker.SentencesShape | mcp-server/chunker.py:48-68 | every sentence is non-empty, stripped, and holds no end mark or line break |
| Chunker.StripPiece | mcp-server/chunker.py:63-65 | a stripped long piece is a clean sentence line |
| Chunker.SplitSentences | mcp-server/chunker.py:48-68 | the filtering loop returns exactly the specified sentences, in text order |
| Chunker.FindBoundaries | mcp-server/chunker.py:76-102 | the boundaries are exactly `Boundaries` of the sentences: none for at most one sentence; k is a boundary iff 1 ≤ k < n and the similarity of sentences k − 1 and k is below the percentile threshold; boundaries strictly increase within [1, n − 1] |
| Chunker.SelectBoundaries | mcp-server/chunker.py:97-102 | the selection loop returns exactly `Selected`: index i + 1 is selected iff similarity i is below the threshold |
| Chunker.Selected | mcp-server/chunker.py:97-102 | k is selected iff 1 ≤ k ≤ the number of similarities and similarity k − 1 is below the threshold; the selection strictly increases within [1, n] |
| Chunker.Boundaries | mcp-server/chunker.py:82-102 | the boundaries of n sentences strictly increase within [1, n − 1] |
| Chunker.CutsIncrease | mcp-server/chunker.py:157-158 | chunk starts and ends strictly increase and stay within the sentences |
| Chunker.RawChunks | mcp-server/chunker.py:157-163 | the raw chunks are exactly `Segments`, the sentences from each cut to the next; one more raw chunk than boundaries, each non-empty, each after the first starting at its boundary, together exactly the sentences in order |
| Chunker.SizeAppend | mcp-server/chunker.py:172-180 | joining two chunks costs one line break more than their lengths |
| Chunker.ForceSplit | mcp-server/chunker.py:184-195 | the pieces are exactly `Greedy`, the left-to-right split of lines 186-195; so they are non-empty and together the chunk's lines, each is a single line or at most `max_chunk_size` + 1 long, every line after the first of a piece was added because `len(current) + len(sentence) <= max_chunk_size`, and every piece after the first was started because adding its first line to the piece before would exceed `max_chunk_size` |
| Chunker.GreedyRule | mcp-server/chunker.py:186-195 | the greedy split of some lines is non-empty, its pieces are non-empty and fit, together they are the lines, and it obeys the within and the maximality rule of lines 188-193 |
| Chunker.SplitStateInv | mcp-server/chunker.py:186-193 | the loop state after any prefix of lines holds the split invariant: pieces and current together are the lines, all pieces greedy, and each piece after the first started by overflow |
| Chunker.SplitStepInv | mcp-server/chunker.py:187-193 | one line preserves the split invariant |
| Chunker.SplitStartInv | mcp-server/chunker.py:188-191 | starting a new piece with a line that overflows preserves the split invariant |
| Chunker.SplitFinishInv | mcp-server/chunker.py:189-191 | closing a non-empty current piece and starting the next preserves the split invariant |
| Chunker.SplitAddInv | mcp-server/chunker.py:192-193 | adding a line that fits to the current piece preserves the split invariant |
| Chunker.GreedyPieceFits | mcp-server/chunker.py:188-193 | a piece built by the within rule is one line or at most `max_chunk_size` + 1 long |
| Chunker.MergeChunks | mcp-server/chunker.py:165-204 | the loop leaves exactly `MergeLoop(raw)`, the fold of `Step` over the raw chunks, and the result is `Flush` of it, i.e. `Merge(raw)`: kept as it is without a buffer, the buffer appended to the last chunk when shorter than `min_chunk_size` and a chunk exists, else the buffer as a chunk of its own; also the merged chunks together are the raw chunks' lines in order, every chunk but the last is a single line, at most `max_chunk_size` + 1 long or a buffer of at most `min_chunk_size`, and the last one is too or is such a chunk plus a trailing buffer shorter than `min_chunk_size` |
| Chunker.MergeStep | mcp-server/chunker.py:169-197 | one pass gives exactly `Step`: a pair shorter than `min_chunk_size` goes into the buffer with nothing emitted; otherwise the buffer empties, and a buffer that reached `min_chunk_size` is emitted whole before `Emit` of the chunk, else `Emit` of buffer and chunk together is appended; the lines keep their order, emitted chunks stay sized and the buffer short |
| Chunker.EmitChunk | mcp-server/chunker.py:183-197 | exactly `Emit` of the chunk is appended: the chunk whole when within `max_chunk_size`, its `Greedy` split otherwise; the lines keep their order and every emitted chunk is sized |
| Chunker.FlushBuffer | mcp-server/chunker.py:199-204 | the result is exactly `Flush`: without a buffer the chunks are unchanged; a buffer shorter than `min_chunk_size` is appended, after a line break, to the last chunk when one exists; any other buffer becomes a chunk of its own; lines keep their order and every chunk but the last stays sized |
| Chunker.AppendToLast | mcp-server/chunker.py:200-201 | appending a short trailing buffer to the last chunk keeps the lines in order, every chunk but the last sized, and the last sized up to that buffer |
| Chunker.BufferStaysShort | mcp-server/chunker.py:170-172 | a buffer and a chunk that together stay below `min_chunk_size` make a buffer no longer than `min_chunk_size` |
| Chunker.EmitWithBuffer | mcp-server/chunker.py:174-197 | when buffer and chunk reach `min_chunk_size`, the result is exactly the `Step` result with an empty buffer: the buffer emitted whole when it reached `min_chunk_size`, else put in front of the chunk, and then `Emit`; the lines keep their order and every emitted chunk is sized |
| Chunker.LinesAsText | mcp-server/chunker.py:162 | for clean lines, joining is empty only for no lines, joining concatenations joins the parts, and splitting the joined text gives the lines back |
| Chunker.JoinTexts | mcp-server/chunker.py:162-172 | joining the chunk texts equals joining all their lines |
| Chunker.FlattenNonEmpty | mcp-server/chunker.py:157-163 | chunks with a non-empty first chunk hold some line |
| Chunker.ChunkIdsDistinct | mcp-server/chunker.py:215 | chunk ids of one path are equal iff their indices are, and never equal the whole-document id `<path>::0` of line 136 |
| Chunker.Preview | mcp-server/chunker.py:212 | the preview is the longest prefix of the text of at most 50 characters without a line break: it stops at 50 characters, at the end of the text or at the first line break |
| Chunker.FormatChunks | mcp-server/chunker.py:206-229 | the result is exactly `Formatted`: chunk i is `ChunkOf` merged chunk i, with id `<path>::chunk_i`, index i, the total count, the stripped text, the preview of the text and the file metadata |
| Chunker.SemanticChunk | mcp-server/chunker.py:105-229 | the chunks are exactly `SemanticChunks`: the stripped body as the single chunk `<path>::0` for at most one sentence, else `Formatted` of `MergedChunks`, the `Merge` of the `Segments` between the `Boundaries`; and `ChunksOf`: some chunks (the source raises instead on a header YAML does not read as a mapping, see Left out), numbered 0.. with the total and the document's metadata; for two or more sentences `SentenceChunks`: ids `<path>::chunk_<i>`, each preview is `Preview` of the chunk's content, every chunk but the last is a single sentence or at most 801 characters, and the contents joined by line breaks are the sentences joined by line breaks |
| Chunker.ChunkSentences | mcp-server/chunker.py:149-229 | for two or more clean sentences the chunks are exactly `Formatted` of `MergedChunks`; they are non-empty, numbered with the total and the metadata, and satisfy `SentenceChunks` (ids, previews of the contents, size bound on all but the last, contents joined are the sentences joined) |
| Chunker.MergeSentences | mcp-server/chunker.py:153-204 | the steps are pinned: the boundaries are `Boundaries` of the sentences, the raw chunks `Segments` between them, and the merged chunks `Merge` of those, which is `MergedChunks`; the merged chunks are non-empty, each non-empty, together the sentences, and all but the last sized |
| Chunker.FormattedSentenceChunks | mcp-server/chunker.py:207-216 | numbered merged chunks of clean sentences have contents equal to their texts, previews of those contents, a fitting size for all but the last, and contents that join back to the sentences |
| Chunker.SizedChunkText | mcp-server/chunker.py:183-197 | a sized chunk of sentences is one sentence or at most 801 characters long |
| Chunker.ContentsAreTexts | mcp-server/chunker.py:216 | stripping a chunk of whole sentences changes nothing |
| Chunker.CleanChunkText | mcp-server/chunker.py:216 | the joined text of clean lines is its own strip |
| Chunker.ChunkAllDocuments | mcp-server/chunker.py:232-259 | the result is the documents' chunk lists one after the other, the list of each document exactly `SemanticChunks` of its content, file name and path, and so satisfying `ChunksOf`; so every document yields a chunk and every chunk carries the path and file name of one of the documents |
| Chunker.AppendDocument | mcp-server/chunker.py:257 | extending the chunk lists by one document's chunks keeps each document's list its own `SemanticChunks` |
| Chunker.OwnedAll | mcp-server/chunker.py:244-257 | the loop invariant at the end gives both directions of ownership |
| Chunker.ChunkDocument | mcp-server/chunker.py:245-255 | one document's chunks are exactly `SemanticChunks` of its content, its path and its file name (metadata name, else the last path part), and satisfy `ChunksOf`, so they are non-empty and carry that path and name |
| Chunker.AppendChunks | mcp-server/chunker.py:257 | appending a document's chunks keeps every chunk owned and gives that document a chunk |
| Server.ClassifyFirst | mcp-server/server.py:484-499 | the first rule whose substring occurs in the path decides the category |
| Server.ClassifyNone | mcp-server/server.py:498-499 | the fallback category comes out iff no rule's substring occurs |
| Server.CategoryFromPathMeaning | mcp-server/server.py:484-497 | the first of methodology, faq, checklist, case_studies, template, quick_start in the path gives its label, never 其他 |
| Server.OtherCategoryExactly | mcp-server/server.py:484-499 | 其他 iff none of the six substrings occurs in the path |
| Server.UnknownCategorySearchesAll | mcp-server/server.py:370-379 | an unknown category searches `**/*.md`, like "all" |
| Server.Relevant | mcp-server/server.py:386-405 | at most one hit per file |
| Server.RelevantExactly | mcp-server/server.py:386-405 | a hit is listed iff some readable file's lower-cased base name or first 500 characters contain the lower-cased query |
| Server.RelevantComplete | mcp-server/server.py:389-403 | every readable matching file is listed |
| Server.RelevantSound | mcp-server/server.py:389-405 | every listed hit comes from a readable matching file |
| Server.FilterFiles | mcp-server/server.py:386-405 | the filtering loop lists exactly the relevant files, in glob order |
| Server.Present | mcp-server/server.py:408-432 | at most 10 hits are shown, the first ones; the shown and the omitted count add up to the hits; an omitted count appears only past 10 |
| Server.SearchKnowledgeBase | mcp-server/server.py:364-432 | the outcome presents the relevant files of the category's pattern; "not found" iff there are none |
| Server.AnyKeyword | mcp-server/server.py:914 | an item is found iff one of its keywords is a case-sensitive substring of the proposal |
| Server.FoundIn | mcp-server/server.py:944 | the found items are at most all items |
| Server.Phase1Shape | mcp-server/server.py:832-897 | eight categories of three items each |
| Server.ResultCountUniform | mcp-server/server.py:905-912 | categories of n items each give n times as many items |
| Server.CheckProposal | mcp-server/server.py:825-939 | the phase is ignored; each category is judged; 24 items in total; passed is the found count, at most 24; the percentage is ⌊passed·100/24⌋ |
| Server.CheckAll | mcp-server/server.py:899-927 | the scoring loop judges every category in order and counts all items and the found ones |
| Server.CheckCategoryItems | mcp-server/server.py:911-926 | the inner loop judges each item and counts the found ones |
| Server.FoundAtMostCount | mcp-server/server.py:912-916 | passed never exceeds total |
| Server.FoundInAll | mcp-server/server.py:944-950 | the found count is the item count iff all are found, 0 iff none is |
| Server.CategoryStatusMeaning | mcp-server/server.py:943-952 | ✅ iff every item is found, ❌ iff there are items and none is found, ⚠️ iff some are found and some are not |
| Server.MissingCount | mcp-server/server.py:962-967 | missing items and found items together are all items |
| Server.MissingInCount | mcp-server/server.py:962-967 | the same within one category |
| Server.MissingShown | mcp-server/server.py:969-981 | at most 10 missing items are listed, the first ones; listed plus the remainder count are all missing items; a remainder is reported only when it is positive, and then exactly 10 are listed |
| Server.UnknownPhaseIsPhase1 | mcp-server/server.py:691-697 | an unknown phase gets the phase1 limits |
| Server.RatioSumSeven | mcp-server/server.py:706-745 | the ratio sum of a seven-item template is the sum of its seven ratios |
| Server.TemplateSums | mcp-server/server.py:706-745 | the ratios of each of the four templates add up to 1 |
| Server.TemplatesAreComplete | mcp-server/server.py:706-745 | any project type, known or not, gets seven items from 人事費 to 管理費 whose ratios add up to 1 |
| Server.Allocate | mcp-server/server.py:773-775 | one amount per template item: the total times its ratio |
| Server.AllocateSum | mcp-server/server.py:773-775 | the amounts add up to the total times the ratio sum |
| Server.CalculateBudget | mcp-server/server.py:685-749 | rejected iff the total exceeds the phase maximum, reporting that limit; otherwise subsidy plus self-funding is the total, and the subsidy is half the total capped at the phase subsidy maximum |
| Server.BudgetAllocationAddsUp | mcp-server/server.py:745-775 | an accepted budget's allocation adds up to the total |
| Server.Phase1SubsidyIsHalf | mcp-server/server.py:747-749 | for every project type, an accepted phase1 budget is subsidised at exactly half |
| ProposalGenerator.Ids | mcp-server/proposal_generator_impl.py:102 | the answered ids in answer order |
| ProposalGenerator.Lookup | mcp-server/proposal_generator_impl.py:210-211 | an id has an answer iff it was answered |
| ProposalGenerator.Put | mcp-server/proposal_generator_impl.py:102 | storing an answer adds an entry only for a new id |
| ProposalGenerator.PutLookup | mcp-server/proposal_generator_impl.py:102 | after storing, the id reads back the new answer and every other id its old one |
| ProposalGenerator.PutIds | mcp-server/proposal_generator_impl.py:102 | a new id is appended to the ids; a known id keeps its place |
| ProposalGenerator.PutNoDups | mcp-server/proposal_generator_impl.py:102 | the answered ids stay distinct |
| ProposalGenerator.ProgressBar | mcp-server/proposal_generator_impl.py:146 | cell i is filled iff i < progress/5, empty otherwise; 20 cells whenever progress ≤ 100; `get_progress` draws the same bar (line 188) |
| ProposalGenerator.Shorten | mcp-server/proposal_generator_impl.py:213 | answers of at most 50 characters are shown whole, longer ones as their first 50 characters and "..." |
| ProposalGenerator.AnsweredList | mcp-server/proposal_generator_impl.py:208-214 | at most one line per question |
| ProposalGenerator.AnsweredListExactly | mcp-server/proposal_generator_impl.py:208-214 | a line is listed iff some question has an answer and the line is its text and shortened answer |
| ProposalGenerator.AnsweredListComplete | mcp-server/proposal_generator_impl.py:209-214 | every answered question is listed |
| ProposalGenerator.AnsweredListSound | mcp-server/proposal_generator_impl.py:209-214 | every listed line belongs to an answered question |
| ProposalGenerator.Placeholder | mcp-server/proposal_generator_impl.py:259 | a placeholder is the id in double braces |
| ProposalGenerator.ProjectTitle | mcp-server/proposal_generator_impl.py:262 | the title is the first 30 characters of the solution description (all of it when shorter), or of 創新研發計畫 without one, followed by "..." |
| ProposalGenerator.ProblemSummary | mcp-server/proposal_generator_impl.py:263 | exactly the first 50 characters of the problem description (all of it when shorter), empty without one |
| ProposalGenerator.SubstituteNoPlaceholder | mcp-server/proposal_generator_impl.py:257-259 | a template without "{{" is left as it is by the answer substitutions |
| ProposalGenerator.ComposeNoPlaceholder | mcp-server/proposal_generator_impl.py:257-263 | a template without "{{" is the proposal unchanged |
| ProposalGenerator.NoBraceNoPlaceholder | mcp-server/proposal_generator_impl.py:259 | a text without "{" holds no placeholder, so its replacement leaves it as it is |
| ProposalGenerator.TemplateBraces | mcp-server/proposal_generator_impl.py:259 | the only "{" of a template with one placeholder and no other braces are the two that open it |
| ProposalGenerator.OnlyPlaceholder | mcp-server/proposal_generator_impl.py:258-259 | such a template holds no placeholder of another question id |
| ProposalGenerator.ReplaceOnlyPlaceholder | mcp-server/proposal_generator_impl.py:259 | replacing its placeholder gives the text before it, the answer and the text after it |
| ProposalGenerator.LookupFound | mcp-server/proposal_generator_impl.py:258 | an answer found for an id is the answer of some saved entry |
| ProposalGenerator.LookupAppend | mcp-server/proposal_generator_impl.py:258 | a saved answer is still found after another entry is added for a different id |
| ProposalGenerator.SubstituteOnePlaceholder | mcp-server/proposal_generator_impl.py:257-259 | in a template whose one placeholder is question id, the answer substitutions put that question's answer in its place and change nothing else; an unanswered placeholder stays |
| ProposalGenerator.ComposeOnePlaceholder | mcp-server/proposal_generator_impl.py:257-263 | for an answered question the proposal is the template with its placeholder replaced by the answer, and nothing else changed |
| ProposalGenerator.Session.constructor | mcp-server/proposal_generator_impl.py:20 | no state saved yet |
| ProposalGenerator.Session.Start | mcp-server/proposal_generator_impl.py:26-83 | with the question file, a fresh state (question 1, no answers, not completed, the announced total) and the first question, or a failure when there is none; without it nothing changes |
| ProposalGenerator.Session.SaveAnswer | mcp-server/proposal_generator_impl.py:85-170 | without a state nothing changes; otherwise the answer is stored and the current question becomes the answer count + 1; completed exactly when that passes the total; else the next question with progress and bar; it fails, changing nothing, exactly when the question file is missing or no question exists at the next position while questions remain (otherwise the next question is returned); answers never shrink, completion is never undone, re-answering does not move on |
| ProposalGenerator.Session.GetProgress | mcp-server/proposal_generator_impl.py:172-227 | without a state, not started; with no total or no question file, a failure; otherwise the percentage, its bar, the answered questions in question order, and the next question unless completed |
| ProposalGenerator.Session.Generate | mcp-server/proposal_generator_impl.py:229-263 | refused without a state or before completion; a missing template fails; otherwise each answer replaces its placeholder in answer order, then the title and summary placeholders are filled |
| RoiCalculator.UnknownIndustryIsManufacturing | mcp-server/roi_calculator.py:47-50 | an unknown industry gets the 製造業 benchmark 3.0 / 4.5 / 6.0, in `calculate_roi` and `validate_roi` (lines 143-146) alike |
| RoiCalculator.BenchmarksOrdered | mcp-server/roi_calculator.py:11-22 | every industry's benchmark has minimum < recommended < excellent |
| RoiCalculator.AdjustmentFactor | mcp-server/roi_calculator.py:58-63 | 0.8 iff the subsidy is at least 600, 0.9 iff it is in [300, 600), 1.0 iff below 300; `validate_roi` uses the same tiers (lines 149-154) |
| RoiCalculator.AdjustmentFactorMonotone | mcp-server/roi_calculator.py:58-63 | a larger subsidy never gets a larger factor |
| RoiCalculator.Adjusted | mcp-server/roi_calculator.py:156-158 | scaling an ordered benchmark keeps it ordered |
| RoiCalculator.YearDistribution | mcp-server/roi_calculator.py:70-75 | three yearly shares for phase1, five otherwise |
| RoiCalculator.YearDistributionComplete | mcp-server/roi_calculator.py:72-75 | the yearly shares add up to 1 |
| RoiCalculator.Breakdown | mcp-server/roi_calculator.py:78-85 | one row per yearly share |
| RoiCalculator.BreakdownYears | mcp-server/roi_calculator.py:79-81 | the rows are numbered 1, 2, … |
| RoiCalculator.BreakdownSum | mcp-server/roi_calculator.py:78-85 | the recommended yearly amounts add up to the recommended target times the sum of the shares |
| RoiCalculator.CalculateRoi | mcp-server/roi_calculator.py:25-117 | the industry's benchmark, the adjusted multiples, the targets, the yearly breakdown and the note; for a positive subsidy min < recommended < excellent |
| RoiCalculator.TargetsFor | mcp-server/roi_calculator.py:53-67 | the targets keep the benchmark's order for a positive subsidy |
| RoiCalculator.Revenues | mcp-server/roi_calculator.py:53-67 | the revenues computed with `*=` are the specified targets |
| RoiCalculator.YearlyBreakdown | mcp-server/roi_calculator.py:77-85 | the loop builds the specified yearly rows |
| RoiCalculator.TargetsOrdered | mcp-server/roi_calculator.py:53-67 | subsidy times ordered multiples times a positive factor stays ordered |
| RoiCalculator.RoiPlanYears | mcp-server/roi_calculator.py:69-85 | 3 years for phase1 and 5 otherwise, numbered from 1, whose recommended amounts add up to the recommended target |
| RoiCalculator.ActualRoas | mcp-server/roi_calculator.py:140 | the ROAS times the subsidy is the expected revenue when the subsidy is positive, else the ROAS is 0 |
| RoiCalculator.ValidateRoi | mcp-server/roi_calculator.py:120-180 | the ROAS and the adjusted, ordered benchmark of the industry |
| RoiCalculator.LevelPartition | mcp-server/roi_calculator.py:161-180 | 不足 iff ROAS < min, 及格 iff min ≤ ROAS < recommended, 良好 iff recommended ≤ ROAS < excellent, 優秀 iff excellent ≤ ROAS |
| RoiCalculator.LevelMonotone | mcp-server/roi_calculator.py:161-180 | a higher ROAS never gets a lower level |
| RoiCalculator.DivideMonotone | mcp-server/roi_calculator.py:140 | dividing by a positive subsidy keeps the order |
| RoiCalculator.ValidateMonotone | mcp-server/roi_calculator.py:139-180 | more expected revenue never gets a lower level |
| RoiCalculator.NoAdjustmentExactly | mcp-server/roi_calculator.py:208-231 | the note is 無特殊調整 iff no rule fires |
| RoiCalculator.SizeNoteMatchesFactor | mcp-server/roi_calculator.py:212-216 | there is no size note iff the factor is 1.0, and the 20% note iff it is 0.8 |
| AddFrontmatter.Block | mcp-server/add_frontmatter.py:10-16 | the formatted block starts with `---` |
| AddFrontmatter.AddBlock | mcp-server/add_frontmatter.py:18-43 | a document is skipped iff its stripped text starts with `---`; otherwise the new text starts with `---` and ends with the whole old text |
| AddFrontmatter.StartsWithDelimiter | mcp-server/add_frontmatter.py:25 | a text starting with `---` counts as having front matter |
| AddFrontmatter.ApplyIdempotent | mcp-server/add_frontmatter.py:25-37 | a processed document has front matter and is skipped, so processing twice is processing once |
| AddFrontmatter.HeadingTitle | mcp-server/add_frontmatter.py:30-32 | a first line `# heading` gives the stripped heading as the title |
| AddFrontmatter.FirstLineOf | mcp-server/add_frontmatter.py:30 | the first line ends at the first line break |
| AddFrontmatter.AddedCount | mcp-server/add_frontmatter.py:64-71 | no more additions than paths |
| AddFrontmatter.Processed | mcp-server/add_frontmatter.py:67-71 | processing keeps the set of files |
| AddFrontmatter.ProcessFiles | mcp-server/add_frontmatter.py:49-71 | added + skipped is the number of paths; added counts first visits of readable files without front matter; afterwards every visited file holds its processed text and every other file its old text |
| AddFrontmatter.Visit | mcp-server/add_frontmatter.py:18-47 | a visit adds a block iff the file is readable, not visited before and without front matter, and then writes the processed text |
| AddFrontmatter.VisitCounts | mcp-server/add_frontmatter.py:68-71 | a visit that adds raises the count by one, any other leaves it |
| AddFrontmatter.VisitFiles | mcp-server/add_frontmatter.py:39-40 | a visit that adds replaces the file's text; any other, a repeated path included, leaves the files as they were |
| AddFrontmatter.ProcessedAt | mcp-server/add_frontmatter.py:67-68 | a visited file holds its processed text, another its old text |
| Text.SplitOnJoin | mcp-server/chunker.py:36 | joining the parts of `split(sep, maxsplit)` with the separator gives the text back |
| Text.SplitOnTwice | mcp-server/chunker.py:36-37 | `split(sep, 2)` has three parts iff the separator occurs twice without overlap |
| Text.SplitOnPieces | mcp-server/chunker.py:36 | every part but the last is free of the separator |
| Text.JoinSplit | mcp-server/chunker.py:187 | splitting at a character and joining with it gives the text back |
| Text.SplitJoin | mcp-server/chunker.py:187 | joining pieces free of a character and splitting at it gives the pieces back |
| Text.LowerIdempotent | mcp-server/query_expansion.py:61 | lower-casing twice is lower-casing once |
| Text.StripIsSlice | mcp-server/chunker.py:63 | the strip is a slice of the text with only white space outside it and none at its ends |
| Text.ReplaceAbsent | mcp-server/proposal_generator_impl.py:259 | replacing a pattern that does not occur changes nothing |
| Text.ReplaceSame | mcp-server/query_expansion.py:99 | replacing a pattern by itself changes nothing |
| Text.ReplaceSkip | mcp-server/proposal_generator_impl.py:259 | a prefix holding no occurrence of the pattern is kept as it is |
| Text.ReplaceHere | mcp-server/proposal_generator_impl.py:259 | a text starting with the pattern starts with the replacement, and the rest is replaced in turn |
| Text.ReplaceAtFirst | mcp-server/proposal_generator_impl.py:259 | at the first occurrence the text before it is kept, the occurrence becomes the replacement and the rest is replaced in turn |
| Text.ReplaceIsSplitJoin | mcp-server/proposal_generator_impl.py:259 | `replace(old, new)` is the parts of `split(old)` joined by `new`, the defining property of Python's `str.replace` |
| Text.ReplaceSplitJoinStep | mcp-server/proposal_generator_impl.py:259 | when the rest after the first occurrence is its split parts joined by the replacement, so is the whole text |
| Text.FirstLine | mcp-server/add_frontmatter.py:30 | the first line is a prefix without line breaks, ending at the first one |
| Text.Take | mcp-server/chunker.py:212 | slicing to a length gives the prefix of exactly that length, or the whole text when it is shorter |
| Text.Percent | mcp-server/server.py:939 | p·whole ≤ part·100 < (p + 1)·whole, and at most 100 for a part within the whole |
| Text.ParseNatToString | mcp-server/chunker.py:215 | the decimal rendering of an index reads back as that index |
| Text.NatToStringInjective | mcp-server/chunker.py:215 | different indices render differently |
| Seqs.AddAll | mcp-server/query_expansion.py:103-104 | appending only new elements keeps the prefix, keeps it duplicate-free and contains every added element |
| Seqs.AddAllOrder | mcp-server/query_expansion.py:131 | the new elements keep their first-occurrence order |
| Seqs.AddAllConcat | mcp-server/query_expansion.py:103-104 | adding two lists in turn is adding their concatenation |
| Seqs.DedupFirst | mcp-server/query_expansion.py:131 | de-duplication keeps the first element first |
| Seqs.FlattenConcat | mcp-server/chunker.py:157-163 | flattening a concatenation concatenates the flattenings |

## Left out

- Sentence embeddings, `cosine_similarity` and `np.percentile` are not
  modelled. They are foreign numeric code, so the chunker takes a
  similarity function and a percentile function as parameters.
- `yaml.safe_load` is left out. The header is kept as the text between the
  markers. A header that YAML fails to parse, which the source only reports,
  is not distinguished.
- The markdown heading rewrite of `split_chinese_sentences` (a regular
  expression that appends 。 to a heading line) is not modelled. It only
  puts an end mark right before a line end, which is already a sentence end,
  so the sentences are the same.
- Chunker.SemanticChunk treats every header as text and always yields
  chunks. In the source, a header that YAML reads as a scalar or a list
  (not a mapping) makes `frontmatter.get` raise at
  `mcp-server/chunker.py:143` or `:223`, so such a document gets no chunks.
  The model does not capture this error.
- Chunker.SemanticChunk uses the default sizes 50 and 800 and percentile 25,
  which are the values `chunk_all_documents` uses. Other sizes are left out.
- SHA-256 in `_hash_query` is left out. The cache key is the joined text
  itself, so hash collisions of its 16-character prefix are not modelled.
- Files and processes are not modelled:
  - `glob` and `open` become parameters;
  - the JSON state file becomes the fields of `Session`, with `started`
    standing for its existence;
  - the `subprocess` calls of the update check (`check_for_updates`) are left
    out, and so is the extraction script `extract_doc.py`.
- The sorted double glob of `add_frontmatter.py` `main` is not modelled;
  AddFrontmatter.ProcessFiles takes the resulting path list as given, repeats
  included.
- MCP tool registration and dispatch are left out: `list_tools`,
  `call_tool`, `main`, the placeholder MOEA responders and the other
  text-only tools.
- Markdown and f-string rendering, `round()`, `:.0f` and `:.1%` formatting are
  left out. Outcomes are values; amounts are exact reals.
- RoiCalculator.ValidateRoi does not model the advice strings, status
  marks and colours; they are rendering of the level it returns.
- ProposalGenerator.Session.SaveAnswer and ProposalGenerator.Session.GetProgress
  compute the progress as the exact floor of answers·100/total. The source
  uses the float expression `int(len/total*100)`, which can be one lower
  (29 of 100 gives 28).
- The percentage of `check_proposal` has no such gap: for a total of 24
  the float expression gives the exact floor for every count.
- Lower-casing is modelled for ASCII letters only. Every cased word in the
  synonym table is ASCII; other scripts are left unchanged by the model.
- White space for `strip` and `split()` is the set of characters
  `str.isspace` accepts, written out as a fixed list.
- Asynchrony is not modelled. The tools share no concurrent state.
