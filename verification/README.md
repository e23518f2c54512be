# Verified models of four systems

The repository holds four systems that are each fast because of an encoding or a protocol: a search engine
(`search/impl/go-1`), a Redis-like store (`redis/impl/go-1`), a Lox bytecode compiler and virtual machine
(`lox/impl/go-1`) and an issue tracker (`tracker`). This project models the core of each and proves that the fast form
does what the plain form does: for every input, every schedule and every run. `dafny verify dfyconfig.toml` checks all
of it.

**Search** (`Search*.dfy`). Documents are cut into chunks; workers turn chunks into byte runs; runs are merged bucket by
bucket into dictionaries of block-compressed postings with skip tables; queries walk the postings with skipping cursors,
check phrases on streamed positions, drop excluded documents, keep the best k in a heap and may be split by document
ranges. `SearchBuild.BuildAndSearch` is the end-to-end result: for every corpus, chunking, assignment of chunks to
workers, order of arrival of results, query, k and number of processors, the answer is the one of the naive evaluation
in `search/ref/search_ref.py`. `SearchMeaning` says what that answer is without any of the definitions that program and
specification share: which documents match, their BM25 scores, and the k best by falling score and rising id. Byte formats are modelled down to the byte for varints, runs, blocks and positions;
dictionary and skip entries are records. Scores are reals, `idf` is an arbitrary function of corpus size and document
frequency, the hash that spreads terms over buckets is arbitrary. Ranges are evaluated one after the other: they share
nothing but the index, which does not change.

**Redis** (`Redis*.dfy`). A shard is one object: an open-addressing slot table with tombstones, four counters, and memory
carved from size classes. Its invariant ties them together: the slots represent a finite map, the counters are the
totals over the slots, at most three quarters of the slots are in use, and items and live memory correspond one to one.
Every command is shown to act on what clients see (`RedisCommands.Seen`, the items not yet expired) as it would on a
plain map, lazily and actively expired items included. All shards share one arena; `RedisStore` proves that memory of
different shards never overlaps and that the total cost is the sum over the shards, and has eviction, FLUSHALL and the
commands on several keys. `RedisServer` runs every command that changes something on the whole store: its own key
changes as on a plain map, no other key does unless it is evicted, and the key just written survives the eviction that
follows. `RedisLaws` states each command by what is seen before and after and what is replied, free of the functions that
the methods are proved against. `RedisLocks` is the concurrent view: any number of clients, locks taken in ascending order, no deadlock, every
command atomic; `RedisAtomic` makes MSET, MGET, DEL, EXISTS and FLUSHALL commands of it, proves that the store's methods
do what their operations do one after the other, and that MGET never sees part of an MSET. `RedisResp` is the
incremental request parser. Time and the random choices of eviction are parameters.

**Lox** (`Lox*.dfy`). `LoxCompiler` compiles resolved programs with the peephole fusion of the source while keeping the
code that a compiler without fusion would emit and a map between positions; `LoxFusion` proves that the two programs end
alike for every behaviour of the rest of the machine. `LoxMeaning` gives expressions and statements a direct meaning, and
proves that compiled code does what the program says: it ends with the same world or the same error, or not at all.
`LoxObjects` proves the inline caches transparent, `LoxUpvalues`
that captured variables are cells before and after they leave the stack. What that needs of the compiler is proved too:
`LoxScopes` and `LoxParser` compile programs with names, with locals, depths and captured flags, resolve names through
enclosing functions and end scopes as the source does; `LoxClosures` runs the result for any choice of values, jumps
and calls, and shows that a plain pop never drops a variable that a closure still shares.

**Tracker** (`Tracker*.dfy`). Three protocols as state machines over atomic database steps: webhook delivery with leases,
retries and crashes; numbering with idempotency keys; and listing page by page with cursors.

Two promises turn out to hold only under a condition, which is stated exactly:

- APPEND stops the server if and only if clients see a string under the key, the memory limit does not refuse, and the
  result would be 4 GiB or longer (`RedisCommands.Append`): the item header keeps the length in 32 bits, so the slice
  into which the new bytes are copied is out of range. `RedisCommands.EighthAppend` gets there with eight requests of
  512 MiB. Nothing of that length is ever stored, so every dedicated mapping is released as it was mapped
  (`RedisShard.ReleasedAsMapped`).
- A count of up to 19 digits in a request is read correctly if and only if it fits a signed 64-bit integer
  (`RedisResp.LineMeans`). The command is silently empty if and only if the count is 0 or does not fit, and rejected for
  its count if and only if the count fits and is above the limit (`RedisResp.CountMeans`; `HugeCountIsEmpty` is an
  instance).

## Model

| member | source | states |
|---|---|---|
| SearchVarint.DecodePut | search/impl/go-1/common.go:18-45 | decoding what was encoded gives the number back and ends right behind it, anywhere in a byte sequence (unsigned LEB128, section 7.6 of DWARF 5) |
| SearchVarint.PutBytes | search/impl/go-1/common.go:18-25 | byte i of an encoding holds bits 7 i to 7 i + 6 and has its top bit set if and only if more follow; no byte more than needed |
| SearchVarint.PutUvarint | search/impl/go-1/common.go:18-25 | the loop appends exactly the encoding of the number |
| SearchVarint.Uvarint | search/impl/go-1/common.go:27-45 | the loop, with its one-byte shortcut, returns the decoded number and the position behind it |
| SearchVarint.SkipVarints | search/impl/go-1/common.go:47-64 | skipping eight bytes at a time, by the number of set bits in the masked complement of the word, stops where n single decodes would |
| SearchVarint.CountedTops | search/impl/go-1/common.go:49-50 | that number is how many of the eight bytes end an integer |
| SearchVarint.SkipPuts | search/impl/go-1/common.go:47-64 | skipping as many numbers as were encoded stops at the end of their encoding |
| SearchCorpus.PositionsMeans | search/ref/search_ref.py:89-90 | a term's position list is increasing and holds exactly the places where the term stands |
| SearchOrder.BytesLessMeans | tracker/impl/go-1/list.go:196-254 | the byte order of terms and keys is decided at the first difference, a prefix first |
| SearchCorpus.PostingsSound | search/ref/search_ref.py:82-93 | every posting of a term names a document that contains it, with exactly its positions there |
| SearchCorpus.PostingsComplete | search/ref/search_ref.py:82-93 | every document that contains the term has its posting |
| SearchCorpus.PostingsOrdered | search/ref/search_ref.py:82-93 | postings are strictly increasing by document, none without positions |
| SearchCorpus.PostingsConcat | search/impl/go-1/index.go:614-755 | postings of two parts of the corpus, one after the other, are those of the whole |
| SearchWorker.Count | search/impl/go-1/index.go:285-295 | lists the distinct terms of a document and their frequencies, with stamps in place of clearing the counters |
| SearchWorker.Layout | search/impl/go-1/index.go:296-300 | each distinct term gets the start of its part: the running total of the frequencies before it |
| SearchWorker.Scatter | search/impl/go-1/index.go:301-308 | one pass over the tokens groups the positions by term: each part is that term's position list |
| SearchWorker.Append | search/impl/go-1/index.go:309-323 | appends to each term's record the gap, the frequency and the position gaps, and touches no other record |
| SearchWorker.Worker.Number | search/impl/go-1/index.go:254-283 | a known term keeps its number, a new one gets the next with an empty record |
| SearchWorker.Worker.AddDoc | search/impl/go-1/index.go:285-323 | after the call the records are those of the documents so far and the new one |
| SearchWorker.Worker.Process | search/impl/go-1/index.go:325-389 | after a chunk the records hold exactly the chunk's postings, whatever the worker did before |
| SearchWorker.Worker.Write | search/impl/go-1/index.go:391-421 | the run of a bucket lists exactly the bucket's terms that occur, strictly ascending, each with the bytes of its postings |
| SearchWorker.Worker.Reset | search/impl/go-1/index.go:425-430 | forgets the run; old stamps can never be mistaken for those of a document to come |
| SearchBlocks.Encoder.Flush | search/impl/go-1/index.go:672-687 | closes a block: its bytes, and a skip entry with last document, offset and first position |
| SearchBlocks.Encoder.Add | search/impl/go-1/index.go:700-710 | adds one posting, closing the block at 128 |
| SearchBlocks.AddRun | search/impl/go-1/index.go:688-712 | decoding a run's record and adding its postings extends the encoded list by exactly those postings |
| SearchBlocks.EncodeTerm | search/impl/go-1/index.go:664-727 | the entry written for a term describes, block by block, the concatenation of the runs' postings |
| SearchMerge.PopGroup | search/impl/go-1/index.go:657-663 | takes from the heap exactly the runs that stand at the least term, in ascending order of run |
| SearchMerge.GroupGathers | search/impl/go-1/index.go:664-712 | the postings of a term's chunks, in order of chunk, are its postings in the whole corpus |
| SearchMerge.MergeStep | search/impl/go-1/index.go:657-738 | one term merged keeps: dictionary sorted, complete for the terms passed, and ahead of none of the runs |
| SearchMerge.MergeBucket | search/impl/go-1/index.go:614-755 | the dictionary of a bucket is strictly sorted, has exactly the bucket's terms that occur, and each entry encodes the term's postings in the corpus |
| SearchCursor.Lookup | search/impl/go-1/serve.go:78-98 | binary search finds a term if and only if the dictionary has it |
| SearchCursor.Cursor.constructor | search/impl/go-1/serve.go:236-252 | a new cursor stands on the first posting |
| SearchCursor.Cursor.LoadBlock | search/impl/go-1/serve.go:261-293 | decodes exactly the documents and frequencies of the block, and where its positions start |
| SearchCursor.Cursor.Next | search/impl/go-1/serve.go:295-308 | moves to the next posting of the decoded list, across blocks, or behind the last |
| SearchCursor.Cursor.Advance | search/impl/go-1/serve.go:310-344 | moves to the first posting not before the target, as a linear scan would, and never back |
| SearchCursor.Cursor.Tf | search/impl/go-1/serve.go:346-346 | the number of positions of the current posting |
| SearchCursor.Cursor.PosStart | search/impl/go-1/serve.go:349-359 | the offset reached by decoding every earlier position one by one, and the current posting's positions are there |
| SearchPhrase.Catch | search/impl/go-1/query.go:138-147 | brings a stream to its first position not before the wanted one, or tells that there is none |
| SearchPhrase.Round | search/impl/go-1/query.go:156-176 | one round either finds a match, proves that there is none, or raises the target past positions where none can start |
| SearchPhrase.PhraseMatch | search/impl/go-1/query.go:151-177 | true if and only if some p has p + j among the positions of stream j for every j, repeated terms included |
| SearchPhrase.PhraseAtMeans | search/ref/search_ref.py:95-110 | consecutive positions exist if and only if the tokens stand side by side in the document |
| SearchTopK.SiftUp | search/impl/go-1/query.go:92-103 | restores the heap order and keeps the elements |
| SearchTopK.SiftDown | search/impl/go-1/query.go:108-126 | restores the heap order and keeps the elements |
| SearchTopK.TopK.Push | search/impl/go-1/query.go:90-127 | after any pushes the heap holds the k best hits: no hit left out has a higher score than one kept, nor the same score and a lower id |
| SearchTopK.TopOfPart | search/impl/go-1/query.go:391-398 | pushing only the best k of a part gives the best k of the union |
| SearchTopK.RankedTop | search/impl/go-1/query.go:400-409 | any arrangement by rank of the best k is the start of the full ranking, when ids differ |
| SearchSpec.ScoreInAnyOrder | search/ref/search_ref.py:123-139 | summing term scores over the distinct positive terms does not depend on their order |
| SearchMeaning.WantedMeans | search/ref/search_ref.py:112-122 | a document matches if and only if there is a positive clause, the tokens of each positive clause stand side by side in it, and those of no negative clause do |
| SearchMeaning.Bm25Means | search/ref/search_ref.py:123-136 | what a term adds is the BM25 formula at 1.2 and 0.75 of the frequencies counted in the document and the corpus |
| SearchMeaning.ScoreMeans | search/ref/search_ref.py:123-136 | the score is the sum of that formula over the distinct terms of the positive clauses |
| SearchMeaning.WeightGrows | search/ref/search_ref.py:131-134 | a term that occurs more often weighs more, at the same length |
| SearchMeaning.WeightFalls | search/ref/search_ref.py:131-134 | the greater the normalisation, the less it weighs |
| SearchMeaning.NormGrows | search/ref/search_ref.py:131-134 | and a longer document has a greater one |
| SearchMeaning.WeightBounded | search/ref/search_ref.py:131-134 | a term never weighs more than 2.2 times its idf |
| SearchMeaning.AnswersMean | search/ref/search_ref.py:112-141 | evaluating every document and sorting all matches gives the number of matching documents and the k best by falling score and rising id |
| SearchPlan.Find | search/impl/go-1/serve.go:178-181 | a term is found if and only if it occurs in the corpus, and its entry describes its postings there |
| SearchPlan.InternClause | search/impl/go-1/query.go:207-221 | succeeds if and only if every token occurs; the indices spell the tokens, each term once |
| SearchPlan.PlanPositive | search/impl/go-1/query.go:202-228 | a document satisfies the positive clauses if and only if it has all planned terms and phrases; failure means no document does |
| SearchPlan.PlanNegative | search/impl/go-1/query.go:229-253 | a document satisfies the negative clauses if and only if it has none of the planned exclusions; dropped clauses exclude nothing |
| SearchPlan.BuildPlan | search/impl/go-1/query.go:197-255 | a plan that matches exactly the documents of the query, or none exactly when there is no positive clause or nothing can match |
| SearchExec.Align | search/impl/go-1/query.go:304-315 | either all cursors stand on the leader's document, or no document before the next candidate is on all lists |
| SearchExec.PhraseOn | search/impl/go-1/query.go:316-322 | whether the phrase stands in the current document |
| SearchExec.Excluded | search/impl/go-1/query.go:323-339 | true if and only if the document contains the excluded clause |
| SearchExec.ScoreDoc | search/impl/go-1/query.go:342-347 | the sum of the term scores, with the normalisation constants worked out beforehand |
| SearchExec.NormSame | search/impl/go-1/serve.go:171-174 | the two precomputed constants give the normalisation of the reference |
| SearchExec.Exec | search/impl/go-1/query.go:263-354 | over a document range: the number of matching documents and the best k of their hits |
| SearchExec.ExecParts | search/impl/go-1/query.go:376-403 | evaluating range by range and joining the tops gives count and best k of the whole corpus |
| SearchExec.Search | search/impl/go-1/query.go:356-410 | total, and the hits by falling score and rising id: each is a matching document with its score, and no other matching document comes before any of them; the same as evaluating every document and sorting all matches |
| SearchBuild.WriteDocData | search/impl/go-1/index.go:434-510 | whatever the order in which chunk results arrive, ids, lengths and token count come out in document order |
| SearchBuild.RunWorkers | search/impl/go-1/index.go:165-185 | for every assignment of chunks to workers the runs of each chunk are right |
| SearchBuild.Build | search/impl/go-1/index.go:78-222 | for every chunking, schedule and order of arrival the index is that of the whole corpus |
| SearchBuild.BuildAndSearch | search/ref/search_ref.py:112-141 | every query on an index built in any way gets the reference answer: the number of matching documents and the k best, by falling score and rising id |
| RedisSlots.NotBeyondEmpty | redis/impl/go-1/store.go:196-220 | a probe that meets an empty slot has missed nothing: the key is absent |
| RedisSlots.Filled | redis/impl/go-1/store.go:281-291 | filling the free slot found on the probe path keeps the table a representation of the map |
| RedisSlots.Cleared | redis/impl/go-1/store.go:329-337 | a tombstone, or nothing at all when the next slot is empty, keeps every other item within reach |
| RedisSlots.Swapped | redis/impl/go-1/store.go:341-352 | another item with the same key in the same slot |
| RedisShard.Probe | redis/impl/go-1/store.go:196-220 | finds the key's slot if and only if the map has the key, else a free slot within its reach; always ends |
| RedisShard.SomeEmpty | redis/impl/go-1/store.go:242-251 | at most three quarters in use means that some slot is empty, so every probe ends |
| RedisShard.Rehashed | redis/impl/go-1/store.go:253-269 | the new table represents the same map without tombstones, and all totals agree |
| RedisShard.FitSize | redis/impl/go-1/store.go:244-249 | the least power of two from 8 on that leaves the table at most three eighths full |
| RedisShard.Shard.Find | redis/impl/go-1/store.go:195-220 | the slot of a key if and only if it is in the map, else where it can go |
| RedisShard.Shard.Get | redis/impl/go-1/store.go:222-240 | an expired item found is removed; the slot returned is still fit for insertion |
| RedisShard.Shard.Grow | redis/impl/go-1/store.go:242-251 | room for one more item within three quarters, map unchanged |
| RedisShard.Shard.Rehash | redis/impl/go-1/store.go:253-269 | map, count and cost unchanged, no tombstones |
| RedisShard.Shard.NewItem | redis/impl/go-1/store.go:271-279 | memory that no item has, of the smallest class that holds the request |
| RedisShard.Shard.Insert | redis/impl/go-1/store.go:281-291 | the map gains the item; counters, load and memory stay in step |
| RedisShard.Shard.Del | redis/impl/go-1/store.go:322-337 | the map loses the key, its memory goes back and exactly its own mapping, if it has one, is unmapped; counters in step |
| RedisShard.Shard.Replace | redis/impl/go-1/store.go:341-352 | the new item takes the place, the old one's memory goes back |
| RedisShard.Shard.SetStr | redis/impl/go-1/store.go:355-375 | in place, by replacement or by insertion, the key holds the string and the expiry, nothing else changes |
| RedisShard.Shard.NewContainer | redis/impl/go-1/store.go:377-382 | the key holds an empty container |
| RedisShard.Shard.FreeBig | redis/impl/go-1/store.go:385-392 | every dedicated mapping is unmapped, and nothing else |
| RedisShard.Shard.Flush | redis/impl/go-1/store.go:384-400 | an empty shard that owns no memory and whose cost is 0 |
| RedisShard.ReleasedAsMapped | redis/impl/go-1/alloc.go:121-129 | every stored value is shorter than 4 GiB, so what is released for an item with a mapping of its own is what was mapped |
| RedisAlloc.BuildClasses | redis/impl/go-1/alloc.go:30-43 | ascending multiples of 16 from 32 to 64 KiB, at most 80 of them |
| RedisAlloc.BuildLookup | redis/impl/go-1/alloc.go:44-51 | the table gives the smallest class for every multiple of 16 |
| RedisAlloc.ClassOfMeans | redis/impl/go-1/alloc.go:53-53 | the class chosen is the smallest that holds the request |
| RedisAlloc.Arena.Block | redis/impl/go-1/alloc.go:71-84 | a block that overlaps no block handed out before |
| RedisAlloc.Arena.Reset | redis/impl/go-1/alloc.go:87-95 | exactly the arena's chunks are unmapped |
| RedisAlloc.Pool.Alloc | redis/impl/go-1/alloc.go:99-119 | a live piece of the smallest class, from free list, bump region or a new block, or a mapping of its own; no pieces overlap, other shards keep what they had |
| RedisAlloc.Pool.Free | redis/impl/go-1/alloc.go:121-129 | the piece goes to the free list of its class, or exactly the item's mapping is unmapped |
| RedisObjects.ListObj.Push | redis/impl/go-1/commands.go:857-869 | the list gains the element at its front or back, across wrap-around and resizing |
| RedisObjects.ListObj.Pop | redis/impl/go-1/commands.go:871-887 | returns and removes the first or last element |
| RedisObjects.ListObj.Resize | redis/impl/go-1/commands.go:847-853 | the contents are unchanged |
| RedisObjects.HashObj.Get | redis/impl/go-1/store.go:77-88 | the value of the field in the map the object stands for |
| RedisObjects.HashObj.Set | redis/impl/go-1/store.go:91-115 | the map gets the field, whether flat, turned into a map or a map; returns what was there |
| RedisObjects.HashObj.Del | redis/impl/go-1/store.go:117-136 | the map loses the field, also when the last pair is moved into the gap |
| RedisObjects.FieldsCostSet | redis/impl/go-1/commands.go:1135-1143 | how the cost of a hash changes by setting a field |
| RedisNumbers.ParseInt | redis/impl/go-1/commands.go:171-206 | accepts exactly the canonical decimal forms of signed 64-bit integers and returns their value |
| RedisNumbers.RepresentsMeans | redis/impl/go-1/commands.go:171-206 | that form is a minus sign if the number is negative, then its decimal digits without leading zeros |
| RedisCommands.SeenLater | redis/impl/go-1/store.go:222-240 | what is seen later is what of it has not expired; nothing comes back |
| RedisCommands.Look | redis/impl/go-1/store.go:222-240 | a lookup finds a key if and only if clients see it, and changes nothing they see |
| RedisCommands.Set | redis/impl/go-1/commands.go:378-461 | SET with its options acts as on a plain map |
| RedisCommands.Append | redis/impl/go-1/commands.go:547-598 | the server stops, with nothing stored, if and only if the result would be overlong; otherwise APPEND acts as on a plain map, keeping the expiry |
| RedisCommands.EighthAppend | redis/impl/go-1/commands.go:569-594 | without a limit, appending 512 MiB to a new key works seven times and stops the server the eighth time |
| RedisCommands.IncrBy | redis/impl/go-1/commands.go:513-545 | the method does on the slot table what INCRBY does on a plain map, with the errors for wrong type, no number and overflow |
| RedisCommands.ExpireAt | redis/impl/go-1/commands.go:676-693 | sets the expiry, or deletes when it is not in the future |
| RedisCommands.Persist | redis/impl/go-1/commands.go:719-731 | PERSIST acts as on a plain map |
| RedisCommands.DelKey | redis/impl/go-1/commands.go:621-629 | the key is gone, and the answer is whether it was there |
| RedisCommands.PushTo | redis/impl/go-1/commands.go:916-926 | pushing the values onto the list object gives the list and the cost that the command stores |
| RedisCommands.PopFrom | redis/impl/go-1/commands.go:966-981 | popping from the list object gives the replies, the rest and its exact cost |
| RedisCommands.SetIn | redis/impl/go-1/commands.go:1133-1146 | setting the fields in the hash object gives the fields, their exact cost and the number of new ones |
| RedisCommands.DelIn | redis/impl/go-1/commands.go:1172-1184 | deleting fields from the hash object gives the fields left, their exact cost and the number deleted |
| RedisCommands.Push | redis/impl/go-1/commands.go:889-932 | LPUSH and RPUSH act as on a plain map of lists; the cost is that of the elements |
| RedisCommands.Pop | redis/impl/go-1/commands.go:934-987 | LPOP and RPOP, with and without count; an emptied list is deleted |
| RedisCommands.Hset | redis/impl/go-1/commands.go:1096-1149 | HSET acts as on a plain map of maps and counts the new fields |
| RedisCommands.Hincrby | redis/impl/go-1/commands.go:1243-1310 | HINCRBY acts as on a plain map of maps, with all its errors |
| RedisCommands.Hdel | redis/impl/go-1/commands.go:1166-1189 | HDEL acts as on a plain map of maps; an emptied hash is deleted |
| RedisCommands.Sweep | redis/impl/go-1/store.go:404-443 | no expired item is left in the slots swept; active expiry and shrinking change nothing that clients see, now or later |
| RedisLaws.IncrMeans | redis/impl/go-1/commands.go:513-545 | if a string that represents v was seen and v + delta fits 64 bits, v + delta is replied and its decimal form seen with the old expiry; a missing key counts as 0 without expiry; every error leaves what there was |
| RedisLaws.SetMeans | redis/impl/go-1/commands.go:378-461 | SET with NX, XX, GET, KEEPTTL and expiries: when it stores, what is then seen, and what is replied |
| RedisLaws.AppendMeans | redis/impl/go-1/commands.go:547-598 | the new bytes behind the old ones, the expiry kept, the new length replied |
| RedisLaws.ExpireMeans | redis/impl/go-1/commands.go:676-693 | only the expiry changes; the key is gone if it is not in the future; 1 if and only if the key was there |
| RedisLaws.PersistMeans | redis/impl/go-1/commands.go:719-731 | only the expiry goes; 1 if and only if there was one |
| RedisLaws.PushMeans | redis/impl/go-1/commands.go:889-932 | element by element, where the pushed values and the old elements stand |
| RedisLaws.PopMeans | redis/impl/go-1/commands.go:934-987 | the first elements are replied in order, or the last ones from the end, and the rest stays; an emptied list is gone |
| RedisLaws.PushThenPop | redis/impl/go-1/commands.go:889-987 | popping as many values as were pushed on that side gives them back, the last pushed first, and leaves the list as it was |
| RedisLaws.HsetMeans | redis/impl/go-1/commands.go:1096-1149 | each field has the last value given for it, the other fields stay, and the number of new fields is replied |
| RedisLaws.HdelMeans | redis/impl/go-1/commands.go:1166-1189 | the named fields are gone, the others stay, and the number of those that were there is replied; an emptied hash is gone |
| RedisLaws.HincrMeans | redis/impl/go-1/commands.go:1243-1310 | as INCRBY, for one field; the others stay |
| RedisStore.NoOverlap | redis/impl/go-1/alloc.go:99-129 | live items, free nodes, bump regions and mappings of two shards never overlap |
| RedisStore.NoOverlapInside | redis/impl/go-1/alloc.go:99-129 | nor do those of one shard |
| RedisStore.Unharmed | redis/impl/go-1/alloc.go:65-119 | what one shard does leaves the memory of another intact |
| RedisStore.Open | redis/impl/go-1/store.go:168-172 | 256 empty shards on one arena |
| RedisStore.Store.SeesLive | redis/impl/go-1/store.go:222-240 | whatever is seen has no expiry or one in the future |
| RedisStore.Store.SeesLater | redis/impl/go-1/store.go:222-240 | when nothing is done, what is seen at a later time is what was seen, unless its expiry has come |
| RedisStore.Store.Mset | redis/impl/go-1/commands.go:484-503 | under the locks: every key gets its last value, no other key changes, unless the memory limit refuses all |
| RedisStore.Store.Mget | redis/impl/go-1/commands.go:463-477 | every reply is the string clients saw before, nil for a missing key or another type |
| RedisStore.Store.Del | redis/impl/go-1/commands.go:617-632 | the keys are gone, the others stay, and the count is that of the keys that were there |
| RedisStore.Store.Exists | redis/impl/go-1/commands.go:634-646 | how many of the keys given are there; what clients see does not change |
| RedisStore.Store.Flushall | redis/impl/go-1/commands.go:306-317 | no key is seen, cost 0, and what stays mapped is what was mapped without the arena's chunks and every shard's dedicated mappings |
| RedisStore.Sample | redis/impl/go-1/store.go:481-500 | looks at all slots or until 16 unprotected items were seen, and picks the least recently used of these; none only if the shard has none |
| RedisStore.Store.EvictFrom | redis/impl/go-1/store.go:473-509 | removes at most one item, never a protected one, and frees at least 64 bytes of the accounted total |
| RedisStore.Store.AfterWrite | redis/impl/go-1/commands.go:224-228 | the keys just written stay as they are, any other key stays or is evicted, and nothing is evicted without a limit |
| RedisStore.Store.OneChanged | redis/impl/go-1/store.go:177-182 | when one shard changed within its rights, the store is sound, the total changes by what that shard's cost does, and the keys of other shards show what they showed |
| RedisStore.Store.Evict | redis/impl/go-1/store.go:456-462 | ends; protected keys stay; done if and only if the total is within the limit |
| RedisServer.Set | redis/impl/go-1/commands.go:378-461 | the whole SET on the whole store: when it stores, what is seen and what is replied; other keys stay or are evicted, totals in step |
| RedisServer.Append | redis/impl/go-1/commands.go:547-598 | the whole APPEND: the new bytes behind the old ones; it crashes if and only if the result would be overlong |
| RedisServer.IncrBy | redis/impl/go-1/commands.go:513-545 | INCRBY on the whole store: the sum of what was seen and the increment is replied and seen in decimal, with the old expiry; every error changes nothing |
| RedisServer.Push | redis/impl/go-1/commands.go:889-932 | LPUSH and RPUSH on the whole store: where the new and the old elements stand, and the length replied |
| RedisServer.Hset | redis/impl/go-1/commands.go:1096-1149 | HSET on the whole store: the last value given for each field, other fields as before, new fields counted |
| RedisServer.Hincrby | redis/impl/go-1/commands.go:1243-1310 | HINCRBY on the whole store: one field becomes the exact sum, the others stay, with all errors |
| RedisServer.Mset | redis/impl/go-1/commands.go:479-511 | the whole MSET: every key is seen with the last value given for it, also after the eviction that follows |
| RedisServer.ExpireAt | redis/impl/go-1/commands.go:676-693 | EXPIRE on the whole store: only the expiry of its key changes, or the key goes |
| RedisServer.Persist | redis/impl/go-1/commands.go:719-731 | PERSIST on the whole store: only the expiry of its key goes |
| RedisServer.Pop | redis/impl/go-1/commands.go:934-987 | LPOP and RPOP on the whole store: the elements from that end are replied in order and the rest is seen |
| RedisServer.Hdel | redis/impl/go-1/commands.go:1166-1189 | HDEL on the whole store: the named fields are gone and counted, the others stay |
| RedisServer.Sweep | redis/impl/go-1/store.go:404-443 | active expiry of a shard: no client of any shard sees a difference, now or later; totals in step |
| RedisLocks.LockList | redis/impl/go-1/commands.go:231-255 | the shards of the keys, each once, ascending |
| RedisLocks.NoDeadlock | redis/impl/go-1/commands.go:256-265 | no chain of lock waits comes back to its start, in any reachable state |
| RedisLocks.Progress | redis/impl/go-1/commands.go:256-265 | in every reachable state with a client at work, some client at work can take a step |
| RedisLocks.AtomicStep | redis/impl/go-1/commands.go:463-511 | every step keeps the shards as if the started commands had run one at a time |
| RedisLocks.EveryRunAtomic | redis/impl/go-1/commands.go:306-319 | in every run every state is that of running the started commands one at a time |
| RedisLocks.RepliesAtomic | redis/impl/go-1/commands.go:463-477 | a finished command got the replies of running alone after the commands before it |
| RedisLocks.InOrderOfTime | redis/impl/go-1/commands.go:256-265 | a command that came to hold its locks later comes later in the history |
| RedisAtomic.LocksSuffice | redis/impl/go-1/commands.go:231-258 | the locks taken for the keys of a command cover the shards that its operations touch |
| RedisAtomic.AllLocksSuffice | redis/impl/go-1/commands.go:307-309 | so do those of FLUSHALL |
| RedisAtomic.MgetReads | redis/impl/go-1/commands.go:463-477 | MGET run alone reads all keys from one state |
| RedisAtomic.MsetWrites | redis/impl/go-1/commands.go:495-501 | MSET run alone writes all its keys and no others |
| RedisAtomic.DelRemoves | redis/impl/go-1/commands.go:617-632 | DEL run alone removes all its keys and no others |
| RedisAtomic.DelCounts | redis/impl/go-1/commands.go:617-632 | and counts every key that was there once |
| RedisAtomic.ExistsCounts | redis/impl/go-1/commands.go:634-646 | EXISTS run alone counts a key as often as it is given |
| RedisAtomic.FlushEmpties | redis/impl/go-1/commands.go:306-319 | FLUSHALL run alone leaves nothing in any shard |
| RedisAtomic.MsetAlone | redis/impl/go-1/commands.go:479-511 | the store's method does to what clients see what the operations of MSET do run alone |
| RedisAtomic.MgetAlone | redis/impl/go-1/commands.go:463-477 | likewise MGET, with the same replies |
| RedisAtomic.DelAlone | redis/impl/go-1/commands.go:617-632 | likewise DEL, with the same count |
| RedisAtomic.ExistsAlone | redis/impl/go-1/commands.go:634-646 | likewise EXISTS, with the same count |
| RedisAtomic.FlushallAlone | redis/impl/go-1/commands.go:306-319 | likewise FLUSHALL |
| RedisAtomic.MgetAtomic | redis/impl/go-1/commands.go:463-477 | in every run the replies of a finished MGET are what is stored after one prefix of the history |
| RedisAtomic.MsetWhole | redis/impl/go-1/commands.go:479-511 | every MSET of the history is wholly in such a prefix or wholly out |
| RedisAtomic.NeverHalf | redis/impl/go-1/commands.go:463-511 | in every run, two keys that are only ever set together to one value are read equal by MGET, whatever shards they are in |
| RedisAtomic.SeesEarlier | redis/impl/go-1/commands.go:463-511 | a command has every command before it that was logged before it began |
| RedisResp.CommandStable | redis/impl/go-1/main.go:278-314 | for every byte sequence: a complete or malformed command stays so whatever follows |
| RedisResp.DrainMore | redis/impl/go-1/main.go:95-118 | parsing can stop after any byte and go on later |
| RedisResp.SplitDoesNotMatter | redis/impl/go-1/main.go:95-141 | for every byte stream and every split into reads the same commands are executed and the same verdict is reached |
| RedisResp.LineMeans | redis/impl/go-1/main.go:246-276 | up to 19 digits are read modulo 2^64, correctly if and only if they fit 63 bits |
| RedisResp.CountMeans | redis/impl/go-1/main.go:278-313 | for a count of 1 to 19 digits: silently empty if and only if it is 0 or does not fit 63 bits, rejected for its count if and only if it fits and is above the limit, else so many arguments are read |
| RedisResp.HugeCountIsEmpty | redis/impl/go-1/main.go:287-313 | a count of nineteen nines gives an empty command |
| RedisResp.RequestsRead | redis/impl/go-1/main.go:278-314 | requests within the limits come out as they went in |
| RedisResp.CutRequests | redis/impl/go-1/main.go:95-141 | cut off anywhere, they are never malformed and the commands before the cut are executed in order |
| RedisResp.RequestsServed | redis/impl/go-1/main.go:95-141 | requests reach execution in order however their bytes are split |
| RedisResp.ReadLine | redis/impl/go-1/main.go:246-276 | the loop computes the parsed line |
| RedisResp.ReadCommand | redis/impl/go-1/main.go:278-314 | the loops compute the parsed command |
| RedisResp.Conn.Process | redis/impl/go-1/main.go:95-141 | executes the commands in the buffer, keeps exactly the rest, and leaves room for the next read |
| RedisResp.Conn.Compact | redis/impl/go-1/main.go:124-140 | the bytes waiting are unchanged and there is room behind them |
| LoxFusion.ExpandExec | lox/impl/go-1/vm.go:220-564 | a fused instruction does to stack, world, errors and control what its plain instructions do one after the other |
| LoxFusion.StepSame | lox/impl/go-1/vm.go:215-731 | one fused step corresponds to one or more plain steps, frames at corresponding positions |
| LoxFusion.RunSame | lox/impl/go-1/vm.go:215-731 | however long the fused program runs, the plain one reaches the same state |
| LoxFusion.SameEnd | lox/impl/go-1/vm.go:215-731 | the fused program ends with a result or error if and only if the plain one does, with the same world |
| LoxCompiler.FusedLast | lox/impl/go-1/compiler.go:259-267 | rewriting the last instruction keeps the correspondence when no jump leads behind it |
| LoxCompiler.Patched | lox/impl/go-1/compiler.go:350-359 | patching a jump makes it lead to the corresponding place of the plain code |
| LoxCompiler.Emitter.EmitPop | lox/impl/go-1/compiler.go:269-285 | emits a pop, alone or fused; places before the last instruction stand for what they stood for |
| LoxCompiler.Emitter.EmitBinary | lox/impl/go-1/compiler.go:293-303 | emits an operator, alone or with a number as right operand |
| LoxCompiler.Emitter.EmitCondJump | lox/impl/go-1/compiler.go:313-327 | emits a conditional jump, alone or with a comparison |
| LoxCompiler.Emitter.EmitGetProperty | lox/impl/go-1/compiler.go:698-706 | emits a property read, alone or with a local variable as receiver |
| LoxCompiler.Emitter.PatchJump | lox/impl/go-1/compiler.go:350-359 | the jump leads to the end of the code |
| LoxCompiler.Emitter.CompileExpr | lox/impl/go-1/compiler.go:534-707 | compiles any expression; no place at or before its start is fused away |
| LoxCompiler.Emitter.CompileStmt | lox/impl/go-1/compiler.go:851-989 | compiles any statement to a fusion of its plain code, whose meaning is StmtRuns; no place at or before its start is fused away |
| LoxCompiler.Emitter.CompileWhile | lox/impl/go-1/compiler.go:929-938 | the backward jump leads to the corresponding place although conditions are fused |
| LoxCompiler.Emitter.CompileLoop | lox/impl/go-1/compiler.go:857-889 | `for` with its step before the body, all jumps corresponding |
| LoxCompiler.CompileProgram | lox/impl/go-1/compiler.go:176-190 | the code of every function is a fusion of the code without fusion, which is what CompiledMeans asks for |
| LoxCompiler.FusionPreservesMeaning | lox/impl/go-1/compiler.go:245-359 | for every behaviour of calls, heap, globals and output, fused and plain program end alike |
| LoxMeaning.ExprRuns | lox/impl/go-1/compiler.go:534-707 | the code of an expression evaluates it: operands and arguments from left to right, the right operand of `and` and `or` only if the left one does not decide, assignments leaving their value |
| LoxMeaning.StmtRuns | lox/impl/go-1/compiler.go:851-989 | the code of a statement executes it: blocks in order, the branch that the condition chooses, scopes ended |
| LoxMeaning.LoopRuns | lox/impl/go-1/compiler.go:857-938 | condition, body, step and again, although the step is placed before the body; where the loop goes on for ever, so does the code |
| LoxMeaning.CallRuns | lox/impl/go-1/vm.go:565-593 | a call executes the body of the function and goes on in the caller |
| LoxMeaning.PlainMeans | lox/impl/go-1/compiler.go:176-190 | the plain code of a program ends with a world or an error if and only if the program means just that |
| LoxMeaning.CompiledMeans | lox/impl/go-1/compiler.go:176-190 | compiled and fused code ends with a world or an error if and only if the program means just that |
| LoxMeaning.MeansOneThing | lox/impl/go-1/compiler.go:176-190 | a program means at most one thing |
| LoxMeaning.NumbersLeave | lox/impl/go-1/vm.go:371-438 | what each of the ten operators leaves of two numbers |
| LoxMeaning.OthersLeave | lox/impl/go-1/vm.go:371-438 | what each leaves of other operands: a truth value, the joined strings, or the error |
| LoxMeaning.JumpsOn | lox/impl/go-1/vm.go:455-468 | a conditional jump is taken if and only if the value on top is nil or false |
| LoxObjects.Lookup | lox/impl/go-1/value.go:173-186 | the slot of a name, by index or by scan, or that it has none |
| LoxObjects.AddKey | lox/impl/go-1/value.go:188-208 | a shape with exactly one key more; no shape changes its keys |
| LoxObjects.Heap.Intern | lox/impl/go-1/vm.go:60-67 | one number for each string |
| LoxObjects.Heap.NewClass | lox/impl/go-1/vm.go:698-702 | a new class that no object and no cache knows |
| LoxObjects.Heap.Inherit | lox/impl/go-1/vm.go:703-716 | while nothing knows the class, copying the superclass's methods keeps every cache right |
| LoxObjects.Heap.AddMethod | lox/impl/go-1/vm.go:717-726 | the class has that method under the name, its other methods and all other classes stay, and every cache stays right |
| LoxObjects.Heap.DeclareClass | lox/impl/go-1/compiler.go:791-831 | each name among the class's own methods is the last method of that name, every other name what the superclass has, before any object of the class exists |
| LoxObjects.WithMethodsMeans | lox/impl/go-1/vm.go:703-726 | copying the superclass's methods and then adding the own ones one by one gives just that |
| LoxObjects.FieldAt | lox/impl/go-1/value.go:173-186 | the field of a name is the value in the slot where the shape has the name |
| LoxObjects.Heap.Get | lox/impl/go-1/vm.go:287-335 | with any cache contents reachable, the result is the object's field of that name, else the method of its class, else none |
| LoxObjects.Heap.Invoke | lox/impl/go-1/vm.go:594-641 | with any cache contents reachable, what is called is the object's field of that name, else the method of its class, else none |
| LoxObjects.Heap.Set | lox/impl/go-1/vm.go:336-357 | the object gets the field, no other object changes, whatever the cache says |
| LoxObjects.Heap.SetNew | lox/impl/go-1/vm.go:746-765 | a field the object did not have: new shape, one more slot |
| LoxUpvalues.Machine.Capture | lox/impl/go-1/vm.go:116-133 | the one open upvalue of the slot, new only if there was none; the list stays strictly descending by slot |
| LoxUpvalues.Machine.CloseFrom | lox/impl/go-1/vm.go:135-142 | exactly the upvalues at or above the bound are closed, and every cell keeps its contents |
| LoxUpvalues.Machine.Load | lox/impl/go-1/vm.go:280-283 | reading an upvalue, open or closed, gives the contents of its cell |
| LoxUpvalues.Machine.Store | lox/impl/go-1/vm.go:284-286 | writing an upvalue, open or closed, changes its cell and no other |
| LoxUpvalues.Machine.SetLocal | lox/impl/go-1/vm.go:245-247 | assigning a local variable changes the cell that its closures share |
| LoxUpvalues.Machine.Pop | lox/impl/go-1/vm.go:239-240 | drops a slot without an open upvalue; every cell keeps its contents |
| LoxScopes.MarkOk | lox/impl/go-1/compiler.go:465-473 | flagging a local that an inner function refers to keeps all code emitted so far right |
| LoxScopes.ClosedOk | lox/impl/go-1/compiler.go:747-787 | every slot that a closure instruction captures holds a flagged variable, the function's own included |
| LoxScopes.DroppedOk | lox/impl/go-1/compiler.go:420-431 | a variable that leaves by a pop is not flagged and never will be |
| LoxParser.ResolveLocal | lox/impl/go-1/compiler.go:439-449 | the last local of that name |
| LoxParser.Parser.ResolveUpvalue | lox/impl/go-1/compiler.go:465-477 | the upvalue leads to the variable of the innermost enclosing function that has the name, and that variable is flagged; none if and only if there is none |
| LoxParser.Parser.EndScope | lox/impl/go-1/compiler.go:420-431 | exactly the locals of the scope leave, the last one first, closed if they were captured and popped otherwise |
| LoxParser.Parser.CompileExpr | lox/impl/go-1/compiler.go:534-707 | any expression leaves one temporary and declares nothing |
| LoxParser.Parser.CompileFunction | lox/impl/go-1/compiler.go:747-778 | the enclosing functions only gain flags and upvalues; one closure instruction is emitted |
| LoxParser.Parser.CompileClass | lox/impl/go-1/compiler.go:791-831 | the code of a class declaration runs straight through without calling anything |
| LoxParser.Parser.CompileStmt | lox/impl/go-1/compiler.go:833-989 | any statement keeps the correspondence of locals and slots on every path, loops included |
| LoxParser.Compile | lox/impl/go-1/compiler.go:176-188 | in all code of a program, what closures capture is flagged and what is popped is not |
| LoxClosures.DeadNotOpen | lox/impl/go-1/compiler.go:420-431 | no upvalue is open at a variable that a pop drops |
| LoxClosures.Vm.StepPop | lox/impl/go-1/vm.go:239-240 | a pop of compiled code meets what Machine.Pop requires |
| LoxClosures.Vm.StepClose | lox/impl/go-1/vm.go:680-682 | a captured variable leaves the stack and its cell keeps its contents |
| LoxClosures.Vm.StepClosure | lox/impl/go-1/vm.go:661-679 | a closure gets the cells of the variables it captures, those of its own and those of the enclosing closure |
| LoxClosures.Vm.StepReturn | lox/impl/go-1/vm.go:683-697 | what the function captured is closed, and every cell keeps its contents |
| LoxClosures.Vm.Step | lox/impl/go-1/vm.go:215-731 | every instruction keeps all open upvalues at captured variables of frames that are there, and only an assignment changes a captured variable, and that one alone |
| LoxClosures.Interpret | lox/impl/go-1/vm.go:215-731 | so it is in every run of every program that compiles |
| TrackerWebhooks.CommitKeeps | tracker/ref/app.py:735-752 | because the issue is locked, deliveries become visible in the order of their numbers |
| TrackerWebhooks.ClaimKeeps | tracker/ref/app.py:1783-1793 | a claim keeps the invariant: every earlier delivery of the chain is over |
| TrackerWebhooks.RecordKeeps | tracker/ref/app.py:1797-1809 | recording keeps it too, also when leases overlapped: the row keeps the outcome of the send, succeeded, failed or to be tried again |
| TrackerWebhooks.StepKeeps | tracker/ref/app.py:1757-1815 | every step of emitters, workers, clock and crashes keeps the invariant |
| TrackerWebhooks.ClaimedInOrder | tracker/ref/app.py:1757-1794 | in every run, once a delivery was claimed no earlier one for its webhook and issue is ever pending again |
| TrackerWebhooks.StatusFinal | tracker/ref/app.py:1799-1809 | in every run a status other than pending never changes |
| TrackerWebhooks.FailedAfterAll | tracker/ref/app.py:1802-1804 | in every run a failed delivery has 6 recorded attempts, and at least 6 were really made |
| TrackerWebhooks.SucceededMeans | tracker/ref/app.py:1797-1801 | in every run a delivery has succeeded if and only if the receiver accepted a send of it that was recorded while it was pending |
| TrackerWebhooks.FailedMeans | tracker/ref/app.py:1802-1804 | in every run a delivery has failed if and only if its last allowed send was recorded as refused; no send recorded while it was pending was accepted |
| TrackerWebhooks.RetriedLater | tracker/ref/app.py:1805-1809 | a refused send below the limit leaves the row pending, with its next time after the delay of that attempt |
| TrackerWebhooks.NotClaimedAgain | tracker/ref/app.py:1783-1801 | a delivery with an accepted send recorded is never claimed again |
| TrackerNumbers.CommitNumbers | tracker/impl/go-1/issues.go:508-513 | a commit adds exactly the next numbers: the counter cannot have moved while its row was locked |
| TrackerNumbers.CommitKeys | tracker/impl/go-1/issues.go:488-503 | a commit stores the result of a key that no other transaction can have stored |
| TrackerNumbers.NumbersAreGapFree | tracker/impl/go-1/issues.go:606-677 | in every run the numbers ever committed in a project are exactly 1 to its counter, without repetition |
| TrackerNumbers.OneCreationPerKey | tracker/impl/go-1/issues.go:448-506 | in every run, from the first use of a key until its row is a day old, exactly one request with it has created, every repetition of that request is told its body, and every other request with the key is told that it was reused; before the first use, none is told anything |
| TrackerNumbers.ToldWhatWasAsked | tracker/impl/go-1/issues.go:448-506 | in every run every positive reply has the body of a creation of just what was asked, and its numbers were committed |
| TrackerNumbers.FirstStays | tracker/impl/go-1/schema.go:107-115 | which row was the first of a key never changes |
| TrackerPages.BehindMeans | tracker/impl/go-1/list.go:209-254 | the cursor condition selects exactly the rows behind the cursor in the list's order |
| TrackerPages.PageSorted | tracker/impl/go-1/list.go:196-254 | on every page sorted by a column the values ascend, or descend, equal ones by ascending key and number; sorted by key, keys and numbers ascend, or descend |
| TrackerPages.CursorMeans | tracker/impl/go-1/list.go:209-254 | a row is behind a cursor if and only if that order puts it there |
| TrackerPages.TakePage | tracker/impl/go-1/list.go:255-317 | the page loop returns the first rows behind the cursor and a cursor if and only if there are more |
| TrackerPages.OnPage | tracker/impl/go-1/list.go:196-317 | a row is on a page if and only if it is behind the page's cursor and not behind the next one |
| TrackerPages.WalkListsAll | tracker/impl/go-1/list.go:277-317 | on a fixed table, following cursors with any limits lists every row once, in order |
| TrackerPages.WalkSorted | tracker/impl/go-1/list.go:277-317 | all pages together are sorted so and have exactly the rows of the table |
| TrackerPages.PagesEnd | tracker/impl/go-1/list.go:277-317 | on a fixed table no more pages can be followed than there are rows, except the first |
| TrackerPages.WalkEnds | tracker/impl/go-1/list.go:277-317 | so following the cursors with any limits comes to the end |
| TrackerPages.ListedOnce | tracker/impl/go-1/list.go:196-317 | while rows come and go, a row that stays with its place unchanged is listed on exactly one page, once |
| TrackerPages.CursorRoundTrip | tracker/impl/go-1/list.go:303-314 | the text of a cursor splits into the three fields it was made of |

## Left out

- Search: parsing of corpus lines, tokenising and parsing of query text; terms and clauses are given.
- Search: titles, document store, id map, HTTP, files and memory mapping; dictionary and skip entries are records rather than 16 and 24 bytes.
- Search: 32-bit width of document numbers and offsets; the corpus is assumed to have fewer than 2^32 - 1 documents, and document ids are assumed distinct.
- Search: rounding of floating-point scores; scores are reals and ties are exact.
- SearchTopK.TopK.Push: the heap is a sequence that the methods reassign rather than a slice changed in place.
- SearchMerge.PopGroup: the heap of runs is a set from which the least is taken; `container/heap` is not modelled.
- Redis: the LRU clock: the time of last use is an arbitrary function of the item, and the random starting points are parameters.
- Redis: containers in a shard are their contents; a command makes the ring buffer or hash object of those contents, works on it and puts its contents back, so the table of objects with its free list is not modelled.
- Redis: the links of free lists, which the source keeps in the freed memory, are sequences of addresses; hashing by mask is the remainder by a power of two.
- Redis: GET, STRLEN, TYPE, TTL, LRANGE, LINDEX, HGET, HGETALL and the like, which only read; KEYS, DBSIZE, INFO, publish and subscribe, replies as bytes, QUIT.
- RedisAtomic.MgetAlone: the store and the operations are compared at one time, so items that expire during a run are not covered by the comparison.
- RedisShard.Shard.Get: does not model the time of last use that a hit sets.
- RedisServer.Set: other keys are compared at the time of the command; one that expires later is covered by RedisCommands.SeenLater.
- RedisStore.Store.Evict: does not promise that memory ends within the limit, because the source gives up after a number of random tries.
- Lox: scanning and parsing; programs are syntax trees, resolved ones for fusion and ones with names for scopes. Jump offsets are instruction numbers, so the limits of one and two byte operands and the limits on constants, locals and upvalues are not modelled.
- LoxMeaning.CompiledMeans: what literals, negation, `not`, printing, global and captured variables, property access and calls do is an arbitrary function of stack and world; which function a call enters, and that its body is executed then, is modelled. Division by zero is not.
- LoxParser.Compile: a name read in its own initialiser is an error, and what is emitted for it is not what the source emits; no code is run after an error. `for` has all three clauses; a call of a superclass method is a property read followed by a call.
- LoxClosures.Vm.StepClosure: the closure's slot is pushed before the captures rather than after them, which no instruction can tell apart.
- Lox: line numbers of errors and the bound on the stack; numbers are reals, so rounding and NaN are not modelled.
- Lox: upvalues are records in a store that the machine owns, addressed by number, rather than linked heap objects.
- Tracker: HTTP, permissions, validation, search words, filters and totals of the list; the database is modelled by its row locks, unique keys and commits.
- TrackerWebhooks.CommitKeeps: a transaction emits for one issue; one that emits for several counts as several that commit one after the other.
- TrackerNumbers.OneCreationPerKey: promises nothing once the first row of a key is older than 24 hours: the source then deletes the row without looking at its age again.
- SearchBuild.WriteDocData: does not carry titles and store blocks.
- LoxObjects.Heap.Inherit: a class's initialiser is its method of that name rather than a field of its own.
- TrackerPages.ListedOnce: is for sorts whose value never changes; a row whose sort value changes during a walk may be missed or repeated.
- TrackerPages.CursorRoundTrip: the base64 layer and the decimal numbers in the fields are not modelled.
- The orders API in its many languages, benchmarks, agents, status pages, seeds and test runners.
