# Verified model of an in-memory key/value server

The repository is a Redis-like server: a RESP2 codec, a streaming command loop, a store of strings, sets,
sorted sets, Count-Min sketches and Bloom filters with expiry and eviction, and a worker pool for
connections. These modules model its core and prove what it promises over all inputs and all runs.

- `SortedItems`, `OrderLaws`, `BPlusShape`, `BPlusTrees`, `SkipLists`, `SortedSets`: the two ordered indexes, as heap
  structures changed in place. Both refine one map from members to scores, sorted by (score, member).
- `SortedSetLoops`, `IndexedStores`: the ZADD and ZREM loops over an index object with the memory they account for, and
  the store whose sorted sets are such objects.
- `Decimals`, `Resp`, `WireLaws`, `Commands`: the RESP2 codec ("Simple strings", "Simple errors", "Integers", "Bulk
  strings" and "Arrays" of the Redis serialization protocol specification), command parsing, and the
  buffer loop of a connection.
- `CountMin`, `BloomFilters`: the two sketches over an arbitrary hash function.
- `Policies`, `SortedNames`, `StoreSpec`, `StoreOps`, `Stores`: the store. `StoreOps` says what each command does to the
  records, the recency order and the tallies; the class `Stores.Store` does it in place with incremental
  accounting. Time is a parameter, sampled once per operation.
- `StoreRuns`, `Removals`, `Inheritance`, `FreshFilters`: what every command keeps, what it may take away key by key, which
  values it leaves alone, and when a filter made by BF.ADD survives.
- `CommandLaws`: what every command answers and leaves, in terms of the records there were and of one another.
- `LookCounts`: hits and misses over whole runs.
- `Recency`: which commands use a key, and that exact LRU evicts by the last use.
- `Interleavings`, `SharedStores`, `LiveViews`, `LazyExpiry`, `StoredSketches`, `StoredValues`: what holds over whole
  runs, with readers that drop the read lock and come back later to remove a stale record.
- `WorkerPools`: the pool as a machine over its channel operations, and a class whose methods are its steps.

`Bytes`, `Options` and `FiniteSums` are shared ground.

Three promises that the code does not keep in full are stated with their exact conditions and a store that shows
each: INCR wraps around at the largest integer (`StoreOps.IncrAddsOne`, `StoreOps.LargestWraps`); GET and TTL disagree
at the instant of expiry (`StoreOps.AtTheInstant`, `StoreOps.InstantDisagrees`); and a filter may be evicted before its
first bits are set (`FreshFilters.FreshFilterFinds`, `FreshFilters.AnyVictimFinds`, `FreshFilters.TightStoreLoses`).
A comment in `internal/storage/stats.go:5-6` says that reads other than GET still refresh the
eviction policy; EXISTS and TTL do not (`Recency.Uses`), and the model follows the code.

## Model

| member | source | states |
|---|---|---|
| SortedItems.LessIsTotalOrder | internal/storage/b_tree_plus.go:12-14 | ordering by score and then member is a strict total order on items, so both indexes sort the same way; which item comes first is `OrderLaws.RankFollowsScore` |
| OrderLaws.RankFollowsScore | internal/storage/b_tree_plus.go:12-14 | of two members of a set the one with the lower score has the lower rank: minus infinity before every other score, plus infinity after, and equal scores by member |
| OrderLaws.EarlierIs | internal/storage/skip_list.go:180 | members compare byte by byte: the first differing byte decides, and a proper prefix comes first |
| OrderLaws.RangeFollowsScore | internal/storage/b_tree_plus.go:285-296 | the names of a range are listed from the lowest score to the highest |
| OrderLaws.RangeCovers | internal/storage/b_tree_plus.go:266-297 | a range has exactly the members ranked from start to stop, each at its rank; a negative position counts from the end, and positions outside the set are left out |
| SortedItems.SortedUnique | internal/storage/sorted_set_value.go:15-24 | two ascending lists of the same items are the same list: the abstract order behind both indexes is unique |
| SortedItems.RankFromOrder | internal/storage/b_tree_plus.go:238-264 | the position of an item in the ascending list is the number of items below it |
| SortedItems.RankRangeAgree | internal/storage/b_tree_plus.go:238-297 | for a member m and 0 <= r < length, rank(m) = r exactly when range(r, r) = [m] |
| BPlusShape.FlatSorted | internal/storage/b_tree_plus.go:16-32 | a tree whose separators bound its subtrees (keys[i-1] <= subtree i < keys[i]) lists its leaves' items in ascending order |
| BPlusShape.Locate | internal/storage/b_tree_plus.go:197-200 | the child that the separators choose is the only one that can hold the item: what lies to its left is below, to its right above |
| BPlusShape.WalkLeaves | internal/storage/b_tree_plus.go:285-296 | walking the leaves in tree order gives the items of the whole tree in order |
| BPlusShape.DropChild | internal/storage/b_tree_plus.go:205-229 | dropping an emptied child with one neighbouring separator leaves subtrees within their separators |
| BPlusTrees.LowerBound | internal/storage/b_tree_plus.go:83-85 | binary search finds the first position whose item is not below the given one |
| BPlusTrees.UpperBound | internal/storage/b_tree_plus.go:111-113 | binary search finds the first separator above the item |
| BPlusTrees.BPlusTree.constructor | internal/storage/b_tree_plus.go:36-55 | a new tree is valid and empty; an order below 3 becomes the default |
| BPlusTrees.BPlusTree.Add | internal/storage/b_tree_plus.go:57-79 | the tree stays valid for every order >= 3, its members become the old ones with this score, and it answers whether the member is new |
| BPlusTrees.BPlusTree.InsertInternal | internal/storage/b_tree_plus.go:81-145 | recursive insertion with splits on a heap subtree: one well-formed tree, or two around the promoted separator, hold exactly the old items and the new one, at the same depth, with the leaf chain relinked |
| BPlusTrees.BPlusTree.LinkAfter | internal/storage/b_tree_plus.go:92-102 | splicing a new leaf behind leaf k gives the doubly linked chain with it in that place, prev inverse to next |
| BPlusTrees.BPlusTree.Unlink | internal/storage/b_tree_plus.go:206-214 | unlinking leaf k gives the doubly linked chain without it, leafHead its first leaf |
| BPlusTrees.BPlusTree.CutLeafNode | internal/storage/b_tree_plus.go:90-107 | a full leaf is cut into two non-empty halves, the right one chained behind it and its first item promoted |
| BPlusTrees.BPlusTree.CutNode | internal/storage/b_tree_plus.go:127-143 | an overfull inner node is cut around its middle separator into two nodes within the child limits |
| BPlusTrees.BPlusTree.Update | internal/storage/b_tree_plus.go:147-159 | the score of a member that is there is replaced and nothing else changes; the tree stays valid |
| BPlusTrees.BPlusTree.Remove | internal/storage/b_tree_plus.go:161-183 | the member goes and nothing else changes; the tree stays valid without rebalancing, after an emptied root is replaced or single-child roots collapse |
| BPlusTrees.BPlusTree.DeleteItem | internal/storage/b_tree_plus.go:185-231 | recursive deletion takes exactly the item away, keeps every leaf at one depth and no empty leaf below the parent, and unlinks an emptied leaf from the chain |
| BPlusTrees.BPlusTree.CollapseRoot | internal/storage/b_tree_plus.go:176-180 | replacing a root by its only child keeps order, depth and chain |
| BPlusTrees.BPlusTree.RefreshCounts | internal/storage/b_tree_plus.go:308-319 | after the recursion every node's count is the number of items below it |
| BPlusTrees.BPlusTree.GetRank | internal/storage/b_tree_plus.go:238-264 | descending and adding counts gives the number of items below the member, and finds it exactly when it is a member |
| BPlusTrees.BPlusTree.GetRange | internal/storage/b_tree_plus.go:266-297 | walking the leaf chain gives the members between the clamped indices, negative ones counting from the end |
| SkipLists.Linking | internal/storage/skip_list.go:36-39 | putting a node between its predecessor and the next one makes every pointer of the level skip to the nearest later node again |
| SkipLists.Unlinking | internal/storage/skip_list.go:66-70 | passing a node by does the same for the level without it |
| SkipLists.SkipList.Predecessors | internal/storage/skip_list.go:168-178 | at every level the result is the last node below the key, or the head |
| SkipLists.SkipList.Add | internal/storage/skip_list.go:26-43 | whatever heights are drawn the list stays valid (every level sorted, each a subset of the one below, level 0 the members), and the scores become the old ones with this score |
| SkipLists.SkipList.LinkUp | internal/storage/skip_list.go:36-39 | with the height drawn anew before each level, the node joins some first levels, at least level 0, and every level stays threaded in order |
| SkipLists.SkipList.Update | internal/storage/skip_list.go:45-57 | the score of a member that is there is replaced and nothing else changes |
| SkipLists.SkipList.Remove | internal/storage/skip_list.go:59-74 | the node leaves every level it is in, and nothing else changes |
| SkipLists.SkipList.GetRank | internal/storage/skip_list.go:84-93 | counting along level 0 gives the number of items below the member |
| SkipLists.SkipList.GetRange | internal/storage/skip_list.go:95-121 | level 0 between the clamped indices, as for the tree |
| SortedSets.SortedSet.Perform | internal/storage/sorted_set_value.go:15-24 | every operation of the index interface, on either index, acts and answers as on a plain map sorted by (score, member) |
| SortedSets.SortedSet.Run | internal/storage/sorted_set_value.go:55-85 | so does every sequence of operations |
| SortedSets.ReadAfterWrite | internal/storage/sorted_set_value.go:55-69 | what add, update and remove answer, and the score that each member is then answered to have |
| SortedSets.IndexesAgree | internal/storage/sorted_set_value.go:30-41 | the skip list and the B+ tree give the same answers to every sequence of operations |
| SortedSets.SortedSet.Size | internal/storage/sorted_set_value.go:89-104 | the footprint is the sum over the members, each counted once |
| SortedSetLoops.AddAll | internal/storage/sorted_set_value.go:139-147 | the ZADD loop on the index object: scores merged, new members counted, and the footprint grows by exactly the memory delta |
| SortedSetLoops.RemoveAll | internal/storage/sorted_set_value.go:214-221 | the ZREM loop on the index object: listed members go, each counted once, and the memory delta is exactly what they held |
| Decimals.ParseFormat | internal/protocol/resp.go:121-123 | parsing undoes formatting for every 64-bit integer |
| Decimals.ParseMeans | internal/protocol/resp.go:194-199 | a text parses as n exactly when it writes n, with any leading zeros behind a minus, a plus or no sign, and n fits in 64 bits |
| Decimals.FormatShape | internal/protocol/resp.go:121-123 | an integer is formatted in decimal digits without leading zeros, behind a minus if it is negative |
| WireLaws.EncodedBytes | internal/protocol/resp.go:109-149 | the encodings byte by byte |
| WireLaws.LineIs | internal/protocol/resp.go:267-274 | a line ends at the first CR LF behind the first byte, and is incomplete exactly when there is none |
| WireLaws.NoLine | internal/protocol/resp.go:72-95 | without a whole line the verdict is Incomplete, unless the first byte is unknown |
| WireLaws.LineVerdict | internal/protocol/resp.go:180-200 | the verdict on simple strings, errors, integers and unknown prefixes, for every line |
| WireLaws.BulkVerdict | internal/protocol/resp.go:202-224 | the verdict on bulk strings by the length on the line: null, a bad length, too few bytes, a missing terminator, or exactly those bytes |
| WireLaws.BadLength | internal/protocol/resp.go:253-265 | a length that is no integer is malformed, for bulk strings and arrays |
| WireLaws.ArrayVerdict | internal/protocol/resp.go:226-251 | the verdict on arrays by the length on the line |
| WireLaws.ElementsRead | internal/protocol/resp.go:239-250 | the elements of an array are read each where the one before it ended |
| WireLaws.ElementsStop | internal/protocol/resp.go:241-245 | the first element that is incomplete or malformed decides for the array |
| Resp.DecodeOne | internal/protocol/resp.go:72-95 | the decoder computes the value, the malformed verdict or Incomplete that the grammar function gives |
| Resp.ReadArray | internal/protocol/resp.go:226-251 | the array loop gives the nested values in order and the bytes they took; a bad or incomplete element decides for the whole |
| Resp.ReadLine | internal/protocol/resp.go:267-274 | the scan stops at the first CRLF |
| Resp.DecodeStable | internal/protocol/resp.go:72-95 | a success or a malformed verdict on d is the same verdict on d ++ x, for every x, through nested arrays |
| Resp.DecodeExact | internal/protocol/resp.go:202-251 | the consumed bytes alone already decode to the value |
| Resp.DecodePrefixes | internal/protocol/resp.go:72-95 | every prefix shorter than the consumed bytes is Incomplete, every longer one gives the same value and length |
| Resp.RoundTrip | internal/protocol/resp.go:109-149 | for every finite tree of values, decoding its encoding followed by any bytes gives its meaning and consumes exactly the encoding |
| Resp.SimpleRoundTripIff | internal/protocol/resp.go:109-111 | a simple string survives the round trip if and only if it contains no CRLF |
| Resp.EncodeArray | internal/protocol/resp.go:134-145 | the builder loop writes the header and the elements in order |
| Commands.ParseCommand | internal/protocol/resp.go:26-61 | the parser computes the command or the error that the grammar function gives; `CommandAccepted` and `CommandRejected` say which |
| Commands.CommandAccepted | internal/protocol/resp.go:26-61 | a command is parsed exactly from a non-empty array that starts with a string and goes on with strings and integers; its name is the string in capitals, its arguments the texts and the decimals |
| Commands.CommandRejected | internal/protocol/resp.go:32-51 | every other array or value is rejected, with the error of its first bad token |
| Commands.CaseIgnored | internal/protocol/resp.go:55-58 | two requests with the same arguments parse alike if and only if their names are equal up to ASCII case |
| Commands.ParseStable | internal/protocol/resp.go:26-61 | a parsed command or protocol error does not change when more bytes arrive |
| Commands.CommandRoundTrip | internal/protocol/resp.go:125-145 | an encoded array of bulk strings parses, whatever follows, to its arguments and to the name whose every byte from 97 to 122 is lowered by 32 and whose other bytes are as sent |
| Commands.Connection.ProcessRespBuffer | internal/server/server.go:391-407 | the loop ends, dispatches the buffered commands in order, and leaves the incomplete rest, the protocol error, or the bytes of the command whose handler failed |
| Commands.ChunkIndependence | internal/server/server.go:60-75 | however a stream is cut into reads: same commands, same order, same protocol error or failed handler, and otherwise the same pending bytes |
| Commands.Connection.Serve | internal/server/server.go:50-76 | a connection fed the reads one by one dispatches what the whole stream would |
| Commands.PipelineDelivered | internal/server/server.go:391-407 | commands encoded back to back and cut anywhere are dispatched one by one, in order, with their names in capitals and their arguments, with nothing left over, as long as no handler fails |
| CountMin.BumpExact | internal/storage/count_min_sketch.go:113-117 | an increment keeps every cell the sum of the true totals of the items hashing to it, and the count their total |
| CountMin.QueryIsSmallest | internal/storage/count_min_sketch.go:238-245 | the estimate is no larger than any of the item's counters, and is one of them |
| CountMin.BatchAnswers | internal/storage/count_min_sketch.go:103-119 | answer i of a batch is the smallest counter of item i after increment i |
| CountMin.MergeIncompatible | internal/storage/count_min_sketch.go:172-182 | a merge is incompatible exactly when a source of another size is reached before the weighted count overflows |
| CountMin.QuerySound | internal/storage/count_min_sketch.go:238-245 | true(item) <= query(item) <= count |
| CountMin.RowsSumToCount | internal/storage/count_min_sketch.go:113-117 | each row sums to the count |
| CountMin.CountGuardDecides | internal/storage/count_min_sketch.go:104-112 | once the guard on the count passes, no guard on a cell can fire |
| CountMin.BatchExact | internal/storage/count_min_sketch.go:103-119 | a batch counts exactly the longest prefix the count admits, keeps it when a later increment overflows, and succeeds if and only if that prefix is the batch |
| CountMin.CountMinSketch.IncrBy | internal/storage/count_min_sketch.go:103-119 | the in-place loop gives that sketch and those results |
| CountMin.CountMinSketch.QueryItem | internal/storage/count_min_sketch.go:238-245 | the loop finds the smallest of the item's cells |
| CountMin.PlusProduct | internal/storage/count_min_sketch.go:183-190 | the two division and subtraction guards admit m + c * w exactly when it fits in 64 bits |
| CountMin.MergeSketches | internal/storage/count_min_sketch.go:172-201 | the nested loops compute the weighted sum of the sources, or the first problem in their order |
| CountMin.MergeAllExact | internal/storage/count_min_sketch.go:172-201 | a merge of equal-sized exact sketches overflows if and only if the weighted sum of their counts exceeds 2^64-1, and otherwise every cell and the count are the exact weighted sums |
| BloomFilters.SetThenTest | internal/storage/bloom_filter.go:199-210 | setting a bit of a 64-bit word sets that bit and no other |
| BloomFilters.HasMeans | internal/storage/bloom_filter.go:207-215 | an item is found exactly when for every hash function i the bit h(item, i) mod bitCount is set |
| BloomFilters.AddOnes | internal/storage/bloom_filter.go:197-200 | adding an item sets exactly its positions |
| BloomFilters.AddFaithful | internal/storage/bloom_filter.go:195-205 | after any additions the set bits are the union of the items' positions, and count <= set bits <= min(bitCount, hashCount * count) |
| BloomFilters.NoFalseNegatives | internal/storage/bloom_filter.go:207-215 | whatever was added is found, and stays found after any later additions |
| BloomFilters.OrderIrrelevant | internal/storage/bloom_filter.go:195-205 | the bits depend only on which items were added, not on order or repetition |
| BloomFilters.BloomFilter.AddItem | internal/storage/bloom_filter.go:195-205 | the in-place loop over the words gives that filter, every access within the word array, and tells whether the item was new |
| BloomFilters.BloomFilter.Exists | internal/storage/bloom_filter.go:207-215 | the answer is true exactly when all positions of the item are set |
| Policies.ReplayByRecency | internal/storage/eviction_lru.go:30-70 | after any history of touches and removals the list holds exactly the keys touched and not removed since, ordered by last touch |
| Policies.Policy.Touch | internal/storage/eviction_lru.go:62-70 | the key moves to the front of the list, inserted if absent; map and list keep pointing at each other and at the history |
| Policies.Policy.OnRemove | internal/storage/eviction_lru.go:42-49 | the key leaves map and list, the others keep their order |
| Policies.Policy.Victim | internal/storage/eviction_lru.go:51-60 | the victim is a tracked key, for exact LRU the one touched longest ago; there is none exactly when nothing is tracked |
| StoreSpec.UsedPut | internal/storage/stats.go:102-112 | writing a record changes the sum of record sizes by the difference that trackInsert or trackOverwrite adds |
| StoreSpec.UsedDrop | internal/storage/stats.go:115-118 | removing a record lowers the sum of record sizes by what trackRemove takes off |
| StoreSpec.VictimsHaveRecords | internal/storage/eviction.go:121-131 | a store over its limits tracks a key and every tracked key has a record: the "no victim" and "stale key" exits are dead |
| StoreSpec.FitIsShortest | internal/storage/eviction.go:116-139 | exact LRU eviction keeps the most recently used keys and removes the shortest least-recently-used run that restores capacity |
| Stores.Store.constructor | internal/storage/store.go:91-101 | a new store is empty, consistent and within its limits |
| Stores.Store.EvictLocked | internal/storage/eviction.go:116-149 | the loop ends within both limits, alters no surviving record, counts what it evicts, changes nothing if the store was within its limits, and for exact LRU removes exactly that run |
| Stores.Store.Sweep | internal/storage/eviction.go:101-112 | removes exactly the expired records, keeps the order of use of the others, and then finds nothing to evict |
| Stores.Store.InsertRecord | internal/storage/stats.go:102-105 | used memory stays the sum of record sizes and the tracked keys the stored keys, with one key more |
| Stores.Store.OverwriteRecord | internal/storage/stats.go:109-112 | the same with one record replaced |
| Stores.Store.DropRecord | internal/storage/stats.go:115-118 | the same with one record gone |
| Stores.Store.RemoveExpired | internal/storage/stats.go:122-126 | the same, counted as expired |
| Stores.Store.Set | internal/storage/string_value.go:8-30 | the key holds the text with the given expiry, as a new key if an expired one was there, and the store is settled within its limits |
| Stores.Store.Get | internal/storage/string_value.go:32-60 | a live string is a hit and an access; anything else is a miss, and an expired record goes |
| Stores.Store.Expire | internal/storage/string_value.go:62-85 | sets the expiry of a live key, drops an expired one, deletes for a ttl that is not positive |
| Stores.Store.Ttl | internal/storage/string_value.go:87-114 | -2, -1 or the whole seconds left |
| Stores.Store.Delete | internal/storage/string_value.go:116-130 | removes each listed key once, expired or not, and counts them |
| Stores.Store.Exists | internal/storage/string_value.go:132-152 | counts the live keys listed, with repetition, dropping expired ones |
| Stores.Store.Incr | internal/storage/string_value.go:154-190 | the next integer with 64-bit wrap-around, keeping the expiry; not-an-integer changes nothing |
| Stores.Store.SAdd | internal/storage/simple_set_value.go:5-58 | the set becomes the union, counted by new members; the memory delta of the loop is exactly the growth |
| Stores.Store.SRem | internal/storage/simple_set_value.go:60-103 | the set becomes the difference; an emptied set takes its key with it |
| Stores.Store.SIsMember | internal/storage/simple_set_value.go:105-135 | answers membership of a live set and touches it |
| Stores.Store.SMembers | internal/storage/simple_set_value.go:137-168 | answers the members of a live set in ascending order and touches it |
| SortedNames.NamesAscend | internal/storage/simple_set_value.go:167 | that answer has exactly the members, each once, in ascending byte order |
| SortedNames.SortNames | internal/storage/simple_set_value.go:162-167 | sorting the members of a set gives that answer |
| IndexedStores.IndexedStore.ZAdd | internal/storage/sorted_set_value.go:106-151 | on the index object the key points at: scores are merged, new members counted, used memory grows by exactly the memory delta of the loop, the other indexes stay as they were, and the store is settled within its limits; an absent key gets a new index |
| IndexedStores.IndexedStore.ZRem | internal/storage/sorted_set_value.go:194-230 | the listed members leave the index, counted once each, used memory shrinks by exactly their sizes, and an emptied set takes its key with it |
| IndexedStores.IndexedStore.ZAsk | internal/storage/sorted_set_value.go:153-192 | ZSCORE, ZRANK and ZRANGE: the index answers as the plain map sorted by (score, member) would, with one access; an absent set answers like an empty one and nothing is dropped |
| IndexedStores.IndexedStore.SetSortedSetType | internal/storage/store.go:103-107 | the configured kind changes for indexes made later; those that exist keep theirs |
| IndexedStores.IndexedStore.Perform | internal/storage/store.go:52-65 | every command on the store with its index objects is one step of the run machine, keeps every index sound and apart from the others, and keeps every record the mirror of its index |
| Stores.Store.CmsInit | internal/storage/count_min_sketch.go:60-91 | creates an empty sketch unless the sizes are bad or the key is live |
| Stores.Store.CmsIncrBy | internal/storage/count_min_sketch.go:93-123 | the batch is counted in the stored sketch; an overflow keeps the earlier increments and is no access |
| Stores.Store.CmsQuery | internal/storage/count_min_sketch.go:125-140 | the estimates, in order, and one access |
| Stores.Store.CmsMerge | internal/storage/count_min_sketch.go:154-221 | sources are looked up and touched in order, merged afresh, and stored over the destination, even if it is a source |
| Stores.Store.BfReserve | internal/storage/bloom_filter.go:63-82 | creates an empty filter unless the configuration is bad or the key is live |
| Stores.Store.BfMultiAdd | internal/storage/bloom_filter.go:96-109 | items are added to the live filter in order; for an absent key a default filter is stored, eviction runs, and only then bits are set, in a filter that may be gone |
| Stores.Store.BfExists | internal/storage/bloom_filter.go:123-140 | the filter's answers, in order; all false for an absent key |
| StoreOps.IncrAddsOne | internal/storage/string_value.go:180 | INCR adds one if and only if the integer is not the largest 64-bit one, which wraps to the smallest |
| StoreOps.LargestWraps | internal/storage/string_value.go:180 | a store whose key holds "9223372036854775807": INCR answers the smallest integer |
| StoreOps.AtTheInstant | internal/storage/string_value.go:87-114 | GET still finds the value while TTL answers -2 if and only if the clock is exactly at the expiry time |
| StoreOps.InstantDisagrees | internal/storage/string_value.go:87-114 | a store with one key expiring at 5: at 5 GET answers its value and TTL -2 |
| StoreRuns.StepKeeps | internal/storage/stats.go:102-126 | every command keeps tracked keys, tallies and shapes consistent, keeps the numbers of expired and lost keys within those of stale, deleted, emptied and evicted ones, and leaves a store that was within its limits within them |
| Removals.EffectTakes | internal/storage/string_value.go:116-130 | before any eviction a command takes a live key away if and only if it is a DELETE listing it, an EXPIRE with a ttl that is not positive on it, or an SREM or ZREM that lists all its members |
| Removals.EffectExpires | internal/storage/stats.go:122-126 | the count of expired keys grows by exactly the keys the command looked at whose time is over at that moment |
| Removals.StepRightful | internal/storage/eviction.go:116-139 | key by key: a live key a command loses was taken by that command itself, or was there for the eviction run while the store was over its limits and evictions were counted; and expiry counts exactly stale keys |
| FreshFilters.FreshFilterFinds | internal/storage/bloom_filter.go:157-178 | an item added to an absent key is found right afterwards: always without a policy; with exact LRU if and only if the memory limit has room for the new filter alone; with any policy when the store with the new filter is within its limits |
| FreshFilters.AnyVictimFinds | internal/storage/bloom_filter.go:157-178 | with a policy that may take any tracked key it is found in every run if and only if the store with the new filter is within its limits; otherwise some run loses it |
| FreshFilters.OverWithFilter | internal/storage/bloom_filter.go:173-177 | that limit, counted before the call: entries and used memory of the other keys plus those of the new filter |
| FreshFilters.TightStoreLoses | internal/storage/bloom_filter.go:157-178 | a new store with 8 bytes of memory, exact LRU and one-word filters reports the first item as added and does not find it |
| Recency.EffectInTurn | internal/storage/stats.go:85-93 | for every command, before any eviction: the keys in the table `Uses` are last used, in turn, and every other key keeps its place; a miss, another type, a failure, TTL, EXISTS, DEL and an overflowing CMS.INCRBY use nothing |
| Recency.UsedComesFirst | internal/storage/string_value.go:55-56 | the key that a command uses is first in the order of use afterwards |
| Recency.UnusedStay | internal/storage/stats.go:85-93 | of the keys that a command does not use no two change places |
| Recency.RunInTurn | internal/storage/eviction_lru.go:62-70 | over every interleaving, whatever was evicted, expired or deleted: the keys stand in the order of the last command of the run that used each |
| Recency.ExactEvictsOldest | internal/storage/eviction.go:116-139 | with exact LRU a key that a command evicts was last used before every key that stays |
| Recency.NewStoreEvictsOldest | internal/storage/eviction_lru.go:51-60 | so in every run of a new store the evicted keys are those that its commands have left unused the longest |
| CommandLaws.OthersUntouched | internal/storage/store.go:52-65 | a command leaves the record of every key it does not write as it was, or the key is gone |
| CommandLaws.GetTells | internal/storage/string_value.go:32-60 | GET answers a text exactly when a live string holds it, and none otherwise |
| CommandLaws.SetThenGet | internal/storage/string_value.go:8-60 | after a SET whose key was not evicted, GET answers the text exactly while no time was given or it is not over |
| CommandLaws.TtlTells | internal/storage/string_value.go:87-114 | TTL answers -2 for no live key and at the very end, -1 without a deadline, otherwise the whole seconds left, rounded down |
| CommandLaws.ExpireSets | internal/storage/string_value.go:62-85 | EXPIRE with a positive time answers whether the key is live and then sets the deadline and keeps the value; otherwise it deletes |
| CommandLaws.ExistsCounts | internal/storage/string_value.go:132-152 | EXISTS answers the number of positions of its list that name a live key |
| CommandLaws.IncrTells | internal/storage/string_value.go:154-190 | INCR answers 1 for an absent key, the integer after n, around the 64-bit range, for a text that writes n, and an error for every other |
| CommandLaws.IncrLeaves | internal/storage/string_value.go:181-189 | an error leaves everything; otherwise the key holds the answer in decimal and keeps its deadline |
| CommandLaws.StepLooks | internal/storage/string_value.go:32-60 | a GET that finds a string is one hit, any other GET one miss, and nothing else counts as either |
| CommandLaws.SAddTells | internal/storage/simple_set_value.go:5-58 | SADD answers how many of the names are new and leaves exactly the old members and the names, with the deadline |
| CommandLaws.SRemTells | internal/storage/simple_set_value.go:60-103 | SREM answers how many of the names were members and leaves exactly the others; the key stays if and only if some are left |
| CommandLaws.SetReadsTell | internal/storage/simple_set_value.go:105-168 | SISMEMBER and SMEMBERS answer the same set |
| CommandLaws.ZAddTells | internal/storage/sorted_set_value.go:106-151 | ZADD answers how many members are new; each given member has the given score and every other its old one |
| CommandLaws.ZRemTells | internal/storage/sorted_set_value.go:194-230 | ZREM answers how many of the names were members; the others keep their scores, and without any the key goes |
| CommandLaws.ZAskTells | internal/storage/sorted_set_value.go:153-192 | ZSCORE, ZRANK and ZRANGE answer from the scores, with the error for another type |
| CommandLaws.CmsInitTells | internal/storage/count_min_sketch.go:37-91 | CMS.INIT makes a sketch of that size with every counter zero, unless the size is not from 1 to 2^63-1 or the key is live |
| CommandLaws.NoSketch | internal/storage/count_min_sketch.go:223-236 | not found exactly for no live key, wrong type exactly for another one, and nothing changes |
| CommandLaws.CmsReadsTell | internal/storage/count_min_sketch.go:125-152 | CMS.QUERY answers the smallest counter of each item, CMS.INFO width, depth and count |
| CommandLaws.CmsIncrByTells | internal/storage/count_min_sketch.go:93-123 | answer i of CMS.INCRBY is the smallest counter of item i right after increment i |
| CommandLaws.SourcesTell | internal/storage/count_min_sketch.go:160-171 | CMS.MERGE takes its sources in order and fails with the error of the first that is no live sketch |
| CommandLaws.MergeTells | internal/storage/count_min_sketch.go:154-221 | the errors of CMS.MERGE in their order, and the merged sketch stored without a deadline over a sketch or nothing |
| CommandLaws.BfReserveTells | internal/storage/bloom_filter.go:63-82 | BF.RESERVE makes a filter of that size with no bit set, unless there is no size or the key is live |
| CommandLaws.BfAddCreates | internal/storage/bloom_filter.go:157-178 | BF.ADD on an absent key starts from an empty filter of the default size |
| CommandLaws.BfReadsTell | internal/storage/bloom_filter.go:123-155 | BF.EXISTS answers item by item whether all its bits are set, BF.INFO capacity, bytes, hash functions and count |
| CommandLaws.BfAddTells | internal/storage/bloom_filter.go:96-109 | BF.MADD answers item by item whether it was not found with the earlier ones added, in the live filter or a new one, and the filter that is left has them all added |
| CommandLaws.Weights | internal/storage/stats.go:44-69 | what a record weighs: key, text, every set member, every sorted-set member and 8 for its score |
| CommandLaws.SketchWeights | internal/storage/stats.go:44-69 | 8 bytes for every counter of a sketch and every word of a filter |
| StoredValues.RunTrue | internal/storage/store.go:52-65 | over every run and interleaving each stored string, set and sorted set is what the commands of the run wrote under its key, with the deadline they gave it |
| StoredValues.NewStoreReads | internal/storage/string_value.go:32-60 | so in every run of a new store GET answers the text last written under a live key, SISMEMBER what was added and not removed, ZSCORE the score last given |
| StoredValues.NewStoreIncr | internal/storage/string_value.go:154-190 | and INCR answers the integer after the one that the commands of the run left there, in a text that parses to it |
| LookCounts.LookVisits | internal/storage/string_value.go:41-46 | a look comes back later exactly for a record whose time is over, TTL also at the very end of it, and a GET then owes a miss |
| LookCounts.RunLooks | internal/storage/string_value.go:32-60 | over every interleaving the hits are the GETs that found a text and the misses those that found none, each counted once, but for the readers still to come back |
| LookCounts.NewStoreLooks | internal/storage/stats.go:19-42 | so in a new store hits, misses and waiting readers add up to the GETs of the run |
| Interleavings.RunKeeps | internal/storage/string_value.go:32-60 | over every interleaving of commands, split readers and late upgrades, at any clock, at every moment: expiry removes only keys that are stale then; every live key that goes is deleted or emptied by the command at work or evicted over the limits; and the limits hold |
| Interleavings.RunBalances | internal/storage/stats.go:122-126 | at every moment: keys ever inserted = stored + expired + evicted + deleted + emptied, and the tracked keys are the stored keys |
| Interleavings.NewStoreRuns | internal/storage/store.go:91-101 | in particular in every run of a new store |
| Interleavings.LateUpgradeSafe | internal/storage/string_value.go:199-206 | an upgrade that comes late removes no live record, even one written after the reader looked |
| SharedStores.SharedStore.Look | internal/storage/string_value.go:32-60 | the read-locked half of GET, TTL, EXISTS, SISMEMBER and SMEMBERS on the mutable store: a stale record is answered as absent and left for an upgrade |
| SharedStores.SharedStore.Play | internal/storage/string_value.go:199-206 | whole commands, looks and late upgrades on the mutable store are moves of the interleaving machine |
| SharedStores.SharedStore.PlayAll | internal/storage/stats.go:71-75 | over every interleaved run the answers are those of the machine, and at every moment used memory is the sum of the record sizes |
| LiveViews.AlikeEffect | internal/storage/string_value.go:192-206 | two stores with the same live records answer every command alike, but for DELETE counts, and go on having the same live records |
| LazyExpiry.LazyExpiryInvisible | internal/storage/string_value.go:192-206 | with no limits and a clock that never goes back, every answer of every interleaved run is that of a store sweeping before each command, except the counts of DELETE and of a deleting EXPIRE |
| LazyExpiry.NewStoreInvisible | internal/storage/store.go:91-101 | in particular for every run of a new store |
| LazyExpiry.DeleteCounts | internal/storage/string_value.go:116-130 | DELETE answers how many different listed keys have a record |
| LazyExpiry.DeleteTells | internal/storage/string_value.go:116-130 | the DELETE count exceeds the swept store's by the number of listed stale keys, so they agree if and only if none is stale |
| LazyExpiry.ExpireTells | internal/storage/string_value.go:62-65 | a deleting EXPIRE answers as on a swept store if and only if its key is not stale |
| StoredSketches.RunGenuine | internal/storage/count_min_sketch.go:93-221 | over every run and interleaving each stored sketch counts, cell by cell, exactly what the commands of the run added to it since it was made, merges included, and each stored filter holds exactly the items they added |
| StoredSketches.NewStoreEstimates | internal/storage/count_min_sketch.go:238-245 | so in every run of a new store an estimate lies between the amount really added for the item and the amount added for all, and an added item is found in its filter |
| StoredSketches.IncrOverflowByCount | internal/storage/count_min_sketch.go:104-112 | on such a store CMS.INCRBY overflows if and only if the running count would |
| StoredSketches.MergeOverflowByCount | internal/storage/count_min_sketch.go:177-201 | and a merge of equal-sized sources overflows if and only if the weighted sum of their counts does |
| WorkerPools.StepKeeps | internal/server/pool.go:24-61 | every channel operation keeps the pool's invariant |
| WorkerPools.AnyRun | internal/server/pool.go:24-88 | after every interleaving each accepted job is in exactly one place (queued, held, running, ending, finished), jobs are taken in order of acceptance, and no worker serves more than its slots |
| WorkerPools.UnfinishedBound | internal/server/pool.go:63-88 | unfinished accepted jobs <= queueSize + workers * (connectionsPerWorker + 1) |
| WorkerPools.AnyRunBounded | internal/server/pool.go:63-88 | the same after every interleaving |
| WorkerPools.AnyRunDrains | internal/server/pool.go:24-61 | after every interleaving a returned worker means a closed and drained queue and its own jobs finished, and once all have returned the finished jobs are exactly the accepted ones |
| WorkerPools.ReturnedMeansDone | internal/server/pool.go:24-47 | a worker's loop has returned only if the queue is closed and drained and every job it took is finished |
| WorkerPools.AllReturnedMeansAllDone | internal/server/pool.go:24-61 | once all workers have returned, the finished jobs are exactly the accepted ones |
| WorkerPools.ClosedPoolMovesOn | internal/server/pool.go:24-47 | with at least one slot a worker, a closed pool with a worker that has not returned can always take a step |
| WorkerPools.ClosedPoolEnds | internal/server/pool.go:24-47 | after closing only boundedly many steps remain, in whatever order |
| WorkerPools.NoSlotsNoService | internal/server/pool.go:27 | without slots no job is ever finished |
| WorkerPools.WorkerPool.constructor | internal/server/pool.go:63-88 | the worker loop builds an empty pool of the given size |
| WorkerPools.WorkerPool.Submit | internal/server/pool.go:55-57 | a job joins the queue |
| WorkerPools.WorkerPool.Receive | internal/server/pool.go:25 | a worker takes the oldest job, or leaves its loop once the queue is closed and empty |
| WorkerPools.WorkerPool.AcquireSlot | internal/server/pool.go:27-43 | the job in hand takes a slot and its handler starts |
| WorkerPools.WorkerPool.ReleaseSlot | internal/server/pool.go:32-34 | a returned handler gives its slot back |
| WorkerPools.WorkerPool.TellDone | internal/server/pool.go:31 | and only then tells the wait group |
| WorkerPools.WorkerPool.CloseQueue | internal/server/pool.go:59-61 | no job is accepted any more |
| WorkerPools.WorkerPool.WaitOver | internal/server/pool.go:46 | the worker returns with its jobs finished |

## Left out

- IndexedStores.IndexedStore.ZAdd: a key leads to its index object in a map of its own, and the record carries a copy of
  the scores that every command keeps equal to the index; in Go the record points at the index. An index whose key is
  gone stays in that map, unused.
- Sets, sketches and filters inside the store are values that are read, changed and written back; aliasing of
  container objects is not modelled.
- Array and slice capacity: items, keys, children, counters and the skip list's fixed next array are sequences
  assigned in place; Go's append and copy on shared backing arrays are not modelled.
- The recency list is a sequence of nodes with a map into it; the pointers of container/list are not part of
  this model.
- Policies.Policy.Victim: a policy that is not exact may pick any tracked key; that LFU picks the least
  frequent of its sample, and random choice, are not stated.
- A logarithmic height of the B+ tree: deletion never rebalances, so none holds; uniform leaf depth does.
- Scores are finite reals with two infinities; NaN is rejected before the store (internal/protocol/command_zadd.go:19)
  and negative zero is zero.
- The sizes of Count-Min sketches and Bloom filters computed in floating point, the accuracy these give, and FNV-1a:
  sizes are parameters and the hash is any function.
- Upper-casing of command names is ASCII only.
- `nextPos + length + 2` and all lengths and counters other than uint64 sketch counters and INCR are mathematical
  integers; allocation limits and overflow of time.Duration are not modelled.
- The clock is read once per operation; `TTL` and the two checks of an upgraded read are separate events in
  `Interleavings`.
- Stats, INFO and per-command handlers: arity checks and formatting. Of a handler only its failure is modelled, as a
  function of how many commands the connection has dispatched.
- The text protocol, sockets, epoll, accept loops, flags, signals and shutdown drain.
- Go's mutex, atomic and channel implementation: a region under the lock and a channel operation are one step each.
- Submitting to a closed pool panics in Go; it is not a step of the machine.
