# Verified models of kappai

kappai is an inference engine for language models in C. The numeric kernels are not the subject here. This project
models the control-heavy parts around them in Dafny and proves what they are for. All line numbers refer to the C files.

**Byte-pair encoding** (`BpeSpec`, `BpeHeap`, `BpeMerge`, `BpeEncode`). `BpeSpec.NaiveMerge` is the textbook rule: merge
the lowest-ranked adjacent pair, the leftmost on ties, until no pair is ranked. The program's loop works on linked array
slots with a binary heap whose entries are never updated, only recognised as out of date when popped. The class
`BpeState` keeps those arrays. Its ghost field `chain` is the list of live pieces, `heap` the multiset of candidates.
The invariant says that every ranked pair has an up-to-date entry, so the least entry, if it is up to date, is the pair
the textbook rule merges next. The pair rank is an arbitrary function of the hash and the two byte strings.

**The tokenizer around it** (`Utf8`, `ByteCodec`, `Pretokens`, `PretokenRules`, `Specials`, `SpecialIndex`,
`ProbeTable`, `Tokenizer`, `TextParts`, `ByteTokens`, `TokenizerState`). The UTF-8 codec, the byte alphabet, the two
pretokenizers, the special-token index, the open-addressing tables and the chunk cache are each proved against a plain
definition; for the pretokenizers this is an ordered list of rules with maximal runs, the first that matches deciding.
`TextParts` says what the ids of a text are by relations alone: special tokens cut it into chunks, the rules of the
model cut these into parts, and each part is encoded. `ByteTokens` follows a character without a token into the tokens
of its bytes. Together they give the round trip: decoding what encoding made of a text gives the text back.

**Thread pool** (`PoolModel`, `PoolInvariant`, `PoolKeep`, `PoolRuns`, `PoolPublish`, `PoolSteps`, `PoolProgress`,
`PoolTheorems`, `PoolCalls`, `PoolGuide`, `PoolFairness`). A state machine of one publisher and any number of workers,
one atomic access, lock operation or chunk run per turn, under sequential consistency and with unbounded epochs.
`Execute` runs any schedule of turns, including weak exchanges that fail and condition waits that wake for no reason.
`PoolTheorems` holds what is safe, `PoolCalls` what this means for the calls of a schedule, `PoolGuide` how their items
are shared out, and `PoolFairness` what every fair schedule comes to: each turn changes nothing or lowers a measure.

**Sessions** (`KvRows`, `ReusePlan`, `Session`, `DecodeLoop`). A cached row is idealised as the token it was computed
from and the position it is rotated to. A new prompt is matched against the fed tokens, matching runs are moved in
place, the rest is fed again, and the decode loop feeds tokens speculatively and takes them back. What a backend answers
is nondeterministic, and a failing pass may leave anything in the rows it was to write; ghost counters say that nothing
fails unless a backend did, and how many rows were computed. Every backend there is loads all chunks of a shift before
it stores any (`ShiftStaged`); `InOrderIsSnapshot` shows that the order of a plan would also let one move them one after
the other.

**Tool-call scanner** (`Markers`, `ToolScan`, `ToolCuts`, `ToolParts`, `ToolScanner`). The scanner remembers what it has
searched and holds back text that may begin a marker. It is proved to end with the content and calls of scanning the
whole stream at once. `ToolParts` says what these are: a text has one sequence of parts up to its stop marker, plain
text and blocks, and the calls of a block are the longest chain of parses. Independence of the cuts does not hold for
every pair of markers: `ToolCuts.SafeExactly` shows that the cut does not matter if and only if an open marker inside
the stop marker begins or ends it and a stop marker inside the open marker ends it, for formats whose close marker is
not part of their open marker. All registered formats are of this kind (`ToolCuts.RegisteredSafe`).

**PNG writer** (`Crc`, `Zlib`, `Png`). The table CRC and the deferred Adler-32 equal their bitwise and bytewise
definitions, and a decoder written after RFC 2083, RFC 1950 and RFC 1951 gets the image back exactly when a caller's
width, height and channels are such that a PNG file can express them.

**Selection and loading** (`TopK`, `Cuts`, `SparseLoad`, `SparseProgress`, `KvReplicas`). The top-k heap and the prefix
cuts of the sampler; the aligned pieces tensors are read in, and the workers that read them; and the KV cache spread
over devices, with its writes and its shift.

`Bytes` holds byte strings and FNV-1a, `Heaps` what the two binary heaps have in common.

## Model

| member | source | states |
|---|---|---|
| BpeMerge.BpeState.MergeLoop | src/tokenizer.c:801-862 | the heap with stale entries leaves exactly the pieces of the textbook rule, terminates, and ends with an empty heap |
| BpeMerge.BpeState.MergeStep | src/tokenizer.c:801-813 | one popped entry changes nothing about the final result, and either a merge happens or one stale entry less is left |
| BpeMerge.BpeState.Requeue | src/tokenizer.c:808-813 | a pair whose rank changed goes back under its present rank; every ranked pair stays covered and the stale entries decrease |
| BpeMerge.BpeState.MergeAtNode | src/tokenizer.c:814-861 | merging a slot with its right neighbour is merging that pair of the list, and the pairs it touches are offered again; the heap stays below twice the pieces |
| BpeMerge.BpeState.Unlink | src/tokenizer.c:845-850 | the links are those of the list without the merged slot |
| BpeMerge.BpeState.HeapPush | src/tokenizer.c:602-615 | the heap order is kept and exactly the new entry is added, within the arrays |
| BpeMerge.BpeState.HeapPop | src/tokenizer.c:617-639 | the least entry by rank, then slot, comes out, and exactly it |
| BpeMerge.BpeState.Seed | src/tokenizer.c:790-794 | every ranked adjacent pair gets an up-to-date entry |
| BpeMerge.BpeState.Collect | src/tokenizer.c:864-875 | the ids of the live pieces in text order, or failure exactly when they do not fit |
| BpeSpec.NaiveMergeStep | src/tokenizer.c:801-813 | the pair to merge next is unique, so any way of finding it gives the same result |
| BpeSpec.MergePreservesText | src/tokenizer.c:835-843 | merging adds, drops and reorders no byte, and every cached hash stays FNV-1a of its piece |
| BpeSpec.MergeReachesFixpoint | src/tokenizer.c:801-862 | merging stops only when no adjacent pair is ranked |
| BpeSpec.PairRankOfTexts | src/tokenizer.c:578-588 | with cached hashes the rank of a pair depends on its two byte strings alone, and a locked piece has none |
| BpeEncode.EncodeUncached | src/tokenizer.c:685-875 | status and ids are those of splitting the text and merging by the textbook rule |
| BpeEncode.SplitKeepsText | src/tokenizer.c:701-760 | the starting pieces spell the text, carry the right hashes, and are at most as many as its bytes |
| BpeEncode.EncodedSpellsText | src/tokenizer.c:685-875 | the pieces behind the ids spell the input |
| ByteTokens.CodePointFirst | src/tokenizer.c:701-760 | a text that begins with a code point is split behind it |
| ByteTokens.FirstCharacter | src/tokenizer.c:701-760 | a text is split behind the bytes its first one announces, or behind that byte if they are not there |
| ByteTokens.KnownCharacter | src/tokenizer.c:701-717 | a character with a token is that token; without one, and without byte tokens, it is the unknown token |
| ByteTokens.CharacterOfBytes | src/tokenizer.c:719-747 | in a sentencepiece vocabulary the ids of a character without a token decode to exactly its bytes |
| ByteTokens.CharacterOfByte | src/tokenizer.c:719-747 | in a byte-level vocabulary the id of a byte's character without a token decodes to that byte |
| ByteTokens.CharacterOfFirstByte | src/tokenizer.c:719-747 | any other character without a token becomes, as a whole, the token of its first byte |
| Bytes.FnvConcat | src/common.h:255-261 | continuing a hash over a second part is hashing both parts together |
| Utf8.CpRoundTrip | src/tokenizer.c:104-157 | decoding reads back the encoded code point, whatever follows |
| Utf8.EncodedForm | src/tokenizer.c:104-130 | as few bytes as the code point allows, of the form and payload of section 3 of RFC 3629 |
| ByteCodec.AlphabetRoundTrip | src/tokenizer.c:31-76 | the alphabet's two tables are inverse to each other |
| ByteCodec.AlphabetInOrder | src/tokenizer.c:31-76 | printable bytes stand for themselves, the others take the code points from 256 on in order |
| ByteCodec.EncodeBytes | src/tokenizer.c:175-210 | the loop with copied runs gives the byte-by-byte encoding |
| ByteCodec.DecodeEncode | src/tokenizer.c:161-210 | decoding undoes encoding for every byte string |
| ByteCodec.DecodeOther | src/tokenizer.c:1073-1087 | a character outside the alphabet is copied as it is |
| ByteCodec.DecodeLoop | src/tokenizer.c:1073-1087 | the loop over a token's text gives the decoded bytes |
| Pretokens.NextPlain | src/tokenizer.c:326-432 | the loops end where the code's own ordered rules say, and its last resort is never needed |
| Pretokens.NextUnicode | src/tokenizer.c:450-569 | the same for the code-point rules with bounded digit runs |
| PretokenRules.PlainExactly | src/tokenizer.c:326-432 | that end is the one the first matching rule allows: suffix, spaced digits, a word behind at most one other byte, digits, symbols, blank lines, whitespace |
| PretokenRules.UnicodeExactly | src/tokenizer.c:450-569 | the same for the rules by code point |
| PretokenRules.RuleEndIs | src/tokenizer.c:326-569 | each rule, stated over maximal runs, allows exactly one end or none |
| Pretokens.NewlineEndIs | src/tokenizer.c:529-553 | the whitespace rule ends exactly behind the run's last newline |
| Pretokens.PretokensPartition | src/tokenizer.c:971-994 | pretokens are non-empty and put together are the text |
| TextParts.PartsExactly | src/tokenizer.c:971-994 | the ids of a chunk are the encodings of consecutive parts, each of which the first matching rule takes: the code-point rules if the model has them, else the plain ones |
| TextParts.TextExactly | src/tokenizer.c:1460-1507 | the ids of a text are those of the parts up to the next special token, the token, and so on |
| Specials.NextSpecialIs | src/tokenizer.c:1010-1046 | what the brute-force search finds is leftmost, there longest, and of the lowest id on ties |
| Specials.FirstMatchIsBest | src/tokenizer.c:1031-1042 | in a bucket sorted by descending length the first match is the best one |
| SpecialIndex.Index.FindNext | src/tokenizer.c:1010-1046 | the indexed search finds exactly what the brute-force search finds |
| SpecialIndex.Index.TryAt | src/tokenizer.c:1031-1042 | trying one bucket in order gives the best token at a place |
| SpecialIndex.Distribute | src/tokenizer.c:1336-1351 | the counting sort puts every token into the range of its first byte, in order |
| SpecialIndex.SortBucket | src/tokenizer.c:1352-1369 | the in-place insertion sort of a bucket is the stable sort by descending length, and touches nothing else |
| ProbeTable.PutKeepsPlaced | src/tokenizer.c:249-261 | a key put where its search ended leaves every key within reach of its own search |
| ProbeTable.SearchEnds | src/tokenizer.c:296-306 | with a free slot left every search ends |
| ProbeTable.LookupFinds | src/gguf.c:840-850 | a search ends at the key exactly when the key is stored |
| ProbeTable.BuildIndex | src/gguf.c:852-880 | the table holds exactly the listed keys, each with its first place, and keeps a free slot |
| ProbeTable.FindIndex | src/gguf.c:840-850 | the first occurrence a linear scan would find, or -1 |
| ProbeTable.FindPair | src/tokenizer.c:312-324 | the same for two parts, without putting them together |
| ProbeTable.ProbeOnce | src/tokenizer.c:652-678 | probing once around ends where the search is defined to end, or reports a full table |
| TokenizerState.Encoder.BpeEncode | src/tokenizer.c:877-922 | with any cache the answer is that of the uncached encoder, and the cache stays sound |
| TokenizerState.Encoder.EncodeChunk | src/tokenizer.c:971-994 | the encodings of consecutive parts, each taken by the first matching rule of the model, are added in order, or failure exactly when they do not fit |
| TokenizerState.Encoder.EncodeWithSpecials | src/tokenizer.c:1460-1507 | the ids of these parts and of the special tokens between them in order, with the optional first and last, or failure exactly when they do not fit |
| TokenizerState.Encoder.Decode | src/tokenizer.c:1509-1532 | the bytes of all known ids, or failure exactly when they and a terminator do not fit |
| Tokenizer.PretokenRoundTrip | src/tokenizer.c:685-875 | encoding a pretoken in the byte alphabet and decoding its ids gives it back |
| Tokenizer.RoundTrip | src/tokenizer.c:1460-1532 | decoding what encoding made of any text gives the text back |
| TokenizerState.EncodeThenDecode | src/tokenizer.c:1460-1532 | the same for the two loops, given room |
| PoolInvariant.InitInv | src/threadpool.c:276-284 | a pool that was just made satisfies the invariant |
| PoolSteps.ActKeeps | src/threadpool.c:151-306 | every turn of every thread keeps the invariant |
| PoolSteps.ExecuteKeeps | src/threadpool.c:443-506 | so does every schedule, over any sequence of jobs |
| PoolCalls.ExactlyOnce | src/threadpool.c:443-506 | over any schedule, each item of a call that has returned was run exactly once, with the call's function and context, and nothing else was run for it |
| PoolCalls.JobsAreCalls | src/threadpool.c:443-480 | the jobs are, one for one and in order, the calls an idle publisher was given work for two threads by, with all their items |
| PoolTheorems.JobRanOnce | src/threadpool.c:235-274 | each item of a returned job was run in exactly one finished run, with the job's function and context |
| PoolGuide.GuidedRuns | src/threadpool.c:244-266 | each run is made by a thread the job has room for, and is its share of what was left: a quarter of it divided by the threads, but no less than a chunk |
| PoolTheorems.NeverTwice | src/threadpool.c:248-267 | at no time do two runs of a job share an item, nor does a run use another job's function or context |
| PoolTheorems.ReturnsWhenDone | src/threadpool.c:499-506 | a call returns only when everything is counted and no thread is inside a chunk |
| PoolTheorems.ReturnedIsFinal | src/threadpool.c:443-506 | nothing is added to or changed in the runs of a job whose call has returned |
| PoolTheorems.LateWorkerClaimsNothing | src/threadpool.c:290-304 | a worker late from an older epoch claims and counts nothing, whatever it does |
| PoolTheorems.ClaimsAreCurrent | src/threadpool.c:249-266 | an exchange that would succeed is on the newest job, with its own locals, while its call waits |
| PoolTheorems.NoLostWakeUp | src/threadpool.c:174-188 | a worker asleep with a new epoch out is about to be woken by a broadcast that does wake it |
| PoolTheorems.NoLostCompletion | src/threadpool.c:200-233 | a publisher asleep with everything counted has a counter on its way to the broadcast; otherwise a worker is busy |
| PoolProgress.SomebodyDescends | src/threadpool.c:151-306 | while a call is in progress some thread has a turn that lowers the measure |
| PoolTheorems.EveryCallCanReturn | src/threadpool.c:443-506 | from every reachable state, a schedule without spurious wake-ups lets every call return |
| PoolFairness.AnyTurnDescends | src/threadpool.c:151-306 | while a call is in progress, every turn without a spurious event changes nothing or lowers the measure, whoever takes it |
| PoolFairness.FairSchedulesReturn | src/threadpool.c:443-506 | every schedule in which each thread keeps getting turns, and spurious wake-ups and exchange failures end at some time, lets every call return |
| KvRows.InOrderIsSnapshot | src/context.c:750-768 | the moves of a plan, made in order and in place, are all of them made from a snapshot |
| KvRows.SnapshotRow | src/kvcache.c:808-840 | where a shift leaves each row: carried into a target and rotated by the distance, or as it was |
| KvRows.UntouchedBelow | src/context.c:750-768 | a shift touches no row below its first target |
| KvRows.ShiftStaged | src/backend/cpu/common.c:1714-1776 | refused exactly when a chunk enters the window from below; otherwise loading all chunks and then storing them moves them from a snapshot inside the window and changes nothing below it |
| ReusePlan.MatchRunExact | src/context.c:736-739 | a run has equal tokens on both sides, leaves the last prompt token out, and cannot be longer |
| ReusePlan.PlanTiles | src/context.c:730-748 | a plan tiles the prompt from the reuse point on, from sources further up that follow one another, with equal tokens |
| ReusePlan.PlanGreedy | src/context.c:740-743 | every place the plan passes over starts too short a run |
| ReusePlan.GreedyExactly | src/context.c:730-748 | the plan is the only one that takes the first place long enough a run starts from, as long as it goes, and so on, up to its limit of chunks |
| ReusePlan.BuildPlan | src/context.c:730-748 | the loop builds that plan |
| ReusePlan.MovedRows | src/context.c:750-768 | after the moves each chunk's target holds the prompt's rows and nothing below the reuse point has changed |
| Sessions.Session.Rewind | src/context.c:719-728 | tokens and position are cut back together, never past what is held |
| Sessions.Session.FeedTokensBatch | src/context.c:941-1021 | all tokens are noted with their rows, or exactly the batches that went through; it fails only without room or after a backend has |
| Sessions.Session.FeedToken | src/context.c:830-850 | one token is computed and noted, or nothing is |
| Sessions.Session.FeedReg | src/context.c:852-868 | a register's token has its row and is not noted yet |
| Sessions.Session.MoveReusable | src/context.c:781-785 | the rows of the plan it returns are in place, also when the shift failed, and part of the prompt is left to feed; the plan is the greedy one unless the backend failed |
| Sessions.Session.ReusePrefix | src/context.c:770-788 | the session is cut back to the longest common prefix, less one token exactly when the prompt is a non-empty proper prefix of what was fed, and the plan behind it is the greedy one whenever rows can be shifted and the shift went through |
| Sessions.Session.PrefillWithPlan | src/context.c:790-820 | on success the session holds the prompt, and what was fed is what was not reused |
| Sessions.Session.PrefillPrompt | src/context.c:822-828 | on success row `p` holds token `p` of the prompt at position `p`, for all of it, and what was computed is the prompt less the common prefix and the rows moved; on failure a prefix is held, and there was no room or a backend has failed |
| DecodeLoop.PickAhead | src/context.c:1259-1284 | a token fed from a register is one row ahead of the notes; every other outcome leaves the session as it was |
| DecodeLoop.TakeTurn | src/context.c:1243-1364 | a turn notes the token it reports, or flags it as not fed, or ends with the session as it was or poisoned |
| DecodeLoop.Decode | src/context.c:1223-1368 | the session holds what it held and the reported tokens, minus the last exactly when flagged; these are the tokens picked, up to an end token; without one, a failure, an interrupt or a limit there are as many as asked for; it ends without a limit |
| DecodeLoop.Generate | src/context.c:1481-1540 | prompt and reported tokens are held together, unless poisoned |
| Markers.FindMarker | src/common.c:179-200 | the search from a place on gives the first place the marker stands at |
| Markers.MarkerTailLen | src/common.c:227-238 | the longest proper beginning of the marker the text ends with |
| Markers.BeforeTail | src/toolcall.c:890-896 | no continuation of the text completes a marker begun before the tail that is held back |
| ToolScan.SettlePush | src/toolcall.c:767-953 | settling before more text arrives changes neither the end of the scan nor the number of markers |
| ToolScan.ScanAllIsOneShot | src/toolcall.c:960-971 | scanning piece by piece is scanning the whole stream |
| ToolScan.CuttingDoesNotMatter | src/toolcall.c:960-1018 | two ways of cutting a stream end with the same content and calls, for all formats that are safe to cut |
| ToolParts.ChainExactly | src/toolcall.c:907-937 | the calls of a block are the longest chain of parses: one of a whole call, then continuations, each from where the one before has ended, past commas and whitespace |
| ToolParts.ReadsExactly | src/toolcall.c:849-953 | a text has exactly one sequence of parts: plain text up to its first marker, the block up to the close marker, and so on up to the stop marker |
| ToolParts.ScanReads | src/toolcall.c:849-1018 | scanning a text ends with the content of its parts and the calls of its blocks; the parts are the text up to the stop marker, byte for byte |
| ToolCuts.SafeExactly | src/toolcall.c:849-891 | no cut of any stream matters if and only if the markers overlap at most in the harmless ways |
| ToolCuts.RegisteredSafe | src/markers.c:5-19 | no cut of any stream matters to a registered tool-call format with an open marker |
| ToolScanner.Scanner.Advance | src/toolcall.c:849-953 | the loop deals with the pending markers, up to the guard, although it searches from remembered places |
| ToolScanner.Scanner.Feed | src/toolcall.c:960-971 | a piece is appended and settled |
| ToolScanner.Scanner.End | src/toolcall.c:973-1018 | a call cut short is salvaged if it parses and is content otherwise |
| ToolScanner.ScanStream | src/toolcall.c:960-1018 | however it is cut, a stream ends with the one-shot content and calls: up to the stop marker every byte is content, in order, or lies in a block that gave calls, and the calls are those of the blocks |
| Crc.TableStep | src/diffusion/png.c:19-23 | one table step is eight bit steps |
| Crc.MakeTable | src/diffusion/png.c:10-17 | each entry is its index after eight rounds |
| Crc.TableUpdate | src/diffusion/png.c:19-23 | the table loop is the bit-by-bit CRC of section 3.4 of RFC 2083 |
| Crc.LastChecksum | src/diffusion/png.c:10-42 | the CRC of the last chunk of every PNG file is the published one |
| Zlib.SumChunk | src/diffusion/png.c:49-56 | 5552 bytes without a reduction never wrap 32 bits |
| Zlib.Adler | src/diffusion/png.c:47-61 | the deferred sums equal the per-byte definition in section 8.2 of RFC 1950 |
| Zlib.AdlerClosed | src/diffusion/png.c:47-61 | that definition is one more than the sum of the bytes, and the sum of all values of that, reduced once |
| Zlib.Be32RoundTrip | src/diffusion/png.c:25-30 | a 32-bit value is read back |
| Zlib.StreamFillsBuffer | src/diffusion/png.c:63-86 | the stream is as long as the buffer computed for it exactly when there is something to store |
| Zlib.MakeZlibStored | src/diffusion/png.c:63-86 | the loop writes header, blocks and checksum, and stays inside the computed buffer exactly when there is something to store |
| Zlib.ZlibRoundTrip | src/diffusion/png.c:63-86 | a decoder after RFC 1950 and RFC 1951 gets back what was stored |
| Png.WriteChunk | src/diffusion/png.c:32-42 | length, type, data and the CRC of type and data, most significant byte first |
| Png.FileFrame | src/diffusion/png.c:88-112 | every file begins with the signature and the header's chunk, and ends with the twelve bytes of the end chunk |
| Png.WritePng | src/diffusion/png.c:88-112 | the loops write the file that is decoded below, except for an image without rows, whose data outgrow their buffer |
| Png.StreamLength | src/diffusion/png.c:64-65 | the length of the image data follows from width, height and channels |
| Png.PngRoundTrip | src/diffusion/png.c:88-112 | a decoder gets the image back if and only if it has pixels, three or four channels, and at most 2^31 - 1 bytes of image data by its dimensions |
| Png.OversizeRefused | src/diffusion/png.c:32-36 | an image with more image data than that makes a file no decoder accepts |
| TopK.SiftDown | src/common.h:186-203 | a heap with one misplaced entry becomes a heap of the same pairs |
| TopK.Select | src/common.h:205-233 | `min(k, n)` distinct indices with their scores, no score left out above one selected; none for `k` below 1 |
| TopK.TopKHeap | src/sampler.c:142-177 | the same as a candidate list, for every `k` |
| TopK.TopKSorted | src/sampler.c:185-190 | and in descending order |
| Cuts.TopP | src/sampler.c:271-281 | the first prefix whose values exceed that part of the sum, or everything; never nothing |
| Cuts.TopPIsNucleus | src/sampler.c:271-281 | no smaller set of candidates exceeds that part of the sum |
| Cuts.MinP | src/sampler.c:283-291 | exactly the candidates with at least that part of the best value, but never none |
| SparseLoad.PiecesTile | src/gguf.c:1371-1394 | the pieces tile a tensor's file range without gap or overlap, each at its own place |
| SparseLoad.RoomSuffices | src/gguf.c:1402-1410 | a tensor never needs more pieces than were counted for it |
| SparseLoad.BuildChunks | src/gguf.c:1396-1429 | the table of all pieces never outgrows its precomputed size |
| SparseLoad.PiecesFit | src/gguf.c:1345-1355 | every piece stays inside its tensor's allocation |
| SparseLoad.StepKeeps | src/gguf.c:1165-1186 | without failures every piece handed out is delivered or in a worker's hands |
| SparseLoad.LoadedExactly | src/gguf.c:1396-1468 | after an error-free run of any schedule each tensor's data are exactly its bytes of the file |
| SparseProgress.FailsExactly | src/gguf.c:1165-1186 | a load has failed if and only if one of its reads has |
| SparseProgress.NoNewReads | src/gguf.c:1165-1186 | once a read has failed, only reads already begun go on |
| SparseProgress.EveryoneLeaves | src/gguf.c:1165-1186 | however the reads turn out, a worker that gets its turns leaves |
| SparseProgress.FairLoadsExactly | src/gguf.c:1396-1468 | whenever every worker gets its turns and no read fails, all leave and each tensor's data are exactly its bytes of the file |
| SparseProgress.EveryPieceAligned | src/gguf.c:1371-1394 | every piece is read at a multiple of the alignment, and marked for a plain read exactly when its length is none, which only a piece at the end of the file has |
| KvReplicas.SlotsApart | src/kvcache.c:384-389 | two layers of a device have different slots below its count |
| KvReplicas.KvCache.MapSlots | src/kvcache.c:361-382 | a device holds a slot exactly when one of its layers uses it; it fails only with too many devices |
| KvReplicas.KvCache.AllocAll | src/kvcache.c:407-525 | after success every device that holds slots has its table; a mirror without slots is an invalid argument, and any other failure is what a backend has answered |
| KvReplicas.KvCache.HeldSlots | src/kvcache.c:30-47 | a held layer is mapped, to a slot it shares with no other |
| KvReplicas.KvCache.AttentionFindsItsSlot | src/kvcache.c:49-53 | every layer attends to a mapped slot on its own device |
| KvReplicas.KvCache.PutDeviceRange | src/kvcache.c:643-671 | the rows arrive directly, batched or through the host, and nothing else changes on any device |
| KvReplicas.KvCache.Replicate | src/kvcache.c:710-742 | the rows reach a further device natively or by the fallback |
| KvReplicas.KvCache.PutRange | src/kvcache.c:690-744 | after success every device that holds the layer's slot has the rows, and so has the one the layer runs on; only these rows have changed; a failure is what a backend has answered |
| KvReplicas.KvCache.PutBatch | src/kvcache.c:842-852 | arguments out of range are refused and change nothing, any others fail only with what a backend has answered; after success all devices agree on the rows written and still agree wherever they did, but for rows of a layer that this one clobbers |
| KvReplicas.KvCache.OwnersClobberNothing | src/kvcache.c:361-382 | a layer with a slot of its own clobbers no other |
| KvReplicas.KvCache.ShiftLayer | src/kvcache.c:819-834 | every holder of a layer moves its rows, and no other layer's rows change on any device |
| KvReplicas.KvCache.ShiftAll | src/kvcache.c:808-840 | after success every holder of every cached layer has moved its rows, so devices that agreed still agree; whatever happens, nothing below the first target changes; it fails only for a layer without its rotation or with what a backend has answered |

## Left out

- Tokenizer.RoundTrip: holds for vocabularies with an entry or a byte token for every byte's character, ranked pairs that have an entry, and ASCII special tokens of their own; other vocabularies do not promise it. Sentencepiece vocabularies are not covered: a literal U+2581 in the text comes back as a space.
- BpeEncode.EncodeUncached: takes the pair rank as an arbitrary function. The merge table's own lookup compares only the leading bytes of the right part and is no exact-key lookup.
- ToolScanner.ScanStream: assumes that the stream holds no more markers than the loop's guard allows. Payload grammars are an arbitrary function that uses up at least a byte.
- ToolScanner.Scanner.Advance: for formats with an open marker. The one registered format without one takes its calls from JSON anywhere in the text, by a branch of its own (src/toolcall.c:772-848), and is not modelled.
- Png.PngRoundTrip: for dimensions of the program's `int` and image data whose length fits the 32 bits it is computed and written in; wrap-around of sizes above is not modelled. The decoder understands stored blocks and filter type 0 only.
- Png.WritePng: an image without rows has no result, since the stored stream is longer than its buffer, see `Zlib.StreamFillsBuffer`.
- TopK.Select: scores are reals, so no NaN.
- TopK.TopKSorted: the library sort is modelled as an insertion; the order among equal scores is not stated.
- Cuts.MinP: probabilities are reals; rounding is not modelled.
- KvReplicas.KvCache.PutRange: a device that is given rows for a slot beyond what it allocated is not covered; the backend stops there.
- KvReplicas.KvCache.PutBatch: one opaque value per row and position stands for keys and values, and every backend stores it in the same encoding.
- Sessions.Session.Shift: a session's rows are those of one device, and a failing shift may leave anything from the reuse point on. `KvReplicas.KvCache.ShiftAll` covers the devices; there, caches with a window are taken to hold every position.
- SparseLoad.LoadedExactly: reads deliver whole pieces or fail. Direct reads, the per-tensor counters and size overflow are not modelled.
- PoolFairness.FairSchedulesReturn: assumes that spurious wake-ups and exchange failures are finite in number; an exchange that always fails for no reason would never claim anything.
- Thread pool: weak memory, epoch wrap-around, spin budgets, statistics, thread creation and shutdown; calls without work for two threads, and other callers while a job is in progress, run their items themselves and are not modelled.
- Buffer growth and arenas of the tokenizer: arrays have the size the program reserves.
- Recurrent and hybrid state, MLA caches, the idle prefill thread and what becomes of a poisoned session.
- Stop sequences and the callbacks that stream content while a call is scanned.
- File and network access, memory mapping, logging, configuration and the chat templates.
