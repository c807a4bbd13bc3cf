# qx-mini-c: cache, row pool and formats, verified

A Dafny model of the parts of qx-mini-c whose correctness is hardest to see from
the code, with proofs about all inputs, all runs and all interleavings.
`dafny verify dfyconfig.toml` checks everything.

**Resident packed-expert cache** (`src/qx_expert_cache.c`). `ExpertCacheSpec` is the
cache as a function on values: the recency list as a sequence, the counters, the
allocator's live blocks, and the callbacks' answers as a parameter. `ExpertCache`
is the cache as it is built: linked nodes updated in place, with every method
proved to refine the specification. On top of the specification:
`ExpertCacheInvariant` (what every operation keeps), `ExpertCacheRuns` (borrows over
any run with any failures), `ExpertCacheEviction` (exactly what is evicted),
`ExpertCacheLedger` (counters against history), `ExpertCacheTraces` (refinement of plain
LRU, inclusion between budgets, working sets), `WorkingSetBudget` (the budget the
acceptance script derives) and `WorkingSetTraces` (why the keys the matrix product asks
for are then each read once and hit from there on).

**Row-worker pool** (`src/qx_row_pool.h`). `RowPool` is a transition system: one lock,
two wait sets, a program counter per thread, spurious wakes, callbacks interleaved
row by row. `RowPoolSafety` proves the inductive invariant and the serial result,
`RowPoolProgress` that no wakeup is lost and that every call ends, `RowPartition` that
the ranges tile the rows.

**GGUF.** `GgufFormat` and `GgufWriter` are the writer (`scripts/make_synthetic_gguf.py`),
`GgufWalk`, `GgufSummary` and `GgufReader` the C reader (`src/qx_gguf.c`), `GgufTable` its
tensor sizing, `TokenizerRead` and `TokenizerReader` the Python reader
(`scripts/export_qwen3_tokenizer.py`). `GgufRoundTrip`, `GgufKeys`, `GgufLayout` and
`TokenizerRoundTrip` connect writer and readers. `TokenizerPayload` is the QXT2 export,
`TokenizerLoad` the program's own loader (`src/qx_tokenizer.c`). `TokenizerSidecar` and
`TokenizerExact` prove that it loads exactly the sidecars of admissible vocabularies,
`TokenizerImage` that the exporter writes exactly those of them without a space in a
merge's left symbol. `TokenizerExport` is the whole way from a vocabulary into the
program, `Fnv` the checksum, `Utf8` the codec.

**Quantised dot product** (`scripts/q8k_activation_spike.py`). `Rounding` is rounding to
single and double precision; with every rounding the script makes, `Q8kNearest` is its
integer rounding, `Q8kScaling` the numbers of a block, `Q8kQuantize` the quantiser,
`Iq4Rounded` the integer dot and `Iq4Plain` the decoded dot. `Iq4Dot`, `Iq4Pack` and
`Iq4Bounds` are the reference in exact arithmetic: decoding, layout, and the distance
between the two dots. `Summation` is the error of rounded sums, `Iq4Range` what it makes
of the integer dot, and `Iq4Returns` puts everything together: a limit on the activation
under which both dots return and are close, and an activation beyond it that overflows.

**KV snapshots** (`scripts/kv_snapshot_replay.py`): `KvSnapshot`, `KvHeader`, `KvEntries`,
`KvAgreement`. **Command line** (`src/qx_qxf_main.c`): `RouteTrace`, `RouteDistinct`, `CliIds`,
`CliJson`. `Words`, `LittleEndian`, `Layouts`, `Floats`, `Bits`, `Division` and `Reorderings` are
shared vocabulary.

Loops that walk a file appear twice: as a method with a cursor, and as a function
from a position to the position after (`Pos`/`Next`) or an error, which the method is
proved to compute and the round trips are about. Layouts (`Layout`) list fields in
order; a list of records is encoded front to back, as the writer's loop does it.
Several proofs begin with a `hide` statement, which only keeps definitions the proof
does not need away from the solver.

What the code does beyond its documentation: the cache header asks callers to
release a borrow before the next acquire, but the code supports several at once,
and `ExpertCacheRuns` proves it does. The bound check at `src/qx_gguf.c:330` can wrap
around, yet never changes the verdict. In `route_trace` a layer and token can get the
same expert twice, for two causes: 17 divides the expert count and more than a
seventeenth of the experts are asked for, or the 32-bit sum wraps around between two
choices and the count divides their distance across the wrap-around; `RouteDistinct` has
an input for each and the exact condition. `nearest_int` rounds twice, so that 0.5 + 2^-40
becomes 0; on the single-precision values it is given it rounds to nearest, and
`Q8kNearest` says exactly when it does on any. The quantiser raises an OverflowError on
a finite block whose largest magnitude is not 0 but below about 3.7e-37, and the dots do
on activations that are too large. The program loads tokenizer sidecars with a space in
a merge's left symbol, which the exporter cannot write.

## Model

| member | source | states |
|---|---|---|
| ExpertCache.Cache.constructor | src/qx_expert_cache.c:78-90 | a fresh cache is sound and empty; a zero budget leaves it uninitialised |
| ExpertCache.Cache.Unlink | src/qx_expert_cache.c:38-46 | the pointers still spell one acyclic sequence, now without the unlinked entry, whose own links are cleared |
| ExpertCache.Cache.AppendMru | src/qx_expert_cache.c:48-55 | the pointers spell the old sequence with the entry last |
| ExpertCache.Cache.Promote | src/qx_expert_cache.c:57-62 | exactly one element moves to the end, everything else keeps its order |
| ExpertCache.Cache.FreeEntry | src/qx_expert_cache.c:64-68 | both blocks are live when freed, and only they go |
| ExpertCache.Cache.Evict | src/qx_expert_cache.c:70-76 | on the heap an eviction does what the value model's eviction does: list, counters, blocks, frees |
| ExpertCache.Cache.FindVictim | src/qx_expert_cache.c:145-146 | the pointer walk stops at the least recently used unpinned entry, or at NULL when there is none |
| ExpertCache.Cache.MakeRoom | src/qx_expert_cache.c:144-152 | the eviction loop keeps every invariant, ends, and has the effect and the error of the value model |
| ExpertCache.Cache.FindKey | src/qx_expert_cache.c:115-116 | the pointer walk finds the first entry with the key, or NULL when no entry has it |
| ExpertCache.Cache.Hit | src/qx_expert_cache.c:116-133 | the whole new state and the borrow of a hit, overflow guards included; key and data of every entry stay |
| ExpertCache.Cache.Read | src/qx_expert_cache.c:163-182 | which of the read's failures is reported, what has been counted by then, and that both blocks go back |
| ExpertCache.Cache.Allocate | src/qx_expert_cache.c:154-161 | both blocks or neither: what is allocated and given back, and which failure is reported |
| ExpertCache.Cache.Load | src/qx_expert_cache.c:154-182 | on every failure path the allocator is where it was; on success two new blocks hold metadata and slice |
| ExpertCache.Cache.Link | src/qx_expert_cache.c:184-186 | the new entry is pinned once and is the most recently used |
| ExpertCache.Cache.Admit | src/qx_expert_cache.c:154-195 | allocation, read and linking together refine the value model, with its errors |
| ExpertCache.Cache.Miss | src/qx_expert_cache.c:137-195 | the whole miss path refines the value model, evictions before a later failure included |
| ExpertCache.Cache.Acquire | src/qx_expert_cache.c:92-196 | acquire keeps every invariant and refines the value model on every path |
| ExpertCache.Cache.Release | src/qx_expert_cache.c:198-211 | release takes one pin off the borrowed entry if it is still linked and pinned, and clears the borrow unless another cache owns it |
| ExpertCache.Cache.Snapshot | src/qx_expert_cache.c:213-218 | the counters, or zeros before initialisation and after destroy |
| ExpertCache.Cache.Destroy | src/qx_expert_cache.c:220-230 | every linked entry is freed exactly once by the pointer walk and the cache is zeroed |
| ExpertCacheInvariant.EvictKeeps | src/qx_expert_cache.c:70-76 | eviction never takes the resident count below zero and keeps keys distinct, blocks owned and counters balanced |
| ExpertCacheInvariant.EvictionGuardIsDead | src/qx_expert_cache.c:149-150 | the eviction-counter overflow cannot happen while anything is resident |
| ExpertCacheInvariant.MakeRoomKeeps | src/qx_expert_cache.c:144-152 | making room keeps the invariant, fails only because of pins, and otherwise leaves enough room |
| ExpertCacheInvariant.AcquireKeeps | src/qx_expert_cache.c:92-196 | every acquire, failed or not, keeps distinct keys, resident bytes = sum of sizes <= budget, owned blocks and the counter balances |
| ExpertCacheInvariant.ReleaseKeeps | src/qx_expert_cache.c:198-211 | releasing anything at any time keeps the invariant |
| ExpertCacheInvariant.TwoBlocksPerEntry | src/qx_expert_cache.c:154-157 | entries share no block: n entries own 2n addresses |
| ExpertCacheInvariant.DestroyFreesAll | src/qx_expert_cache.c:198-230 | after destroy frees equal successful allocations and no block is live; later releases and destroys change nothing |
| ExpertCacheRuns.MakeRoomStep | src/qx_expert_cache.c:144-152 | no eviction touches an entry that a borrow points into |
| ExpertCacheRuns.StepKeeps | src/qx_expert_cache.h:58-63 | any acquire or matching release, in any order and with any callback failures, keeps pins equal to outstanding borrows and every resident slice equal to the source |
| ExpertCacheRuns.StartIsSound | src/qx_expert_cache.c:78-90 | the run invariant holds of a fresh cache |
| ExpertCacheRuns.BorrowsReadTheSource | src/qx_expert_cache.h:58-63 | transparency and lifetime: at every point of every run each outstanding borrow points at a live block holding exactly its slice of the source, and the pins sum to the borrows |
| ExpertCacheEviction.SurvivorsDrop | src/qx_expert_cache.c:144-152 | the survivors of k evictions have lost exactly the k least recently used unpinned entries |
| ExpertCacheEviction.SurvivorsKeepTheRest | src/qx_expert_cache.c:144-152 | survivors and evicted together are the old entries, none lost or duplicated |
| ExpertCacheEviction.MakeRoomExact | src/qx_expert_cache.c:144-152 | the loop evicts the shortest prefix of the unpinned entries that makes room, or all of them and fails when none is enough |
| ExpertCacheEviction.MissEvictsExactly | src/qx_expert_cache.c:137-195 | a miss leaves exactly the survivors of the necessary evictions, in order, plus the new entry when the load succeeds |
| ExpertCacheLedger.StepCounts | src/qx_expert_cache.c:116-190 | what one event adds to hits, loads, avoided and read bytes, and that the peak is the running maximum |
| ExpertCacheLedger.CountersTellTheHistory | src/qx_expert_cache.c:116-190 | over any run, failures included: avoided = bytes of counted hits, read >= bytes of loaded slices, peak = highest residency of the history |
| ExpertCacheLedger.StateBalances | src/qx_expert_cache.c:116-190 | requests = hits + misses, loads <= misses, loads - evictions = entries, resident = sum of sizes <= peak <= budget, two live blocks per entry |
| ExpertCacheTraces.TrimIsLongest | src/qx_expert_cache.c:144-152 | the reference's eviction keeps the longest recent suffix that fits |
| ExpertCacheTraces.InclusionStep | src/qx_expert_cache.c:115-152 | one request keeps the smaller budget's list a suffix of the larger one's |
| ExpertCacheTraces.TouchRefinesLru | src/qx_expert_cache.c:92-211 | an undisturbed acquire and release is one step of plain LRU on keys, and moves exactly the counters of a hit or of a load |
| ExpertCacheTraces.PlayRefinesLru | src/qx_expert_cache.h:58-63 | after any undisturbed trace the cache's list, hits, loads and bytes read are those of plain LRU |
| ExpertCacheTraces.LargerBudgetIncludesSmaller | src/qx_expert_cache.c:115-152 | LRU inclusion over whole traces with slices of any size: the larger budget holds a superset, hits at least as often, loads and reads at most as much |
| ExpertCacheTraces.WorkingSetIsReadOnce | src/qx_expert_cache.c:141-190 | when the distinct slices of a trace fit the budget nothing is evicted and each is loaded once |
| WorkingSetBudget.ReadLayer | scripts/expert_cache_acceptance.py:230-242 | the slice sizes of a layer, or the first fault among its three tensors, which it names |
| WorkingSetBudget.DeriveBudget | scripts/expert_cache_acceptance.py:224-269 | the whole report: budget, largest slice, limits, verdicts and a line for every layer; it is refused exactly when some tensor is unusable, with the first fault of the first such layer |
| WorkingSetBudget.EverySliceFits | scripts/expert_cache_acceptance.py:229-256 | every single slice fits the derived budget |
| WorkingSetTraces.KeyWithin | src/qx_format.c:4845-4862 | the slice the matrix product asks for is no larger than the one the budget counts, in padded tensors too |
| WorkingSetTraces.WorkingSetKeys | src/qx_format.c:4845-4862 | the keys asked for by any use of at most top-k experts per layer lie in a list of at most the budget's bytes |
| WorkingSetTraces.KeyAccepted | src/qx_expert_cache.c:103-142 | with the derived budget no key of the model is refused or larger than the budget |
| WorkingSetTraces.DerivedBudgetFits | scripts/expert_cache_acceptance.py:224-256 | with the derived budget every such trace whose callbacks work is served without eviction and reads every distinct slice once |
| RowPartition.NoOverflow | src/qx_row_pool.h:82-84 | the 64-bit products never wrap and the bounds fit 32 bits, for 2 to 64 workers and any row count |
| RowPartition.RangesTile | src/qx_row_pool.h:82-84 | the workers' ranges cover every row exactly once |
| RowPoolSafety.FreshIsSafe | src/qx_row_pool.h:115-136 | a new pool satisfies the invariant |
| RowPoolSafety.StepKeeps | src/qx_row_pool.h:67-178 | every step of every thread keeps the invariant: remaining counts the workers that have not finished, fn and context are valid for every worker holding them, parked workers have nothing to do, computed rows hold the job's values |
| RowPoolSafety.RunReturnsTheSerialResult | src/qx_row_pool.h:169-177 | when run returns no worker holds the job, every row was computed once, the output is the serial loop's, and success means no callback failed |
| RowPoolSafety.DestroyedIsQuiet | src/qx_row_pool.h:99-113 | after destroy every created thread has left the pool and the lock is free |
| RowPoolProgress.SomebodyMoves | src/qx_row_pool.h:72-95 | no lost wakeup: parked workers are up to date, and while a call is open some step that is not a spurious wake is enabled |
| RowPoolProgress.EveryMoveIsProgress | src/qx_row_pool.h:72-177 | every such step strictly decreases the distance to the end of the open call |
| RowPoolProgress.SpuriousCost | src/qx_row_pool.h:78-79 | a spurious wake costs at most two steps |
| RowPoolProgress.RunsAreBounded | src/qx_row_pool.h:99-177 | any schedule is bounded, so create, run and destroy return whenever callbacks do |
| RowPoolProgress.RunIsSerial | src/qx_row_pool.h:151-178 | from the call of run on, under every interleaving, the pool is still serving the job or has left the serial loop's output, each row once, with the right verdict |
| RowPoolProgress.SettledIsServed | src/qx_row_pool.h:151-178 | a run that no thread can continue has served the job, with the serial output |
| RowPoolProgress.CanFinish | src/qx_row_pool.h:151-178 | from every state in which a job is being served the threads have a schedule that serves it |
| LittleEndian.LeRoundTrip | scripts/make_synthetic_gguf.py:21-66 | a packed number reads back |
| Layouts.FlatIsAt | scripts/make_synthetic_gguf.py:21-66 | wherever a file holds the flattened records, it holds every field at its offset |
| GgufWriter.Writer.Wstr | scripts/make_synthetic_gguf.py:21-24 | writes a length and the bytes, and nothing else |
| GgufWriter.Writer.Strs | scripts/make_synthetic_gguf.py:43-44 | the loop writes every string of the array |
| GgufWriter.Writer.Ints | scripts/make_synthetic_gguf.py:51-52 | the loop writes every number of the array |
| GgufWriter.Writer.Pair | scripts/make_synthetic_gguf.py:27-57 | writes exactly the encoding of a key-value pair of each kind |
| GgufWriter.Writer.Record | scripts/make_synthetic_gguf.py:60-66 | writes exactly the encoding of a tensor record |
| GgufWriter.Writer.Pairs | scripts/make_synthetic_gguf.py:146-156 | the loop writes every pair in order |
| GgufWriter.Writer.Records | scripts/make_synthetic_gguf.py:157-158 | the loop writes every tensor record in order |
| GgufWriter.Writer.File | scripts/make_synthetic_gguf.py:143-160 | header, pairs, records, padding to 32 and data, in that order |
| GgufReader.File.ReadString | src/qx_gguf.c:77-90 | the cursor and the kept bytes after read_string, whatever the buffer size and whatever the length says |
| GgufReader.File.SkipArray | src/qx_gguf.c:111-122 | the cursor after an array of strings or scalars, wrapped product and signed seek included |
| GgufReader.File.SkipValue | src/qx_gguf.c:109-126 | the cursor after skip_value, or its failure |
| GgufReader.File.ReadNumber | src/qx_gguf.c:128-142 | the sign-extended value of an integer type; anything else is skipped |
| GgufReader.File.ReadPair | src/qx_gguf.c:197-211 | one pass of the metadata loop: cursor, error and summary |
| GgufReader.File.ReadPairs | src/qx_gguf.c:197-211 | the metadata loop on any bytes: cursor, summary, or the first failure |
| GgufReader.File.ReadTensor | src/qx_gguf.c:222-227 | one tensor record, or which part of it is missing |
| GgufReader.File.ReadTensors | src/qx_gguf.c:219-229 | the tensor loop on any bytes, keeping the first eight records |
| GgufReader.InspectFile | src/qx_gguf.c:179-238 | the reader with its cursor computes the inspection on every byte string, error cases included |
| GgufWalk.StringAt | src/qx_gguf.c:77-90 | over a stored string the cursor moves by the encoded length, even when the buffer truncates |
| GgufWalk.ValueAt | src/qx_gguf.c:109-142 | over a stored value of every kind the cursor moves by the encoded length, whether it is read or skipped |
| GgufWalk.PairsAt | src/qx_gguf.c:197-217 | the metadata loop ends at the byte after the last pair, for any list of pairs |
| GgufWalk.TensorsAt | src/qx_gguf.c:219-234 | the tensor loop ends at the byte after the last record |
| GgufSummary.SummariseAt | src/qx_gguf.c:144-177 | the summary gathered from the bytes is the one the written pairs describe |
| GgufSummary.RecordsAt | src/qx_gguf.c:219-229 | the records read are the records written, names cut to the buffer |
| GgufKeys.CountLands | src/qx_gguf.c:144-157 | a count under either model prefix lands in the field its suffix names, and nothing else moves |
| GgufKeys.LastAlignmentWins | src/qx_gguf.c:147 | the alignment is that of the last pair that sets it, or 32 |
| GgufRoundTrip.InspectWritten | src/qx_gguf.c:179-238 | inspecting any written file succeeds and returns the described summary, the table offset after the last pair, and the first eight records |
| GgufRoundTrip.DataOffsetWritten | scripts/make_synthetic_gguf.py:159-161 | the reader's data offset is where the writer began the data when the alignment is 32 or 0 |
| GgufTable.SortedOrders | src/qx_gguf.c:333-336 | any sorted permutation lists every tensor once with its own offset |
| GgufTable.AssignSizes | src/qx_gguf.c:337-343 | it succeeds exactly when every offset lies in the data region; the intervals then are disjoint, inside it, and sum to the region less the lowest offset, for any order of equal offsets |
| GgufTable.ReadTable | src/qx_gguf.c:316-335 | the second reading returns the inspected records, unless some offset fails the wrapped bound check |
| GgufTable.LoadTensorTable | src/qx_gguf.c:287-347 | the table on success, and which error on failure, for every byte string, every correct qsort and either answer of calloc |
| GgufTable.AcceptedExactlyInside | src/qx_gguf.c:330-341 | although the sum at line 330 can wrap, a table is accepted exactly when there is memory and every offset is inside the data region |
| GgufLayout.TensorNbytes | scripts/make_synthetic_gguf.py:79-85 | the byte count of a tensor, or its refusal |
| GgufLayout.NBytesExact | scripts/make_synthetic_gguf.py:79-85 | the count is that of whole blocks: the division drops no element |
| GgufLayout.LayOut | scripts/make_synthetic_gguf.py:136-141 | each tensor starts at the next multiple of 32 |
| GgufLayout.StopBounds | scripts/make_synthetic_gguf.py:136-141 | a tensor's bytes fit before the next one with less than 32 to spare |
| GgufLayout.LoadsWhatWasLaidOut | src/qx_gguf.c:287-347 | loading the table of a written file returns every record, and for each tensor its bytes rounded up to the next start by less than 32, the last exactly |
| Utf8.DecodeEncode | scripts/export_qwen3_tokenizer.py:64-66 | strict UTF-8 decoding undoes encoding |
| Utf8.EncodeDecode | scripts/export_qwen3_tokenizer.py:64-66 | what decodes has only one spelling |
| TokenizerReader.Reader.String | scripts/export_qwen3_tokenizer.py:59-66 | handle, text and exception of a string read on any bytes |
| TokenizerReader.Reader.Strings | scripts/export_qwen3_tokenizer.py:85 | the list of strings, or the first exception |
| TokenizerReader.Reader.Array | scripts/export_qwen3_tokenizer.py:78-93 | an array with its limits, and the element type remembered |
| TokenizerReader.Reader.ReadValue | scripts/export_qwen3_tokenizer.py:74-94 | a value of any type, or the exception |
| TokenizerReader.Reader.Pairs | scripts/export_qwen3_tokenizer.py:129-134 | the dictionary of wanted keys after the loop, or the first exception |
| TokenizerReader.ReadTokenizerMetadata | scripts/export_qwen3_tokenizer.py:105-137 | the reader with its handle computes the metadata on every byte string |
| TokenizerRoundTrip.ReadsWhatWasGiven | scripts/export_qwen3_tokenizer.py:105-137 | reading back a written file returns what was given: types, element types and values, the last one of a repeated key |
| TokenizerRoundTrip.EveryWantedValue | scripts/export_qwen3_tokenizer.py:133-134 | with one pair per key every wanted value is in the dictionary |
| TokenizerRoundTrip.NothingElse | scripts/export_qwen3_tokenizer.py:117-134 | and nothing else is |
| TokenizerPayload.MergeSplits | scripts/export_qwen3_tokenizer.py:196-208 | a merge is accepted exactly when it is two nonempty parts joined at its first space, NUL-free and within the limit, and those are the parts kept |
| TokenizerPayload.AddTokens | scripts/export_qwen3_tokenizer.py:188-194 | the loop checks tokens in order and grows the payload by exactly their encodings |
| TokenizerPayload.AddMerges | scripts/export_qwen3_tokenizer.py:196-208 | the same for merges |
| TokenizerPayload.BuildPayload | scripts/export_qwen3_tokenizer.py:164-210 | the vocabulary the metadata describe and its payload, or the first reason to refuse |
| TokenizerPayload.ValidatedPayload | scripts/export_qwen3_tokenizer.py:140-226 | header and payload of that vocabulary, checksum included, and the counts and flags returned with them |
| TokenizerPayload.ValidIsAdmissible | scripts/export_qwen3_tokenizer.py:169-210 | an accepted vocabulary has the expected model, ids in range, NUL-free texts within the limit, token types 1 to 6, nonempty merge symbols and a payload within the limit |
| TokenizerLoad.Utf8NextIs | src/qx_tokenizer.c:333-353 | the decoder step at any offset is strict UTF-8 |
| TokenizerLoad.ValidUtf8 | src/qx_tokenizer.c:355-363 | the loop accepts exactly the byte strings that strict UTF-8 decodes |
| TokenizerLoad.ReadToken | src/qx_tokenizer.c:136-148 | one token entry, or which of its checks fails first |
| TokenizerLoad.ReadMerge | src/qx_tokenizer.c:149-167 | one merge entry, or which of its checks fails first |
| TokenizerLoad.ReadTokens | src/qx_tokenizer.c:136-148 | the token loop on any bytes: cursor and entries, or the first fault |
| TokenizerLoad.ReadMerges | src/qx_tokenizer.c:149-167 | the merge loop on any bytes: cursor and ranked entries, or the first fault |
| TokenizerLoad.LoadFile | src/qx_tokenizer.c:69-184 | the loader computes the tokenizer, or the first of its errors, on every byte string |
| TokenizerSidecar.SidecarReadsBack | src/qx_tokenizer.c:69-184 | the program loads from a sidecar exactly the tokenizer of the vocabulary it was built from |
| TokenizerSidecar.TokenizerDetermines | src/qx_tokenizer.c:169-183 | different vocabularies never load as the same tokenizer |
| TokenizerSidecar.ExportReadsBack | scripts/export_qwen3_tokenizer.py:140-226 | the program loads whatever the exporter accepts, unchanged |
| TokenizerSidecar.CorruptionIsNoticed | src/qx_tokenizer.c:123-125 | one changed payload byte, anywhere in a loadable sidecar, is refused for its checksum |
| TokenizerExact.LoadedIsSidecar | src/qx_tokenizer.c:69-184 | any file that loads is, byte for byte, the sidecar of an admissible vocabulary |
| TokenizerExact.LoadsExactlySidecars | src/qx_tokenizer.c:69-184 | the program loads exactly the sidecars of admissible vocabularies |
| TokenizerImage.ExportableExactly | scripts/export_qwen3_tokenizer.py:140-210 | the vocabularies some metadata make the exporter accept are exactly the admissible ones with no space in a merge's left symbol |
| TokenizerImage.LoadsExactlyExports | src/qx_tokenizer.c:69-184 | a file is an output of the exporter exactly when the program loads it and no merge's left symbol in it holds a space |
| TokenizerImage.SpacedIsLoadedOnly | src/qx_tokenizer.c:149-167 | one token and the merge of "a b" with "c": the program loads that sidecar, and no metadata make the exporter write it |
| TokenizerExport.VocabularySurvives | scripts/export_qwen3_tokenizer.py:105-226 | end to end: a vocabulary, its ids and flags given or left to their defaults, written into a GGUF file, read, exported and loaded by the program is the vocabulary's own tokenizer |
| Fnv.Fnv1a64 | scripts/export_qwen3_tokenizer.py:97-102 | the loop computes the fold of the hash step |
| Fnv.MulUndone | scripts/export_qwen3_tokenizer.py:101 | multiplication by the odd constant modulo 2^64 has an inverse |
| Fnv.AbsorbInjective | scripts/export_qwen3_tokenizer.py:100-101 | one step is injective in the state and in the byte |
| Fnv.FoldInjective | scripts/export_qwen3_tokenizer.py:99-101 | different states stay different over the same bytes |
| Fnv.FoldConcat | scripts/export_qwen3_tokenizer.py:97-102 | hashing a concatenation is hashing the second part from the first part's hash |
| Fnv.DetectsOneByte | scripts/export_qwen3_tokenizer.py:97-102 | two strings of one length that differ in one byte have different hashes |
| Rounding.OverflowExactly | scripts/q8k_activation_spike.py:22-23 | f32 raises exactly from halfway between the largest finite single and 2^128 on |
| Rounding.SingleStays | scripts/q8k_activation_spike.py:22-23 | f32 leaves single-precision values alone |
| Rounding.SingleResult | scripts/q8k_activation_spike.py:22-23 | whatever f32 returns is a single-precision value |
| Rounding.ProductExact | scripts/q8k_activation_spike.py:53 | the double-precision product of two singles is not rounded |
| Q8kNearest.LowBits | scripts/q8k_activation_spike.py:29-30 | the low 23 bits of a single from 2^23 on are its distance from 2^23 |
| Q8kNearest.NearestIntIs | scripts/q8k_activation_spike.py:26-30 | what the addition comes to: a rounding to multiples of 2^-29, then one to integers |
| Q8kNearest.NearestIntRounds | scripts/q8k_activation_spike.py:26-30 | on single-precision values it rounds to nearest, ties to even, or refuses beyond 4194303 |
| Q8kNearest.NearestIntExactly | scripts/q8k_activation_spike.py:26-30 | on any accepted value it does so exactly unless the value is within 2^-30 of a tie, on the side that is not even |
| Q8kNearest.DoubleRounding | scripts/q8k_activation_spike.py:26-30 | 0.5 + 2^-40 is a double for which it does not |
| Rounding.RoundEvenBounds | scripts/q8k_activation_spike.py:26-30 | the rounding is within a half, and even when it is exactly a half off |
| Q8kQuantize.PeakBounds | scripts/q8k_activation_spike.py:41-47 | amax bounds every value of its block |
| Q8kQuantize.FindPeak | scripts/q8k_activation_spike.py:41-47 | the loop finds amax and the first value that attains it |
| Q8kScaling.RefusedExactly | scripts/q8k_activation_spike.py:52 | the inverse scale of a single-precision peak overflows exactly when 127 / amax reaches 2^128 - 2^103; the rounding to double in between changes nothing |
| Q8kScaling.InverseClose | scripts/q8k_activation_spike.py:52 | the stored inverse scale takes the peak to -127, but for 2^-16 |
| Q8kScaling.NormalClose | scripts/q8k_activation_spike.py:53 | the scaled value is never refused and off by at most 2^-18 |
| Q8kScaling.ScaleClose | scripts/q8k_activation_spike.py:57 | the stored scale never overflows and undoes the inverse scale but for 2^-21, even where it is subnormal |
| Q8kQuantize.QuantInRange | scripts/q8k_activation_spike.py:52-55 | every product is accepted and rounded to nearest, ties to even; the cap at 127 never acts, and every quant is an int8 |
| Q8kQuantize.QuantizeBlock | scripts/q8k_activation_spike.py:40-57 | one block's scale, quants and group sums with every rounding, or the overflow of line 52, which is the only exception |
| Q8kQuantize.Quantize | scripts/q8k_activation_spike.py:33-58 | an input is refused exactly when it is empty, ends in a partial block, holds an infinity or NaN, or has a block whose inverse scale overflows |
| Q8kQuantize.TinyPeakRefused | scripts/q8k_activation_spike.py:52 | a block of finite singles that is refused |
| Q8kQuantize.DequantClose | scripts/q8k_activation_spike.py:52-57 | every dequantised value is within amax * (1/254 + 2^-20) of its input, all roundings included |
| Iq4Dot.Decode | scripts/q8k_activation_spike.py:89-102 | the 256 weights of a block |
| Iq4Plain.DecodeIsExact | scripts/q8k_activation_spike.py:98-101 | neither f32 of the decoder rounds: a finite half-precision scale times a local scale and a table entry is a single |
| Iq4Plain.DotPlain | scripts/q8k_activation_spike.py:105-113 | for any row: ValueError exactly when the dimensions differ, an infinity or NaN exactly when a block's scale is one, and else the rounded sum, or OverflowError exactly when that reaches 2^128 - 2^103 |
| Iq4Plain.PlainReturns | scripts/q8k_activation_spike.py:105-113 | up to 2^20 blocks whose products come to at most 2^126 in magnitude: no overflow, and an error of at most a 2^23rd of those magnitudes and 2^-149 |
| Iq4Dot.SumIntegers | scripts/q8k_activation_spike.py:125-133 | the integer sum of a block, group by group |
| Iq4Rounded.DotFactored | scripts/q8k_activation_spike.py:116-135 | for any row: the integer dot with every rounding, ValueError exactly when the dimensions differ, OverflowError from the first total or term that overflows, and an infinity or NaN only where a block's scale is one |
| Iq4Dot.FactoredIsPlain | scripts/q8k_activation_spike.py:89-135 | without roundings the factored integer dot equals the plain dot of the decoded weights with the dequantised activations |
| Iq4Rounded.RoundedClose | scripts/q8k_activation_spike.py:116-135 | what the loop returns differs from the exact factored dot by at most the roundings of its terms and totals |
| Iq4Rounded.RoundedIsClose | scripts/q8k_activation_spike.py:33-135 | whenever the integer dot of a quantised activation returns, it is within those roundings and half a quant per weight of the exact plain dot of the activation |
| Summation.AddRounded | scripts/q8k_activation_spike.py:112-134 | one rounded addition of a term that is itself near an exact one: what it adds to the error of the sum |
| Iq4Range.DotReturns | scripts/q8k_activation_spike.py:116-135 | up to 2^20 blocks whose exact terms come to at most 2^126 in magnitude: no overflow, and an error of at most 2 n + 1 times a 2^23rd of those magnitudes and 3 n times 2^-149 |
| Iq4Returns.MassesFit | scripts/q8k_activation_spike.py:33-135 | activations of at most 2^63 in magnitude, in up to 2^20 blocks, and any finite weights: terms and products stay within those limits |
| Iq4Returns.ReturnedDotsAreClose | scripts/q8k_activation_spike.py:33-135 | end to end, every rounding included: for such activations both dots return, and they differ by at most half a quant per weight and what the roundings of either can add |
| Iq4Returns.LoudOverflows | scripts/q8k_activation_spike.py:116-135 | 256 activations of 2^93 or more that the quantiser accepts, and finite weights: the integer dot raises OverflowError |
| Iq4Pack.ScalesUnpack | scripts/q8k_activation_spike.py:97 | from a block packed with any eight local scales each is read back |
| Iq4Pack.IndicesUnpack | scripts/q8k_activation_spike.py:99-101 | from a block packed with any 256 indices each weight takes its own table entry |
| Iq4Pack.PackHolds | scripts/q8k_activation_spike.py:92-101 | any eight local scales and 256 indices have a packed block |
| Iq4Bounds.DotsAreClose | scripts/q8k_activation_spike.py:33-135 | the exact dots of an activation and of its quantised form differ by at most the sum over the blocks of half a quant times the weights' magnitudes |
| Iq4Bounds.QuantsAreInt8 | scripts/q8k_activation_spike.py:52-57 | every block the quantiser makes has int8 quants |
| Iq4Bounds.IntegerSumFits | scripts/q8k_activation_spike.py:125-133 | the running integer sum of any row fits a signed 32-bit integer after every group |
| KvHeader.ParsesWhatWasWritten | scripts/kv_snapshot_replay.py:229-266 | parsing a snapshot written with any sound geometry returns it exactly when the records have the implied length |
| KvSnapshot.PlaceBounds | scripts/kv_snapshot_replay.py:212-216 | every vector and scale lies inside its record, between header and trailer |
| KvSnapshot.EveryByteOwned | scripts/kv_snapshot_replay.py:212-218 | vectors and scales cover every byte between header and trailer |
| KvSnapshot.NoByteShared | scripts/kv_snapshot_replay.py:212-218 | and no byte belongs to two of them |
| KvSnapshot.OffsetsAreInjective | scripts/kv_snapshot_replay.py:212-214 | an offset determines layer, position and kind |
| KvEntries.BuildEntries | scripts/kv_snapshot_replay.py:294-312 | the nested loops list one entry per vector, in order |
| KvEntries.ValidateEntries | scripts/kv_snapshot_replay.py:196-226 | the loop with its set of seen keys decides acceptance on any entry list |
| KvEntries.CheckIsEquality | scripts/kv_snapshot_replay.py:199-224 | an entry passes exactly when it is the builder's entry for its key, field by field, and the stored scale is acceptable |
| KvEntries.KeysOnce | scripts/kv_snapshot_replay.py:190-195 | the builder visits no key twice |
| KvAgreement.SeenIs | scripts/kv_snapshot_replay.py:196-211 | the set of seen keys after any prefix of the list |
| KvAgreement.AcceptsMeans | scripts/kv_snapshot_replay.py:196-226 | acceptance means every entry passed, no key came twice and every key came |
| KvAgreement.AcceptedAreReorderings | scripts/kv_snapshot_replay.py:182-312 | for every parsed payload a list is accepted exactly when all stored scales pass and it is a reordering of the built list |
| RouteTrace.Expert | src/qx_qxf_main.c:84-93 | the expert is in range |
| RouteTrace.TraceExpert | src/qx_qxf_main.c:79-93 | the generator's state, mixed and advanced twice, gives that expert |
| RouteTrace.ExpertIs | src/qx_qxf_main.c:84-93 | wrapping at every step equals wrapping once at the end |
| RouteDistinct.DistinctForPowersOfTwo | src/qx_qxf_main.c:84-93 | for a power-of-two count the experts of a layer and token are pairwise distinct, despite wrap-around |
| RouteDistinct.AgreeExactly | src/qx_qxf_main.c:84-93 | any two choices agree exactly when the count divides their distance less 2^32 for every wrap-around in between |
| RouteDistinct.DistinctExactly | src/qx_qxf_main.c:84-93 | for any count, seed, layer and token, wrap-around included: when all choices are distinct |
| RouteDistinct.DistinctBelowTheWrap | src/qx_qxf_main.c:84-93 | where the arguments leave no room to wrap, the choices are distinct exactly unless 17 divides the count and more than a seventeenth of the experts are asked for |
| RouteDistinct.DistinctAlways | src/qx_qxf_main.c:84-93 | a count that 17 does not divide and that meets no distance across the wrap-around never repeats an expert |
| RouteDistinct.SomeTokenRepeats | src/qx_qxf_main.c:84-93 | and for counts up to 17 (top_k - 1) that is necessary: otherwise some token repeats an expert for every seed |
| RouteDistinct.NeverRepeatsExactly | src/qx_qxf_main.c:79-93 | exactly which counts never repeat an expert for any seed, layer, token and reuse: multiples of 17 of which at most a seventeenth are asked for, and other counts that divide no distance across the wrap-around |
| RouteDistinct.SeventeenRepeats | src/qx_qxf_main.c:84-93 | 17 experts: the first two choices are the same, whatever the seed |
| RouteDistinct.WrapRepeats | src/qx_qxf_main.c:84-93 | 3 experts and token 692736660: the first and third choices are the same, whatever the seed |
| RouteTrace.FullReuseIgnoresToken | src/qx_qxf_main.c:88-91 | with a reuse of 100 or more the choice does not depend on the token |
| RouteTrace.Route | src/qx_qxf_main.c:95-121 | the three loops emit the items in order, and nothing on bad arguments |
| RouteTrace.RequestsAreItems | src/qx_qxf_main.c:97 | the announced count is the number of items modulo 2^64 |
| CliIds.ParseInto | src/qx_qxf_main.c:186-204 | the cursor loop fills the array with the parsed ids and reports every error, leaving the rest of the array alone |
| CliIds.NegativeIds | src/qx_qxf_main.c:194-195 | a minus sign: refused where unsigned long has 64 bits, taken modulo 2^32 where it has 32 |
| CliIds.NumberRead | src/qx_qxf_main.c:194 | strtoul reads back a printed number |
| CliIds.ParsesWhatWasJoined | src/qx_qxf_main.c:186-204 | parsing the comma-joined decimal form of any non-empty list within capacity returns it, for either width of unsigned long |
| CliJson.PrintString | src/qx_qxf_main.c:235-249 | the loop prints quote, every byte's form, quote |
| CliJson.PrintsWhatItWasGiven | src/qx_qxf_main.c:235-249 | for every UTF-8 byte string the output is a JSON string (RFC 8259, section 7) whose value is the same characters |

## Left out

- ExpertCache.Cache.Acquire: NULL arguments, the error text, and `read_exact` writing outside the slice are not modelled; the callbacks' answers are a parameter, the allocator never hands out a live block, and SIZE_MAX is a parameter.
- ExpertCacheRuns.BorrowsReadTheSource: each borrow is released once and not overwritten before; releasing a copy of a borrow twice is outside the runs considered.
- ExpertCacheTraces.TouchRefinesLru: the counters are assumed to have room for the trace, and allocations and reads to succeed; with failures only the run theorems apply.
- WorkingSetBudget.DeriveBudget: a tensor's name is the pair of layer and kind; the formula and scope texts of the report are left out.
- WorkingSetTraces.DerivedBudgetFits: the packed tensors have at least the manifest's number of experts, and the budget fits the address space.
- RowPoolSafety.StepKeeps: `generation` and `jobs` are unbounded here, so a wrap after 2^64 jobs is not modelled; lock initialisation, thread handles and their failure (other than thread creation) are left out.
- RowPoolSafety.RunReturnsTheSerialResult: a callback is a loop over its rows that writes only its own rows and computes each from the row number, and the code it returns depends on its range.
- GgufReader.InspectFile: opening and closing files, I/O errors other than end of file, and reads of a file that changes meanwhile are left out; the seven counters of the summary are a map from key suffix to value.
- GgufTable.LoadTensorTable: the two callocs answer as one; qsort is any function returning a sorted permutation.
- GgufWriter.Writer.File: text and lengths arrive encoded; struct.pack's exceptions are preconditions. The bytes chosen for the tensors' data are not modelled.
- TokenizerReader.ReadTokenizerMetadata: a float is kept as its bits; a short read after a successful bound check cannot happen here.
- TokenizerPayload.ValidatedPayload: metadata whose value does not have the shape its type tag promises (which the reader never returns) is refused as a wrong type.
- TokenizerLoad.LoadFile: opening the file and I/O errors; the three allocations answer as one. The rest of `src/qx_tokenizer.c` (merging, chat templates, the summary) is not part of this model.
- Q8kQuantize.Quantize: finite inputs are single-precision values, as every caller passes; the sign of a zero is not modelled.
- Iq4Plain.DotPlain: sums run from left to right, as in Python 3.11, the version of `.github/workflows/ci.yml`; from 3.12 on `sum` compensates. Activations are finite, and small enough that no double overflows, as single-precision ones are.
- Iq4Dot.FactoredIsPlain: about the exact dots; Iq4Range.DotReturns and Iq4Plain.PlainReturns bound the roundings of each.
- Iq4Rounded.DotFactored: the blocks' scales are finite, as the quantiser's are; an overflow is ruled out by a condition on the magnitudes and shown by an input, not characterised exactly.
- Iq4Rounded.RoundedIsClose: its bound is read off the computed totals; Iq4Range.DotReturns and Iq4Returns.ReturnedDotsAreClose state it in the exact terms, with a condition under which the dot returns.
- Iq4Bounds.DotsAreClose: about the exact dots; Iq4Returns.ReturnedDotsAreClose adds the roundings.
- KvEntries.ValidateEntries: a manifest entry is its seven required fields after JSON parsing, with a number already converted by float(); the manifest's other sections and the error messages are left out. SHA-256 is an arbitrary function.
- RouteTrace.Route: the items are a list; the JSON text around them and the separators are not modelled.
- RouteDistinct.SomeTokenRepeats: one token for every seed, for small counts only; for any count RouteDistinct.NeverRepeatsExactly has a seed and token.
- CliIds.ParseInto: NULL text and the error messages; isspace is that of the C locale.
- `src/qx_format.c` (matrix products, attention, MoE, QXF input and output) is not part of this model but for the cache keys; the pool's callback and the cache's reader stand for it.
- The CUDA stub, the AVX2 dot product and the fault-injection macros of the pool are foreign calls.
- The C export of tokenizer tokens, `qx_gguf_dump_summary` and its escaping would only add members of the kinds shown.
- `decode_q4_k`, the metrics and the timing of the quantisation experiment are straight-line formulas.
- Acceptance runners, report schemas, provenance checks, `verify_qxf_copy.py` and the planning formulas of `src/qxfit.c` have no hard properties.
- Dispatch of the command line's sub-commands is a long list of one-branch checks.
